/** What the checksum is: the remainder of a polynomial division (section 8 of RFC 1952 gives the
    polynomial). Here polynomials are words with the coefficient of x^e in bit e, as on paper; the
    running value of the checksum has them the other way round. */
module CrcDivision {
  import opened Word32
  import Crc

  /** x^32 + this is the polynomial. */
  const TERMS: bv32 := 0x04c1_1db7

  lemma TermsAre()
    ensures
      TERMS ==
      (1 << 26) | (1 << 23) | (1 << 22) | (1 << 16) | (1 << 12) | (1 << 11) | (1 << 10) | (1 << 8) | (1 << 7) | (1 << 5)
      | (1 << 4) | (1 << 2) | (1 << 1) | 1
  {
  }

  /** The word read from the other end. */
  function Reverse(c: bv32): bv32 {
    var c1 := ((c >> 1) & 0x5555_5555) | ((c & 0x5555_5555) << 1);
    var c2 := ((c1 >> 2) & 0x3333_3333) | ((c1 & 0x3333_3333) << 2);
    var c3 := ((c2 >> 4) & 0x0f0f_0f0f) | ((c2 & 0x0f0f_0f0f) << 4);
    var c4 := ((c3 >> 8) & 0x00ff_00ff) | ((c3 & 0x00ff_00ff) << 8);
    (c4 >> 16) | (c4 << 16)
  }

  /** The coefficient of x^31. */
  function Top(r: bv32): bv32 {
    r >> 31
  }

  /** What is subtracted when there is a multiple of x^32. */
  function Reduce(top: bv32): bv32 {
    if top == 1 then TERMS else 0
  }

  /** x times r, modulo the polynomial. */
  function TimesX(r: bv32): bv32 {
    Crc.Xor(Crc.Twice(r), Reduce(Top(r)))
  }

  function TimesXs(r: bv32, n: nat): bv32 {
    if n == 0 then r else TimesX(TimesXs(r, n - 1))
  }

  function Coef(b: bool): bv32 {
    if b then 1 else 0
  }

  /** The remainder of a polynomial given by its coefficients, the highest first. */
  function Remainder(bits: seq<bool>): bv32
    decreases |bits|
  {
    if bits == [] then 0 else Crc.Xor(TimesX(Remainder(bits[..|bits| - 1])), Coef(bits[|bits| - 1]))
  }

  /** The lowest n bits of w, the lowest first. */
  function LowBits(w: bv32, n: nat): (r: seq<bool>)
    ensures |r| == n
  {
    if n == 0 then [] else [LowBit(w) == 1] + LowBits(Half(w), n - 1)
  }

  /** The bits of a message, in the order in which the checksum takes them. */
  function MessageBits(s: seq<byte>): (r: seq<bool>)
    ensures |r| == 8 * |s|
    decreases |s|
  {
    if s == [] then [] else MessageBits(s[..|s| - 1]) + LowBits(Crc.Word(s[|s| - 1]), 8)
  }

  function Zeros(n: nat): (r: seq<bool>)
    ensures |r| == n
  {
    seq(n, i => false)
  }

  // ---- The step of the checksum is a multiplication by x ----

  /** The inner loop multiplies by x. */
  lemma BitIsTimesX(c: bv32)
    ensures Reverse(Crc.Bit(c)) == TimesX(Reverse(c))
  {
  }

  lemma ReverseXor(a: bv32, b: bv32)
    ensures Reverse(Crc.Xor(a, b)) == Crc.Xor(Reverse(a), Reverse(b))
  {
  }

  lemma TimesXorX(a: bv32, b: bv32)
    ensures TimesX(Crc.Xor(a, b)) == Crc.Xor(TimesX(a), TimesX(b))
  {
    TwiceXor(a, b);
    TopXor(a, b);
    TopIsBit(a);
    TopIsBit(b);
    ReduceXor(Top(a), Top(b));
    hide Crc.Xor, Crc.Twice, Top, Reduce;
    Regroup(Crc.Twice(a), Crc.Twice(b), Reduce(Top(a)), Reduce(Top(b)));
  }

  lemma TwiceXor(a: bv32, b: bv32)
    ensures Crc.Twice(Crc.Xor(a, b)) == Crc.Xor(Crc.Twice(a), Crc.Twice(b))
  {
  }

  lemma TopXor(a: bv32, b: bv32)
    ensures Top(Crc.Xor(a, b)) == Crc.Xor(Top(a), Top(b))
  {
  }

  lemma TopIsBit(a: bv32)
    ensures Top(a) == 0 || Top(a) == 1
  {
  }

  lemma ReduceXor(a: bv32, b: bv32)
    requires (a == 0 || a == 1) && (b == 0 || b == 1)
    ensures Reduce(Crc.Xor(a, b)) == Crc.Xor(Reduce(a), Reduce(b))
  {
  }

  lemma Regroup(a: bv32, b: bv32, c: bv32, d: bv32)
    ensures Crc.Xor(Crc.Xor(a, b), Crc.Xor(c, d)) == Crc.Xor(Crc.Xor(a, c), Crc.Xor(b, d))
  {
    hide Crc.Xor;
    Crc.XorAssoc(Crc.Xor(a, b), c, d);
    Rearranged(a, b, c);
    Crc.XorAssoc(Crc.Xor(a, c), b, d);
  }

  lemma {:induction false} TimesXsXor(a: bv32, b: bv32, n: nat)
    ensures TimesXs(Crc.Xor(a, b), n) == Crc.Xor(TimesXs(a, n), TimesXs(b, n))
  {
    hide TimesX, Crc.Xor;
    if n > 0 {
      TimesXsXor(a, b, n - 1);
      TimesXorX(TimesXs(a, n - 1), TimesXs(b, n - 1));
    }
  }

  lemma {:induction false} TimesXsFirst(r: bv32, n: nat)
    ensures TimesXs(TimesX(r), n) == TimesX(TimesXs(r, n))
  {
    hide TimesX;
    if n > 0 { TimesXsFirst(r, n - 1); }
  }

  /** x^31, and no reduction on the way. */
  lemma Highest()
    ensures TimesXs(1, 31) == 0x8000_0000
  {
    assert TimesXs(1, 4) == 0x10;
    assert TimesXs(1, 8) == 0x100;
    assert TimesXs(1, 12) == 0x1000;
    assert TimesXs(1, 16) == 0x1_0000;
    assert TimesXs(1, 20) == 0x10_0000;
    assert TimesXs(1, 24) == 0x100_0000;
    assert TimesXs(1, 28) == 0x1000_0000;
  }

  lemma {:induction false} ZeroTimes(n: nat)
    ensures TimesXs(0, n) == 0
  {
    if n > 0 { ZeroTimes(n - 1); }
  }

  /** A coefficient taken in at the low end and multiplied by x^32 is one taken in at the high end and
      multiplied by x. */
  lemma CoefUp(b: bool)
    ensures TimesXs(Coef(b), 32) == TimesX(Reverse(Coef(b)))
  {
    Highest();
    ZeroTimes(32);
    assert Reverse(1) == 0x8000_0000 && Reverse(0) == 0 && TimesX(0) == 0;
    hide TimesX;
  }

  // ---- Bits, bytes, messages ----

  /** The checksum, bit by bit. */
  function BitByBit(c: bv32, bits: seq<bool>): bv32
    decreases |bits|
  {
    if bits == [] then c else Crc.Bit(Crc.Xor(BitByBit(c, bits[..|bits| - 1]), Coef(bits[|bits| - 1])))
  }

  lemma {:induction false} BitByBitConcat(c: bv32, a: seq<bool>, b: seq<bool>)
    ensures BitByBit(c, a + b) == BitByBit(BitByBit(c, a), b)
    decreases |b|
  {
    hide Crc.Bit, Crc.Xor, Coef;
    if b == [] {
      assert a + b == a;
    } else {
      assert (a + b)[..|a + b| - 1] == a + b[..|b| - 1];
      BitByBitConcat(c, a, b[..|b| - 1]);
    }
  }

  function LowBit(w: bv32): bv32 {
    w & 1
  }

  function Half(w: bv32): bv32 {
    w >> 1
  }

  function Feedback(low: bv32): bv32 {
    if low == 1 then Crc.POLY else 0
  }

  lemma BitIs(c: bv32)
    ensures Crc.Bit(c) == Crc.Xor(Half(c), Feedback(LowBit(c)))
  {
    assert c & 1 == 0 || c & 1 == 1;
  }

  lemma HalfXor(a: bv32, b: bv32)
    ensures Half(Crc.Xor(a, b)) == Crc.Xor(Half(a), Half(b)) && Half(LowBit(b)) == 0
  {
  }

  lemma LowXor(a: bv32, b: bv32)
    ensures LowBit(Crc.Xor(a, b)) == LowBit(Crc.Xor(a, LowBit(b)))
  {
  }

  /** All bits but the lowest may as well be taken in one turn later, one place further down. */
  lemma BitOfXor(c: bv32, w: bv32)
    ensures Crc.Bit(Crc.Xor(c, w)) == Crc.Xor(Crc.Bit(Crc.Xor(c, LowBit(w))), Half(w))
  {
    hide Crc.Bit, Crc.Xor, LowBit, Half, Feedback;
    BitIs(Crc.Xor(c, w));
    BitIs(Crc.Xor(c, LowBit(w)));
    HalfXor(c, w);
    HalfXor(c, LowBit(w));
    LowXor(c, w);
    XorZero(Half(c));
    Rearranged(Half(c), Half(w), Feedback(LowBit(Crc.Xor(c, w))));
  }

  lemma {:induction false} BitsFirst(c: bv32, n: nat)
    ensures Crc.Bits(Crc.Bit(c), n) == Crc.Bit(Crc.Bits(c, n))
  {
    hide Crc.Bit;
    if n > 0 { BitsFirst(c, n - 1); }
  }

  lemma {:induction false} BitByBitFirst(c: bv32, b: bool, rest: seq<bool>)
    ensures BitByBit(c, [b] + rest) == BitByBit(Crc.Bit(Crc.Xor(c, Coef(b))), rest)
  {
    hide Crc.Bit, Crc.Xor, Coef;
    BitByBitConcat(c, [b], rest);
    assert [b][..0] == [];
    assert BitByBit(c, [b]) == Crc.Bit(Crc.Xor(BitByBit(c, []), Coef(b)));
  }

  /** A word taken in at once is its bits taken in one by one, when no bit of it is left. */
  lemma {:induction false} WordByBits(c: bv32, w: bv32, n: nat)
    requires Fits(w, n)
    ensures Crc.Bits(Crc.Xor(c, w), n) == BitByBit(c, LowBits(w, n))
    decreases n
  {
    hide Crc.Bit, Crc.Xor, Coef, LowBit, Half;
    if n == 0 {
      XorZero(c);
    } else {
      BitsFirst(Crc.Xor(c, w), n - 1);
      BitOfXor(c, w);
      LowCoef(w);
      WordByBits(Crc.Bit(Crc.Xor(c, LowBit(w))), Half(w), n - 1);
      BitByBitFirst(c, LowBit(w) == 1, LowBits(Half(w), n - 1));
    }
  }

  lemma XorZero(c: bv32)
    ensures Crc.Xor(c, 0) == c && Crc.Xor(0, c) == c
  {
  }

  /** Only the lowest n bits of w are set. */
  predicate Fits(w: bv32, n: nat) {
    if n == 0 then w == 0 else Fits(Half(w), n - 1)
  }

  lemma LowCoef(w: bv32)
    ensures Coef(LowBit(w) == 1) == LowBit(w)
  {
  }

  lemma ByteFits(b: byte)
    ensures Fits(Crc.Word(b), 8)
  {
    var w := Crc.Word(b);
    ShiftedOut(b as bv8);
    var w4 := Half(Half(Half(Half(w))));
    assert Fits(Half(Half(Half(Half(w4)))), 0);
    hide Half;
    assert Fits(Half(Half(w4)), 2);
    assert Fits(w4, 4);
    assert Fits(Half(Half(w)), 6);
  }

  lemma ShiftedOut(b: bv8)
    ensures Half(Half(Half(Half(Half(Half(Half(Half(b as bv32)))))))) == 0
  {
  }

  lemma {:induction false} UpdateByBits(c: bv32, s: seq<byte>)
    ensures Crc.Update(c, s) == BitByBit(c, MessageBits(s))
    decreases |s|
  {
    hide Crc.Bits, Crc.Word, BitByBit, LowBits, Fits;
    if s == [] {
      NoBits(c);
    } else {
      var init, b := s[..|s| - 1], s[|s| - 1];
      UpdateByBits(c, init);
      ByteFits(b);
      WordByBits(Crc.Update(c, init), Crc.Word(b), 8);
      BitByBitConcat(c, MessageBits(init), LowBits(Crc.Word(b), 8));
    }
  }

  lemma NoBits(c: bv32)
    ensures BitByBit(c, []) == c
  {
  }

  // ---- The remainder ----

  lemma {:induction false} RemainderZeros(bits: seq<bool>, n: nat)
    ensures Remainder(bits + Zeros(n)) == TimesXs(Remainder(bits), n)
  {
    hide TimesX;
    if n == 0 {
      assert bits + Zeros(0) == bits;
    } else {
      var all := bits + Zeros(n);
      assert all[..|all| - 1] == bits + Zeros(n - 1) && !all[|all| - 1];
      RemainderZeros(bits, n - 1);
      XorZero(TimesX(Remainder(bits + Zeros(n - 1))));
    }
  }

  /** Bit by bit, with the bits in the other order: the remainder of all bits and 32 zeros, and what the
      starting value has become. */
  lemma {:induction false} DividedBits(c: bv32, bits: seq<bool>)
    ensures
      Reverse(BitByBit(c, bits)) == Crc.Xor(Remainder(bits + Zeros(32)), TimesXs(Reverse(c), |bits|))
    decreases |bits|
  {
    hide TimesX, Reverse, Crc.Bit, Crc.Xor, Coef, TimesXs, Zeros;
    RemainderZeros(bits, 32);
    if bits == [] {
      NothingDivided(c);
    } else {
      var n := |bits| - 1;
      DividedBits(c, bits[..n]);
      RemainderZeros(bits[..n], 32);
      OneMoreBit(BitByBit(c, bits[..n]), Remainder(bits[..n]), Reverse(c), n, bits[n]);
    }
  }

  lemma NothingDivided(c: bv32)
    ensures Reverse(BitByBit(c, [])) == Crc.Xor(TimesXs(Remainder([]), 32), TimesXs(Reverse(c), 0))
  {
    hide Reverse, Crc.Xor, TimesX;
    ZeroTimes(32);
    XorZero(Reverse(c));
  }

  lemma OneMoreBit(c: bv32, r: bv32, start: bv32, n: nat, b: bool)
    requires Reverse(c) == Crc.Xor(TimesXs(r, 32), TimesXs(start, n))
    ensures
      Reverse(Crc.Bit(Crc.Xor(c, Coef(b)))) ==
      Crc.Xor(TimesXs(Crc.Xor(TimesX(r), Coef(b)), 32), TimesXs(start, n + 1))
  {
    hide TimesX, Reverse, Crc.Bit, Crc.Xor, Coef;
    var d, a := TimesXs(r, 32), TimesXs(start, n);
    TimesXsXor(TimesX(r), Coef(b), 32);
    TimesXsFirst(r, 32);
    CoefUp(b);
    BitIsTimesX(Crc.Xor(c, Coef(b)));
    ReverseXor(c, Coef(b));
    TimesXorX(Crc.Xor(d, a), Reverse(Coef(b)));
    TimesXorX(d, a);
    Rearranged(TimesX(d), TimesX(a), TimesX(Reverse(Coef(b))));
  }

  lemma XorSwap(a: bv32, b: bv32)
    ensures Crc.Xor(a, b) == Crc.Xor(b, a)
  {
  }

  lemma Rearranged(a: bv32, b: bv32, c: bv32)
    ensures Crc.Xor(Crc.Xor(a, b), c) == Crc.Xor(Crc.Xor(a, c), b)
  {
    hide Crc.Xor;
    Crc.XorAssoc(a, b, c);
    XorSwap(b, c);
    Crc.XorAssoc(a, c, b);
  }

  /** The running value, read from the other end, is the remainder of the message times x^32, together with
      the starting value times as many x as the message has bits. */
  lemma UpdateIsRemainder(c: bv32, s: seq<byte>)
    ensures
      Reverse(Crc.Update(c, s)) == Crc.Xor(Remainder(MessageBits(s) + Zeros(32)), TimesXs(Reverse(c), 8 * |s|))
  {
    hide Reverse, TimesX, BitByBit, Crc.Update, MessageBits, Crc.Xor;
    UpdateByBits(c, s);
    DividedBits(c, MessageBits(s));
  }

  /** The checksum of one zero byte, for example. */
  lemma ZeroByte()
    ensures Crc.Checksum([0]) == 0xd202_ef8d
  {
    var s: seq<byte> := [0];
    assert s[..0] == [];
    assert Crc.Word(0) == 0;
    var c := Crc.START;
    assert Crc.Xor(c, 0) == c;
    assert Crc.Bits(c, 1) == 0x9247_7cdf;
    assert Crc.Bits(c, 2) == 0xa49b_3d4f;
    assert Crc.Bits(c, 3) == 0xbff5_1d87;
    assert Crc.Bits(c, 4) == 0xb242_0de3;
    assert Crc.Bits(c, 5) == 0xb499_85d1;
    assert Crc.Bits(c, 6) == 0xb7f4_41c8;
    assert Crc.Bits(c, 7) == 0x5bfa_20e4;
    assert Crc.Update(c, s) == 0x2dfd_1072;
  }
}
