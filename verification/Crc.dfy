/** Conversions between bytes and machine words. */
module ByteWord {

  lemma ByteBack(a: int)
    requires 0 <= a < 256
    ensures var x: bv8 := a as bv8; x as int == a
  {
  }
}

/** The reflected CRC-32 (polynomial 0xedb88320, section 8 of RFC 1952) that protocol.c and
    bc_file.c compute, and the errors it is sure to find. */
module Crc {
  import opened Word32
  import ByteWord

  const POLY: bv32 := 0xedb88320
  const START: bv32 := 0xffff_ffff

  /** One turn of the inner loop. */
  function Bit(c: bv32): bv32 {
    (c >> 1) ^ (POLY & (0 - (c & 1)))
  }

  function Bits(c: bv32, n: nat): bv32 {
    if n == 0 then c else Bit(Bits(c, n - 1))
  }

  function Word(b: byte): bv32 {
    (b as bv8) as bv32
  }

  function Xor(a: bv32, b: bv32): bv32 {
    a ^ b
  }

  function ByteStep(c: bv32, b: byte): bv32 {
    Bits(Xor(c, Word(b)), 8)
  }

  /** The running value after more bytes. */
  function Update(c: bv32, s: seq<byte>): bv32
    decreases |s|
  {
    if s == [] then c else ByteStep(Update(c, s[..|s| - 1]), s[|s| - 1])
  }

  /** The value that is sent: the complement of the running value. */
  function Final(c: bv32): u32 {
    (!c) as int
  }

  function Checksum(s: seq<byte>): u32 {
    Final(Update(START, s))
  }

  /** The loops of bc_crc32 and bc_file_crc32_update. */
  method UpdateLoop(c: bv32, s: seq<byte>) returns (crc: bv32)
    ensures crc == Update(c, s)
  {
    hide Bit, Xor, Word;
    crc := c;
    var i := 0;
    while i < |s|
      invariant 0 <= i <= |s| && crc == Update(c, s[..i])
    {
      assert s[..i + 1][..i] == s[..i];
      crc := Xor(crc, Word(s[i]));
      ghost var start := crc;
      var bit := 0;
      while bit < 8
        invariant 0 <= bit <= 8 && crc == Bits(start, bit)
      {
        crc := Bit(crc);
        bit := bit + 1;
      }
      i := i + 1;
    }
    assert s[..i] == s;
  }

  /** Updating piece by piece is updating once with all of it. */
  lemma {:induction false} UpdateConcat(c: bv32, a: seq<byte>, b: seq<byte>)
    ensures Update(c, a + b) == Update(Update(c, a), b)
    decreases |b|
  {
    hide ByteStep;
    if b == [] {
      assert a + b == a;
    } else {
      assert (a + b)[..|a + b| - 1] == a + b[..|b| - 1];
      UpdateConcat(c, a, b[..|b| - 1]);
    }
  }

  // ---- The step is a bijection on the 32-bit states ----

  function Unbit(d: bv32): bv32 {
    if d >> 31 == 1 then ((d ^ POLY) << 1) | 1 else d << 1
  }

  lemma BitUnbit(c: bv32)
    ensures Unbit(Bit(c)) == c
  {
  }

  lemma UnbitBit(d: bv32)
    ensures Bit(Unbit(d)) == d
  {
    hide Bit, Unbit;
    if d >> 31 == 1 {
      UnbitOdd(d);
      BitOdd(Unbit(d));
      XorTwice(d);
    } else {
      UnbitEven(d);
      BitEven(Unbit(d));
    }
  }

  lemma BitOdd(c: bv32)
    requires c & 1 == 1
    ensures Bit(c) == (c >> 1) ^ POLY
  {
  }

  lemma BitEven(c: bv32)
    requires c & 1 == 0
    ensures Bit(c) == c >> 1
  {
  }

  lemma XorTwice(d: bv32)
    ensures (d ^ POLY) ^ POLY == d
  {
  }

  lemma UnbitOdd(d: bv32)
    requires d >> 31 == 1
    ensures Unbit(d) >> 1 == d ^ POLY && Unbit(d) & 1 == 1
  {
    var x := d ^ POLY;
    assert x & 0x8000_0000 == 0;
    ShiftedBack(x);
  }

  lemma UnbitEven(d: bv32)
    requires d >> 31 != 1
    ensures Unbit(d) >> 1 == d && Unbit(d) & 1 == 0
  {
    assert d & 0x8000_0000 == 0;
    ShiftedBack(d);
  }

  lemma ShiftedBack(x: bv32)
    requires x & 0x8000_0000 == 0
    ensures (x << 1) >> 1 == x && ((x << 1) | 1) >> 1 == x
    ensures (x << 1) & 1 == 0 && ((x << 1) | 1) & 1 == 1
  {
  }

  lemma {:induction false} BitsInjective(a: bv32, b: bv32, n: nat)
    requires Bits(a, n) == Bits(b, n)
    ensures a == b
  {
    hide Bit, Unbit;
    if n > 0 {
      BitUnbit(Bits(a, n - 1));
      BitUnbit(Bits(b, n - 1));
      BitsInjective(a, b, n - 1);
    }
  }

  /** Two different states stay different whatever bytes follow. */
  lemma {:induction false} UpdateInjective(a: bv32, b: bv32, s: seq<byte>)
    requires Update(a, s) == Update(b, s)
    ensures a == b
    decreases |s|
  {
    hide Bits, Word, Xor;
    if s != [] {
      var init, w := s[..|s| - 1], Word(s[|s| - 1]);
      BitsInjective(Xor(Update(a, init), w), Xor(Update(b, init), w), 8);
      XorCancels(Update(a, init), Update(b, init), w);
      UpdateInjective(a, b, init);
    }
  }

  lemma XorCancels(a: bv32, b: bv32, w: bv32)
    requires Xor(a, w) == Xor(b, w)
    ensures a == b
  {
  }

  // ---- A changed window of up to four bytes ----

  function Twice(y: bv32): bv32 {
    y << 1
  }

  /** y moved k bits towards the top. */
  function Up(y: bv32, k: nat): bv32
    decreases k
  {
    if k == 0 then y else Up(Twice(y), k - 1)
  }

  /** The top k bits. */
  function High(k: nat): bv32 {
    if k == 0 then 0 else 0x8000_0000 | (High(k - 1) >> 1)
  }

  predicate Clear(y: bv32, mask: bv32) {
    y & mask == 0
  }

  lemma HighStep(y: bv32, k: nat)
    requires k > 0 && Clear(y, High(k))
    ensures Clear(y, 0x8000_0000) && Clear(Twice(y), High(k - 1))
  {
    HighUnfold(k);
    hide High, Clear, Twice;
    HighBit(y, High(k), High(k - 1));
  }

  lemma HighUnfold(k: nat)
    requires k > 0
    ensures High(k) == 0x8000_0000 | (High(k - 1) >> 1)
  {
  }

  lemma HighBit(y: bv32, m: bv32, h: bv32)
    requires m == 0x8000_0000 | (h >> 1) && Clear(y, m)
    ensures Clear(y, 0x8000_0000) && Clear(Twice(y), h)
  {
  }

  /** A bit that enters one turn early comes out unchanged one turn later. */
  lemma BitLinear(x: bv32, y: bv32)
    requires Clear(y, 0x8000_0000)
    ensures Bit(Xor(x, Twice(y))) == Xor(Bit(x), y)
  {
    hide Bit, Xor, Twice, Clear;
    ClearIs(y);
    XorTwiceIs(x, y);
    BitOfXor(x, y, Xor(x, Twice(y)), Bit(x));
  }

  lemma ClearIs(y: bv32)
    requires Clear(y, 0x8000_0000)
    ensures y & 0x8000_0000 == 0
  {
  }

  lemma XorTwiceIs(x: bv32, y: bv32)
    ensures Xor(x, Twice(y)) == x ^ (y << 1)
  {
  }

  lemma BitOfXor(x: bv32, y: bv32, z: bv32, b: bv32)
    requires y & 0x8000_0000 == 0 && z == x ^ (y << 1) && b == Bit(x)
    ensures Bit(z) == Xor(b, y)
  {
  }

  /** Bits that enter k turns early come out unchanged k turns later. */
  lemma {:induction false} BitsLinear(x: bv32, y: bv32, k: nat)
    requires Clear(y, High(k))
    ensures Bits(Xor(x, Up(y, k)), k) == Xor(Bits(x, k), y)
    decreases k
  {
    hide Bit, Xor, Clear, High, Twice;
    if k > 0 {
      HighStep(y, k);
      BitsLinear(x, Twice(y), k - 1);
      BitLinear(Bits(x, k - 1), y);
    }
  }

  lemma {:induction false} BitsAdd(c: bv32, m: nat, n: nat)
    ensures Bits(Bits(c, m), n) == Bits(c, m + n)
  {
    hide Bit;
    if n > 0 { BitsAdd(c, m, n - 1); }
  }

  /** Up to four bytes as the word they enter the register as. */
  function Packed(w: seq<byte>): bv32
    decreases |w|
  {
    if w == [] then 0 else Xor(Packed(w[..|w| - 1]), Up(Word(w[|w| - 1]), 8 * (|w| - 1)))
  }

  lemma HighBytes()
    ensures High(0) == 0 && High(8) == 0xff00_0000 && High(16) == 0xffff_0000 && High(24) == 0xffff_ff00
  {
    assert High(4) == 0xf000_0000;
    assert High(8) == 0xff00_0000;
    assert High(12) == 0xfff0_0000;
    assert High(16) == 0xffff_0000;
    assert High(20) == 0xffff_f000;
    assert High(24) == 0xffff_ff00;
  }

  function Twice4(y: bv32): bv32 {
    Twice(Twice(Twice(Twice(y))))
  }

  lemma UpByte(y: bv32, k: nat)
    ensures Up(y, k + 8) == Up(Twice4(Twice4(y)), k)
  {
    UpFour(y, k + 4);
    UpFour(Twice4(y), k);
  }

  lemma UpFour(y: bv32, k: nat)
    ensures Up(y, k + 4) == Up(Twice4(y), k)
  {
    hide Twice;
    assert Up(y, k + 4) == Up(Twice(y), k + 3);
    assert Up(Twice(y), k + 3) == Up(Twice(Twice(y)), k + 2);
    assert Up(Twice(Twice(y)), k + 2) == Up(Twice(Twice(Twice(y))), k + 1);
  }

  lemma WordSmall(b: byte)
    ensures Clear(Word(b), 0xffff_ff00) && Clear(Word(b), 0xffff_0000) && Clear(Word(b), 0xff00_0000)
      && Clear(Word(b), 0)
  {
  }

  lemma WordInjective(a: byte, b: byte)
    requires Word(a) == Word(b)
    ensures a == b
  {
    ByteWord.ByteBack(a);
    ByteWord.ByteBack(b);
    assert a as bv8 == b as bv8;
  }

  lemma {:induction false} WindowState(c: bv32, w: seq<byte>)
    requires |w| <= 4
    ensures Update(c, w) == Bits(Xor(c, Packed(w)), 8 * |w|)
    decreases |w|
  {
    hide Bits, Word, Up, High, Xor, Clear;
    if w == [] {
      NoBits(c);
    } else {
      var n := |w| - 1;
      var init, b, k := w[..n], Word(w[n]), 8 * n;
      WindowState(c, init);
      HighBytes();
      WordSmall(w[n]);
      BitsLinear(Xor(c, Packed(init)), b, k);
      XorAssoc(c, Packed(init), Up(b, k));
      BitsAdd(Xor(c, Packed(w)), k, 8);
    }
  }

  function Left8(y: bv32): bv32 { y << 8 }
  function Left16(y: bv32): bv32 { y << 16 }
  function Left24(y: bv32): bv32 { y << 24 }

  lemma ShiftEight(y: bv32)
    ensures Twice4(Twice4(y)) == Left8(y)
  {
  }

  lemma ShiftMore(y: bv32)
    ensures Left8(Left8(y)) == Left16(y) && Left8(Left16(y)) == Left24(y)
  {
  }

  lemma UpOctet(y: bv32, k: nat)
    ensures Up(y, k + 8) == Up(Left8(y), k)
  {
    hide Left8, Twice4;
    UpByte(y, k);
    ShiftEight(y);
  }

  lemma UpIs(y: bv32)
    ensures Up(y, 0) == y && Up(y, 8) == Left8(y) && Up(y, 16) == Left16(y) && Up(y, 24) == Left24(y)
  {
    UpZero(y);
    UpZero(Left8(y));
    UpZero(Left16(y));
    UpZero(Left24(y));
    hide Left8, Left16, Left24, Up;
    UpOctet(y, 0);
    UpOctet(y, 8);
    UpOctet(Left8(y), 0);
    UpOctet(y, 16);
    UpOctet(Left8(y), 8);
    UpOctet(Left16(y), 0);
    ShiftMore(y);
  }

  lemma UpZero(y: bv32)
    ensures Up(y, 0) == y
  {
  }

  function At(w: seq<byte>, i: nat): bv32 {
    if i < |w| then Word(w[i]) else 0
  }

  function Spelled(b0: bv32, b1: bv32, b2: bv32, b3: bv32): bv32 {
    Xor(Xor(Xor(b0, Left8(b1)), Left16(b2)), Left24(b3))
  }

  /** Which word the bytes are, spelled out. */
  lemma PackedIs(w: seq<byte>)
    requires |w| <= 4
    ensures Packed(w) == Spelled(At(w, 0), At(w, 1), At(w, 2), At(w, 3))
  {
    hide Word, Up, Xor, Left8, Left16, Left24;
    XorZero();
    forall i | 0 <= i < |w| ensures Packed(w[..i + 1]) == Xor(Packed(w[..i]), Up(Word(w[i]), 8 * i)) {
      assert w[..i + 1][..i] == w[..i];
    }
    forall i | 0 <= i < |w| { UpIs(Word(w[i])); }
    assert w[..0] == [];
    assert w[..|w|] == w;
    assert |w| > 0 ==> Packed(w[..1]) == At(w, 0);
    assert |w| > 1 ==> Packed(w[..2]) == Xor(At(w, 0), Left8(At(w, 1)));
    assert |w| > 2 ==> Packed(w[..3]) == Xor(Xor(At(w, 0), Left8(At(w, 1))), Left16(At(w, 2)));
  }

  lemma XorZero()
    ensures forall x {:trigger Xor(x, 0)} :: Xor(x, 0) == x
    ensures forall x {:trigger Xor(0, x)} :: Xor(0, x) == x
    ensures Left8(0) == 0 && Left16(0) == 0 && Left24(0) == 0
  {
  }

  lemma NoBits(c: bv32)
    ensures Bits(Xor(c, 0), 0) == c
  {
  }

  lemma XorAssoc(a: bv32, b: bv32, c: bv32)
    ensures Xor(Xor(a, b), c) == Xor(a, Xor(b, c))
  {
  }

  /** A word is what its four bytes are spelled as, so these can be read back off it. */
  lemma SpelledBytes(b0: bv32, b1: bv32, b2: bv32, b3: bv32)
    requires b0 & 0xffff_ff00 == 0 && b1 & 0xffff_ff00 == 0 && b2 & 0xffff_ff00 == 0 && b3 & 0xffff_ff00 == 0
    ensures Octet(Spelled(b0, b1, b2, b3), 0) == b0 && Octet(Spelled(b0, b1, b2, b3), 1) == b1
    ensures Octet(Spelled(b0, b1, b2, b3), 2) == b2 && Octet(Spelled(b0, b1, b2, b3), 3) == b3
  {
    var l1, l2, l3 := Left8(b1), Left16(b2), Left24(b3);
    assert l1 == b1 << 8 && l2 == b2 << 16 && l3 == b3 << 24;
    hide Left8, Left16, Left24, Octet, Xor;
    var x1 := Xor(b0, l1);
    var x2 := Xor(x1, l2);
    var x3 := Xor(x2, l3);
    XorIs(b0, l1);
    XorIs(x1, l2);
    XorIs(x2, l3);
    OctetsOf(b0, b1, b2, b3, l1, l2, l3, x1, x2, x3);
  }

  function Octet(x: bv32, i: nat): bv32 {
    if i == 0 then x & 0xff else if i == 1 then (x >> 8) & 0xff else if i == 2 then (x >> 16) & 0xff else x >> 24
  }

  lemma XorIs(a: bv32, b: bv32)
    ensures Xor(a, b) == a ^ b
  {
  }

  lemma OctetsOf(b0: bv32, b1: bv32, b2: bv32, b3: bv32, l1: bv32, l2: bv32, l3: bv32, x1: bv32, x2: bv32, x3: bv32)
    requires b0 & 0xffff_ff00 == 0 && b1 & 0xffff_ff00 == 0 && b2 & 0xffff_ff00 == 0 && b3 & 0xffff_ff00 == 0
    requires l1 == b1 << 8 && l2 == b2 << 16 && l3 == b3 << 24
    requires x1 == b0 ^ l1 && x2 == x1 ^ l2 && x3 == x2 ^ l3
    ensures Octet(x3, 0) == b0 && Octet(x3, 1) == b1 && Octet(x3, 2) == b2 && Octet(x3, 3) == b3
  {
  }

  lemma AtSmall(w: seq<byte>, i: nat)
    ensures At(w, i) & 0xffff_ff00 == 0
  {
  }

  lemma PackedInjective(v: seq<byte>, w: seq<byte>)
    requires |v| == |w| <= 4 && Packed(v) == Packed(w)
    ensures v == w
  {
    hide Spelled, Packed, At;
    SpelledBack(v);
    SpelledBack(w);
    forall i | 0 <= i < |v| ensures v[i] == w[i] {
      assert i == 0 || i == 1 || i == 2 || i == 3;
      assert At(v, i) == At(w, i);
      SameByte(v, w, i);
    }
  }

  lemma SameByte(v: seq<byte>, w: seq<byte>, i: nat)
    requires i < |v| == |w| && At(v, i) == At(w, i)
    ensures v[i] == w[i]
  {
    hide Word;
    WordInjective(v[i], w[i]);
  }

  lemma SpelledBack(w: seq<byte>)
    requires |w| <= 4
    ensures Octet(Packed(w), 0) == At(w, 0) && Octet(Packed(w), 1) == At(w, 1)
    ensures Octet(Packed(w), 2) == At(w, 2) && Octet(Packed(w), 3) == At(w, 3)
  {
    hide At, Spelled, Packed, Octet;
    PackedIs(w);
    AtSmall(w, 0);
    AtSmall(w, 1);
    AtSmall(w, 2);
    AtSmall(w, 3);
    SpelledBytes(At(w, 0), At(w, 1), At(w, 2), At(w, 3));
  }

  lemma ChecksumInjective(a: bv32, b: bv32)
    requires Final(a) == Final(b)
    ensures a == b
  {
    WordBack(!a);
    WordBack(!b);
    NotNot(a);
    NotNot(b);
  }

  lemma WordBack(x: bv32)
    ensures (x as int) as bv32 == x
  {
  }

  lemma NotNot(x: bv32)
    ensures !!x == x
  {
  }

  /** Data that differs only within four consecutive bytes, at whatever place and in data of
      whatever length, has a different checksum. */
  lemma BurstDetected(s: seq<byte>, t: seq<byte>, i: nat, j: nat)
    requires i <= j <= |s| == |t| && j - i <= 4
    requires s[..i] == t[..i] && s[j..] == t[j..] && s != t
    ensures Checksum(s) != Checksum(t)
  {
    hide Update, Bits, Xor, Packed;
    if Checksum(s) == Checksum(t) {
      ChecksumInjective(Update(START, s), Update(START, t));
      var c := Update(START, s[..i]);
      assert s == s[..i] + (s[i..j] + s[j..]) && t == t[..i] + (t[i..j] + t[j..]);
      UpdateConcat(START, s[..i], s[i..j] + s[j..]);
      UpdateConcat(START, t[..i], t[i..j] + t[j..]);
      UpdateConcat(c, s[i..j], s[j..]);
      UpdateConcat(c, t[i..j], t[j..]);
      UpdateInjective(Update(c, s[i..j]), Update(c, t[i..j]), s[j..]);
      WindowState(c, s[i..j]);
      WindowState(c, t[i..j]);
      BitsInjective(Xor(c, Packed(s[i..j])), Xor(c, Packed(t[i..j])), 8 * (j - i));
      XorCancelsLeft(c, Packed(s[i..j]), Packed(t[i..j]));
      PackedInjective(s[i..j], t[i..j]);
    }
  }

  lemma XorCancelsLeft(c: bv32, a: bv32, b: bv32)
    requires Xor(c, a) == Xor(c, b)
    ensures a == b
  {
  }
}
