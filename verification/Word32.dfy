/** 32-bit unsigned words: wrapping arithmetic, the signed comparison of sequence
    numbers (compare section 3.2 of RFC 1982), and how wrapped words relate to the
    unbounded numbers they stand for. */
module Word32 {

  const MODULUS: int := 0x1_0000_0000
  const HALF: int := 0x8000_0000

  type byte = x: int | 0 <= x < 256
  type u16 = x: int | 0 <= x < 0x1_0000
  type u32 = x: int | 0 <= x < 0x1_0000_0000
  type i32 = x: int | -0x8000_0000 <= x < 0x8000_0000

  /** a + b in 32-bit unsigned arithmetic. */
  function Add(a: u32, b: u32): u32 {
    if a + b < MODULUS then a + b else a + b - MODULUS
  }

  /** a - b in 32-bit unsigned arithmetic. */
  function Sub(a: u32, b: u32): u32 {
    if b <= a then a - b else a - b + MODULUS
  }

  /** The cast of a 32-bit word to a signed 32-bit integer. */
  function Signed(x: u32): i32 {
    if x < HALF then x else x - MODULUS
  }

  /** _itimediff: the signed distance from `earlier` to `later`. */
  function TimeDiff(later: u32, earlier: u32): i32 {
    Signed(Sub(later, earlier))
  }

  /** The word a number of any size is stored as. */
  function Wrap(n: int): u32 {
    n % MODULUS
  }

  /** Wrapped subtraction of two unbounded numbers at most one lap apart gives their
      true distance. */
  lemma SubWrap(a: int, b: int)
    requires 0 <= a - b < MODULUS
    ensures Sub(Wrap(a), Wrap(b)) == a - b
  {
    assert a == MODULUS * (a / MODULUS) + Wrap(a);
    assert b == MODULUS * (b / MODULUS) + Wrap(b);
  }

  /** The signed comparison agrees with the unbounded numbers while these are less than
      half a lap apart. */
  lemma TimeDiffWrap(a: int, b: int)
    requires -HALF <= a - b < HALF
    ensures TimeDiff(Wrap(a), Wrap(b)) == a - b
  {
    if a >= b {
      SubWrap(a, b);
    } else {
      SubWrap(a + MODULUS, b);
      WrapLap(a);
    }
  }

  lemma WrapLap(a: int)
    ensures Wrap(a + MODULUS) == Wrap(a)
  {
  }

  lemma AddWrap(a: int, d: u32)
    ensures Add(Wrap(a), d) == Wrap(a + d)
  {
    assert a == MODULUS * (a / MODULUS) + Wrap(a);
    assert a + d == MODULUS * ((a + d) / MODULUS) + Wrap(a + d);
  }

  /** Two unbounded numbers less than one lap apart are equal when their words are. */
  lemma WrapInjective(a: int, b: int)
    requires -MODULUS < a - b < MODULUS
    requires Wrap(a) == Wrap(b)
    ensures a == b
  {
    assert a == MODULUS * (a / MODULUS) + Wrap(a);
    assert b == MODULUS * (b / MODULUS) + Wrap(b);
  }

  /** Distances from a common base compare two words that are both ahead of it. */
  lemma TimeDiffFromBase(a: u32, b: u32, base: u32)
    requires Sub(a, base) < HALF && Sub(b, base) < HALF
    ensures TimeDiff(a, b) == Sub(a, base) - Sub(b, base)
  {
  }

  /** Moving the base forward shortens every distance that reaches past it. */
  lemma SubShift(a: u32, base: u32, d: u32)
    requires d <= Sub(a, base)
    ensures Sub(a, Add(base, d)) == Sub(a, base) - d
  {
  }
}
