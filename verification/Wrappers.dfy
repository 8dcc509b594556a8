/** Small types, numbers and functions that several modules share. */
module Wrappers {

  /** Sizes, ticks and random words are 32 bits wide. */
  const WORD: nat := 0x1_0000_0000
  const SIZE_MAX: nat := WORD - 1
  const SSIZE_MAX: nat := 0x7fff_ffff

  type U32 = n: nat | n < WORD

  /** What is left of a number in 32 bits. */
  function Mod32(n: nat): (x: U32)
    ensures n < WORD ==> x == n
  {
    n % WORD
  }

  /** A 32-bit word read as a signed number. */
  function Signed(x: U32): (n: int) { if x > SSIZE_MAX then x - WORD else x }

  lemma SignedBack(x: U32)
    ensures Signed(x) % WORD == x && (Signed(x) == -1 ==> x == SIZE_MAX)
  {
  }

  datatype Option<T> = None | Some(value: T)

  function One(b: bool): (n: nat) { if b then 1 else 0 }

  function Min(a: int, b: int): (m: int) { if a <= b then a else b }

  lemma MulBound(d: int, x: nat)
    requires x > 0
    ensures (d >= 1 ==> d * x >= x) && (d <= -1 ==> d * x <= -(x as int))
  {
  }

  lemma DivUnique(q: int, r: nat, x: nat)
    requires r < x
    ensures (q * x + r) % x == r && (q * x + r) / x == q
  {
    var a := q * x + r;
    assert a == (a / x) * x + a % x;
    assert (a / x - q) * x == r - a % x;
    MulBound(a / x - q, x);
  }
}
