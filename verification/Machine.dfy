/** Fixed-width integers and byte strings as the binding uses them. */
module Machine {

  const TWO_64: nat := 0x1_0000_0000_0000_0000
  const MAX_UINT64: nat := 0xFFFF_FFFF_FFFF_FFFF

  type uint64 = n: nat | n < TWO_64
  type byte = n: nat | n < 256

  datatype Option<+T> = None | Some(value: T)

  /** The uint64 that an unbounded integer is truncated to. */
  function Wrap(x: int): (r: uint64)
  {
    x % TWO_64
  }

  /** `a + b` on uint64. */
  function Add64(a: uint64, b: uint64): (r: uint64)
    ensures r == Wrap(a + b)
  {
    if a + b < TWO_64 then a + b else a + b - TWO_64
  }

  /** `a - b` on uint64. */
  function Sub64(a: uint64, b: uint64): (r: uint64)
    ensures r == Wrap(a - b)
  {
    if b <= a then a - b else a - b + TWO_64
  }

  lemma {:induction false} WrapAdd(x: int, y: int)
    ensures Wrap(Wrap(x) + y) == Wrap(x + y)
  {
    var q := x / TWO_64;
    assert x + y == (Wrap(x) + y) + q * TWO_64;
    ModShift(Wrap(x) + y, q);
  }

  lemma {:induction false} WrapSub(x: int, y: int)
    ensures Wrap(Wrap(x) - y) == Wrap(x - y)
  {
    WrapAdd(x, -y);
  }

  lemma {:induction false} ModShift(a: int, q: int)
    ensures Wrap(a + q * TWO_64) == Wrap(a)
  {
  }

  lemma {:induction false} WrapSmall(x: nat)
    requires x < TWO_64
    ensures Wrap(x) == x
  {
  }

  /** Truncation forgets exactly the multiples of 2^64. */
  lemma {:induction false} WrapZero(x: int)
    ensures Wrap(x) == 0 <==> exists q: int :: x == q * TWO_64
  {
    if Wrap(x) == 0 {
      assert x == (x / TWO_64) * TWO_64;
    }
    if q: int :| x == q * TWO_64 {
      ModShift(0, q);
    }
  }

  /** A float64 without its rounding, for values that are never minus infinity. */
  datatype Float = Num(value: real) | Infinite | NaN

  /** `x / d` for an `x` that is not negative: a quotient by zero is infinite or not a number. */
  function Div(x: real, d: real): Float
    requires x >= 0.0
  {
    if d != 0.0 then Num(x / d) else if x > 0.0 then Infinite else NaN
  }
}
