/** Fixed-width integers as the release build of the node computes with them: `+` and `*` wrap,
    the `saturating_*` methods clamp.  A value of a width type is always in range, so every
    narrowing has to be written out. */
module Machine {
  datatype Option<+T> = None | Some(value: T) {
    function GetOr(default: T): T {
      match this
      case Some(v) => v
      case None => default
    }
  }

  datatype Result<+T, +E> = Ok(value: T) | Err(error: E) {
    predicate IsFailure() {
      Err?
    }

    function PropagateFailure<U>(): Result<U, E>
      requires Err?
    {
      Err(error)
    }

    function Extract(): T
      requires Ok?
    {
      value
    }
  }

  const TWO_64: int := 0x1_0000_0000_0000_0000
  const TWO_128: int := 0x1_0000_0000_0000_0000_0000_0000_0000_0000
  const TWO_256: int :=
    0x1_0000_0000_0000_0000_0000_0000_0000_0000_0000_0000_0000_0000_0000_0000_0000_0000

  type U64 = n: int | 0 <= n < TWO_64
  type U128 = n: int | 0 <= n < TWO_128
  type U256 = n: int | 0 <= n < TWO_256
  type I64 = n: int | -0x8000_0000_0000_0000 <= n < 0x8000_0000_0000_0000

  function WrapU64(n: int): (r: U64)
    ensures 0 <= n < TWO_64 ==> r == n
    ensures n >= 0 ==> r <= n
    ensures TWO_64 <= n < 2 * TWO_64 ==> r == n - TWO_64
  {
    n % TWO_64
  }

  function WrapU256(n: int): (r: U256)
    ensures 0 <= n < TWO_256 ==> r == n
  {
    n % TWO_256
  }

  function SaturatingSub(a: nat, b: nat): (r: nat)
    ensures b <= a ==> r + b == a
    ensures r <= a
  {
    if b <= a then a - b else 0
  }

  function SaturatingAddU128(a: U128, b: U128): (r: U128)
    ensures a + b < TWO_128 ==> r == a + b
  {
    if a + b < TWO_128 then a + b else TWO_128 - 1
  }

  function CheckedMulU128(a: U128, b: U128): Option<U128> {
    Products(a, b);
    if a * b < TWO_128 then Some(a * b) else None
  }

  function SaturatingMulU128(a: U128, b: U128): U128 {
    Products(a, b);
    if a * b < TWO_128 then a * b else TWO_128 - 1
  }

  function WrappingMulU128(a: U128, b: U128): U128 {
    a * b % TWO_128
  }

  function Min(a: int, b: int): int {
    if a <= b then a else b
  }

  lemma Products(a: nat, b: nat)
    ensures 0 <= a * b
  {
  }

  // A product only grows with its factors.
  lemma ProductLe(a: nat, b: nat, c: nat, d: nat)
    requires a <= c && b <= d
    ensures 0 <= a * b <= c * d
  {
    assert a * b <= a * d;
    assert a * d <= c * d;
  }

  lemma MulAssoc(a: int, b: int, c: int)
    ensures (a * b) * c == a * (b * c)
  {
  }

  // Two wrapped additions in a row wrap like one.
  lemma WrapAddU64(a: int, b: int)
    ensures WrapU64(WrapU64(a) + b) == WrapU64(a + b)
  {
  }

  lemma WrapAddU256(a: int, b: int)
    ensures WrapU256(WrapU256(a) + b) == WrapU256(a + b)
  {
  }
}
