/** Integer operations with the semantics of Rust's `i32` operators that the
    block arithmetic relies on. Dafny's own `/` and `%` are Euclidean; Rust's
    truncate toward zero, so they are written out here. Overflow is not
    modelled: the integers are unbounded. */
module RustInt {

  function Abs(v: int): nat {
    if v < 0 then -v else v
  }

  /** Rust's `a / b` for a positive divisor: the quotient rounded toward zero. */
  function Quot(a: int, b: int): (q: int)
    requires b > 0
    ensures a == q * b + Rem(a, b)
  {
    if a >= 0 then
      assert a == (a / b) * b + a % b;
      a / b
    else
      var n := -a;
      assert n == (n / b) * b + n % b;
      assert (-(n / b)) * b == -((n / b) * b);
      -(n / b)
  }

  /** Rust's `a % b` for a positive divisor: the remainder takes the sign of
      the dividend. */
  function Rem(a: int, b: int): (r: int)
    requires b > 0
    ensures a >= 0 ==> 0 <= r < b
    ensures a < 0 ==> -b < r <= 0
  {
    if a >= 0 then a % b else -((-a) % b)
  }
}
