/**
  C++ numeric conversions that the application relies on, written out over
  Dafny's unbounded integers and exact reals: the truncating float-to-int
  cast and the truncating integer division and remainder.
 */
module CNumeric {

  /** `(int)x` for a finite floating-point value: rounds toward zero. */
  function Trunc(x: real): (r: int)
    ensures 0.0 <= x ==> 0 <= r && r as real <= x < r as real + 1.0
    ensures x < 0.0 ==> r <= 0 && r as real - 1.0 < x <= r as real
  {
    if x >= 0.0 then x.Floor else -((-x).Floor)
  }

  /** The C++ quotient `a / b` on integers, which truncates toward zero. */
  function CDiv(a: int, b: int): (q: int)
    requires b != 0
    ensures a >= 0 && b > 0 ==> q == a / b
    ensures (a >= 0) == (b > 0) ==> q >= 0
    ensures (a >= 0) != (b > 0) ==> q <= 0
    ensures AbsInt(q * b) <= AbsInt(a) < AbsInt(q * b) + AbsInt(b)
  {
    var q := if (a < 0) == (b < 0) then AbsInt(a) / AbsInt(b) else -(AbsInt(a) / AbsInt(b));
    TruncatedQuotient(a, b, q);
    TruncatedBounds(a, b, q);
    q
  }

  /** The truncated quotient times the divisor is the dividend's sign times the largest multiple of the divisor not above its magnitude. */
  lemma TruncatedQuotient(a: int, b: int, q: int)
    requires b != 0
    requires q == if (a < 0) == (b < 0) then AbsInt(a) / AbsInt(b) else -(AbsInt(a) / AbsInt(b))
    ensures (a >= 0) == (b > 0) ==> q >= 0
    ensures (a >= 0) != (b > 0) ==> q <= 0
    ensures a >= 0 && b > 0 ==> q == a / b
    ensures q * b == if a < 0 then -((AbsInt(a) / AbsInt(b)) * AbsInt(b)) else (AbsInt(a) / AbsInt(b)) * AbsInt(b)
  {
    var x: int, y: int := AbsInt(a), AbsInt(b);
    var m: int := x / y;
    FloorDivBounds(x, y);
    NegatedProducts(m, y);
    if a >= 0 && b > 0 {
      assert x == a && y == b;
    }
  }

  /** The magnitude of the truncated quotient times the divisor lies within one divisor below the dividend's. */
  lemma TruncatedBounds(a: int, b: int, q: int)
    requires b != 0
    requires q == if (a < 0) == (b < 0) then AbsInt(a) / AbsInt(b) else -(AbsInt(a) / AbsInt(b))
    ensures AbsInt(q * b) <= AbsInt(a) < AbsInt(q * b) + AbsInt(b)
  {
    var x: int, y: int := AbsInt(a), AbsInt(b);
    var m: int := x / y;
    TruncatedQuotient(a, b, q);
    FloorDivBounds(x, y);
    var p := m * y;
    assert p >= 0;
    assert q * b == p || q * b == -p;
    assert AbsInt(q * b) == p;
  }

  /** Euclidean division of naturals brackets the dividend between consecutive multiples. */
  lemma FloorDivBounds(x: nat, y: nat)
    requires y > 0
    ensures x / y >= 0
    ensures (x / y) * y <= x < (x / y) * y + y
    ensures (x / y) * y + x % y == x
  {
  }

  lemma NegatedProducts(m: int, y: int)
    ensures (-m) * y == -(m * y) && m * (-y) == -(m * y) && (-m) * (-y) == m * y
  {
  }

  /** The C++ remainder `a % b`: the sign follows the dividend. */
  function CRem(a: int, b: int): (r: int)
    requires b != 0
    ensures a >= 0 && b > 0 ==> r == a % b
    ensures a >= 0 ==> 0 <= r
    ensures a < 0 ==> r <= 0
    ensures CDiv(a, b) * b + r == a
  {
    var m := AbsInt(a) % AbsInt(b);
    FloorDivBounds(AbsInt(a), AbsInt(b));
    TruncatedQuotient(a, b, CDiv(a, b));
    if a < 0 then -m else m
  }

  /** `std::round`: to the nearest integer, halves away from zero. */
  function Round(x: real): (r: int)
    ensures -0.5 <= x - r as real <= 0.5
    ensures x >= 0.0 ==> x - r as real < 0.5
    ensures x < 0.0 ==> -0.5 < x - r as real
  {
    if x >= 0.0 then (x + 0.5).Floor else -((-x + 0.5).Floor)
  }

  function Max(a: real, b: real): real {
    if a < b then b else a
  }

  function AbsInt(x: int): nat {
    if x < 0 then -x else x
  }

  function Abs(x: real): real {
    if x < 0.0 then -x else x
  }
}
