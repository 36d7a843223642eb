/** Real-number helpers shared by both animations, and trigonometry as an
    abstract parameter: the model never evaluates cos, sin or pi; every caller
    supplies them, and the identities the scripts rely on are collected in `Lawful`. */
module Numerics {

  /** cos and sin as total functions on the reals, with the constant pi. */
  datatype Trig = Trig(cos: real -> real, sin: real -> real, pi: real)

  /** The identities of the real cos and sin that the model relies on. */
  ghost predicate Lawful(t: Trig) {
    && 3.0 < t.pi < 4.0
    && t.cos(0.0) == 1.0
    && t.sin(0.0) == 0.0
    && (forall a :: -1.0 <= t.cos(a) <= 1.0)
    && (forall a :: -1.0 <= t.sin(a) <= 1.0)
    && (forall a :: t.cos(a) * t.cos(a) + t.sin(a) * t.sin(a) == 1.0)
    && (forall a, b :: b == a + t.pi ==> t.cos(b) == -t.cos(a))
  }

  function Sq(x: real): (r: real)
    ensures r >= 0.0
  {
    x * x
  }

  function Abs(x: real): (r: real)
    ensures r >= 0.0 && (r == x || r == -x)
  {
    if x < 0.0 then -x else x
  }

  function Min(a: real, b: real): (r: real)
    ensures r <= a && r <= b && (r == a || r == b)
  {
    if a <= b then a else b
  }

  function Max(a: real, b: real): (r: real)
    ensures r >= a && r >= b && (r == a || r == b)
  {
    if a <= b then b else a
  }

  lemma MulNonneg(a: real, b: real)
    requires 0.0 <= a && 0.0 <= b
    ensures 0.0 <= a * b
  {
  }

  lemma MulPos(a: real, b: real)
    requires 0.0 < a && 0.0 < b
    ensures 0.0 < a * b
  {
  }

  /** A fraction `p` in [0, 1] of a non-negative `a` lies in [0, a]. */
  lemma FractionOf(a: real, p: real)
    requires 0.0 <= a && 0.0 <= p <= 1.0
    ensures 0.0 <= a * p <= a
  {
    assert a * (1.0 - p) >= 0.0;
  }

  lemma AbsSquare(x: real, m: real)
    requires Abs(x) <= m
    ensures Sq(x) <= Sq(m)
  {
    var a := Abs(x);
    assert Sq(x) == a * a;
    MulNonneg(a, m - a);
    MulNonneg(m, m - a);
  }

  /** `a + s * (b - a)` for s in [0, 1] lies between a and b. */
  lemma LerpBetween(a: real, b: real, s: real)
    requires 0.0 <= s <= 1.0
    ensures Min(a, b) <= a + s * (b - a) <= Max(a, b)
  {
    if a <= b {
      assert Min(a, b) == a && Max(a, b) == b;
      FractionOf(b - a, s);
      assert 0.0 <= (b - a) * s <= b - a;
      assert s * (b - a) == (b - a) * s;
    } else {
      assert Min(a, b) == b && Max(a, b) == a;
      FractionOf(a - b, s);
      assert 0.0 <= (a - b) * s <= a - b;
      assert s * (b - a) == -((a - b) * s);
    }
  }
}
