/** The few pieces of UnityEngine.Mathf the core relies on, over exact reals. */
module Mathf {

  /** A point or direction in space; only carried around, never measured. */
  datatype Vector3 = Vector3(x: real, y: real, z: real)

  function Scale(v: Vector3, k: real): Vector3 {
    Vector3(v.x * k, v.y * k, v.z * k)
  }

  /** Scaling by p and then by q, where p * q == 1, gives back the scaled number. */
  lemma UndoScale(x: real, p: real, q: real)
    requires p * q == 1.0
    ensures x * p * q == x
  {
    assert x * p * q == x * (p * q);
  }

  /** The same for a vector, component by component. */
  lemma UndoScaleVector(v: Vector3, p: real, q: real)
    requires p * q == 1.0
    ensures Scale(Scale(v, p), q) == v
  {
    UndoScale(v.x, p, q);
    UndoScale(v.y, p, q);
    UndoScale(v.z, p, q);
  }

  function Abs(x: real): (r: real)
    ensures r >= 0.0
    ensures r == x || r == -x
  {
    if x < 0.0 then -x else x
  }

  function Min(a: real, b: real): (r: real)
    ensures r <= a && r <= b
    ensures r == a || r == b
  {
    if a <= b then a else b
  }

  function Max(a: real, b: real): (r: real)
    ensures r >= a && r >= b
    ensures r == a || r == b
  {
    if a >= b then a else b
  }

  /** Mathf.Clamp01. */
  function Clamp01(t: real): (r: real)
    ensures 0.0 <= r <= 1.0
    ensures 0.0 <= t <= 1.0 ==> r == t
    ensures t <= 0.0 ==> r == 0.0
    ensures t >= 1.0 ==> r == 1.0
  {
    if t < 0.0 then 0.0 else if t > 1.0 then 1.0 else t
  }

  /** Mathf.Lerp: the interpolation parameter is clamped to [0, 1], so the result always
      lies between the two end points. */
  function Lerp(a: real, b: real, t: real): (r: real)
    ensures t <= 0.0 ==> r == a
    ensures t >= 1.0 ==> r == b
    ensures a <= b ==> a <= r <= b
    ensures b <= a ==> b <= r <= a
  {
    var c, d := Clamp01(t), b - a;
    LerpBetween(a, d, c);
    a + d * c
  }

  lemma LerpBetween(a: real, d: real, c: real)
    requires 0.0 <= c <= 1.0
    ensures d >= 0.0 ==> a <= a + d * c <= a + d
    ensures d <= 0.0 ==> a + d <= a + d * c <= a
  {
    ProductBounds(d, c);
  }

  lemma ProductBounds(d: real, c: real)
    requires 0.0 <= c <= 1.0
    ensures d >= 0.0 ==> 0.0 <= d * c <= d
    ensures d <= 0.0 ==> d <= d * c <= 0.0
  {
    MulNonNegative(if d >= 0.0 then d else -d, c);
    MulNonNegative(if d >= 0.0 then d else -d, 1.0 - c);
  }

  /** One more factor on both sides of a product equation. */
  lemma MulStep(acc: real, x: real, p: real, v: real)
    requires acc == x * p
    ensures acc * v == x * (p * v)
  {
  }

  lemma MulNonNegative(x: real, y: real)
    requires x >= 0.0 && y >= 0.0
    ensures x * y >= 0.0
  {
  }

  lemma LerpMonotone(a: real, b: real, s: real, t: real)
    requires a <= b
    requires s <= t
    ensures Lerp(a, b, s) <= Lerp(a, b, t)
  {
    var cs, ct, d := Clamp01(s), Clamp01(t), b - a;
    MulNonNegative(d, ct - cs);
    assert d * ct - d * cs == d * (ct - cs);
  }

  /** The sum of a sequence of reals, added left to right. */
  function Sum(xs: seq<real>): real
    decreases |xs|
  {
    if |xs| == 0 then 0.0 else Sum(xs[..|xs| - 1]) + xs[|xs| - 1]
  }

  /** The product of a sequence of reals, multiplied left to right. */
  function Product(xs: seq<real>): real
    decreases |xs|
  {
    if |xs| == 0 then 1.0 else Product(xs[..|xs| - 1]) * xs[|xs| - 1]
  }

  lemma ProductSnoc(xs: seq<real>, v: real)
    ensures Product(xs + [v]) == Product(xs) * v
  {
    assert (xs + [v])[..|xs|] == xs;
  }

  /** Mathf.CeilToInt: the least integer not below x. */
  function CeilToInt(x: real): (r: int)
    ensures r as real >= x
    ensures (r - 1) as real < x
  {
    -((-x).Floor)
  }

  /** The outcome of an IEEE single-precision division, as far as the core can observe it:
      a finite quotient, or the infinity or NaN a zero divisor produces. */
  datatype Quotient = Finite(value: real) | PositiveInfinity | NegativeInfinity | NotANumber

  function Divide(n: real, d: real): (q: Quotient)
    ensures q.Finite? <==> d != 0.0
    ensures q.Finite? ==> q.value * d == n
    ensures q == NotANumber <==> d == 0.0 && n == 0.0
  {
    if d != 0.0 then Finite(n / d)
    else if n > 0.0 then PositiveInfinity
    else if n < 0.0 then NegativeInfinity
    else NotANumber
  }
}
