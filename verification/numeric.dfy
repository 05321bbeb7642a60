/** Real-valued vector arithmetic, Python's integer truncation and float remainder, and the
    transcendental functions the exporter calls, which are left uninterpreted. */
module Numeric {

  datatype Vec3 = Vec3(x: real, y: real, z: real)

  const Zero: Vec3 := Vec3(0.0, 0.0, 0.0)

  /** The canonical splat axis, +Z: the fallback normal and the reference of the orientation. */
  const Up: Vec3 := Vec3(0.0, 0.0, 1.0)

  function Add(a: Vec3, b: Vec3): Vec3 {
    Vec3(a.x + b.x, a.y + b.y, a.z + b.z)
  }

  function Sub(a: Vec3, b: Vec3): Vec3 {
    Vec3(a.x - b.x, a.y - b.y, a.z - b.z)
  }

  function Scale(a: Vec3, k: real): Vec3 {
    Vec3(a.x * k, a.y * k, a.z * k)
  }

  function Dot(a: Vec3, b: Vec3): real {
    a.x * b.x + a.y * b.y + a.z * b.z
  }

  function Cross(a: Vec3, b: Vec3): Vec3 {
    Vec3(a.y * b.z - a.z * b.y, a.z * b.x - a.x * b.z, a.x * b.y - a.y * b.x)
  }

  function NormSq(a: Vec3): real {
    Dot(a, a)
  }

  function Abs(x: real): real {
    if x < 0.0 then -x else x
  }

  function Max(a: int, b: int): int {
    if a < b then b else a
  }

  /** Python's `int()` applied to a float: truncation toward zero. */
  function Trunc(x: real): (r: int)
    ensures 0.0 <= x ==> 0 <= r && r as real <= x < r as real + 1.0
    ensures x < 0.0 ==> r <= 0 && x <= r as real < x + 1.0
  {
    if 0.0 <= x then x.Floor else -((-x).Floor)
  }

  /** Truncation is odd, which is what tells it apart from flooring. */
  lemma TruncIsOdd(x: real)
    ensures Trunc(-x) == -Trunc(x)
  {
  }

  /** Python's `x % 1.0`: the remainder of a floored division, always in [0, 1). */
  function Frac(x: real): (r: real)
    ensures 0.0 <= r < 1.0
    ensures (x - r).Floor as real == x - r
  {
    x - (x.Floor as real)
  }

  /** The transcendental functions the exporter calls (math.sqrt, math.log, math.acos,
      math.sin, math.cos), plus the exponential, as used by the logistic function 1 / (1 + exp(-p)).
      They are parameters: nothing is known of them unless a lemma asks for it. */
  datatype Maths = Maths(
    sqrt: real -> real,
    log: real -> real,
    exp: real -> real,
    acos: real -> real,
    sin: real -> real,
    cos: real -> real)

  ghost predicate SqrtIsRoot(m: Maths) {
    forall x :: 0.0 <= x ==> 0.0 <= m.sqrt(x) && m.sqrt(x) * m.sqrt(x) == x
  }

  ghost predicate ExpUndoesLog(m: Maths) {
    forall x :: 0.0 < x ==> m.exp(m.log(x)) == x
  }

  ghost predicate Pythagorean(m: Maths) {
    forall t :: m.sin(t) * m.sin(t) + m.cos(t) * m.cos(t) == 1.0
  }

  lemma ScaleNormSq(v: Vec3, k: real)
    ensures NormSq(Scale(v, k)) == k * k * NormSq(v)
  {
  }

  /** mathutils' `Vector.normalized()`: the vector scaled to unit length, or the zero vector
      when it has no length. */
  function Normalized(m: Maths, v: Vec3): (u: Vec3)
    ensures SqrtIsRoot(m) && 0.0 < NormSq(v) ==> NormSq(u) == 1.0
    ensures exists k :: u == Scale(v, k)
    ensures SqrtIsRoot(m) ==> exists k :: 0.0 <= k && u == Scale(v, k)
  {
    var len := m.sqrt(NormSq(v));
    if 0.0 < NormSq(v) && len != 0.0 then
      ScaleNormSq(v, 1.0 / len);
      Scale(v, 1.0 / len)
    else
      assert Zero == Scale(v, 0.0);
      Zero
  }
}
