/** normal_to_quat: the rotation that turns the splat's +Z axis toward a surface normal. */
module Orientation {
  import opened Numeric

  /** A quaternion in (x, y, z, w) order, the order normal_to_quat returns it in. */
  datatype Quat = Quat(x: real, y: real, z: real, w: real)

  const Identity: Quat := Quat(0.0, 0.0, 0.0, 1.0)

  /** Above this |n . +Z| the normal counts as parallel to +Z. */
  const ParallelTolerance: real := 0.999

  predicate NearlyVertical(n: Vec3) {
    Abs(Dot(n, Up)) > ParallelTolerance
  }

  function QuatNormSq(q: Quat): real {
    q.x * q.x + q.y * q.y + q.z * q.z + q.w * q.w
  }

  /** The rotation axis +Z x n is horizontal and perpendicular to n. */
  lemma CrossUpIsPerpendicular(n: Vec3, k: real, s: real)
    ensures var a := Scale(Scale(Cross(Up, n), k), s);
      a.z == 0.0 && Dot(a, n) == 0.0
  {
    var c := Cross(Up, n);
    assert c == Vec3(-n.y, n.x, 0.0);
    assert Dot(Scale(Scale(c, k), s), n) == k * s * (-n.y * n.x + n.x * n.y);
  }

  /** Axis-angle with the axis +Z x n (normalised) and the angle acos(n . +Z), unless the
      normal is nearly vertical, in which case no rotation at all. */
  function NormalToQuat(m: Maths, n: Vec3): (q: Quat)
    ensures NearlyVertical(n) ==> q == Identity
    ensures !NearlyVertical(n) ==> q.z == 0.0 && q.x * n.x + q.y * n.y == 0.0
    ensures !NearlyVertical(n) ==> q.w == m.cos(m.acos(n.z) / 2.0)
  {
    if NearlyVertical(n) then Identity
    else
      var axis := Normalized(m, Cross(Up, n));
      var angle := m.acos(Dot(Up, n));
      var half := angle / 2.0;
      var s := m.sin(half);
      var k :| axis == Scale(Cross(Up, n), k);
      CrossUpIsPerpendicular(n, k, s);
      assert Scale(axis, s) == Scale(Scale(Cross(Up, n), k), s);
      Quat(axis.x * s, axis.y * s, axis.z * s, m.cos(half))
  }

  /** math.acos is only ever called inside its domain [-1, 1]: the guard has already
      handled every normal whose z component lies outside (-0.999, 0.999). */
  lemma AcosArgumentInDomain(n: Vec3)
    ensures !NearlyVertical(n) ==> -1.0 < Dot(Up, n) < 1.0
  {
  }

  /** For a unit normal the result is a unit quaternion, given that sqrt is a square root
      and sin and cos satisfy the Pythagorean identity. */
  lemma UnitNormalGivesUnitQuat(m: Maths, n: Vec3)
    requires SqrtIsRoot(m) && Pythagorean(m)
    requires NormSq(n) == 1.0
    ensures QuatNormSq(NormalToQuat(m, n)) == 1.0
  {
    if !NearlyVertical(n) {
      var c := Cross(Up, n);
      TiltedUnitNormal(n);
      var axis := Normalized(m, c);
      assert NormSq(axis) == 1.0;
      var half := m.acos(Dot(Up, n)) / 2.0;
      var s := m.sin(half);
      var co := m.cos(half);
      TiltedQuat(m, n);
      UnitAxisQuat(axis, s, co);
      assert s * s + co * co == 1.0;
    }
  }

  /** Outside the guard the quaternion is the normalised axis scaled by the half angle's
      sine, with the half angle's cosine as w. */
  lemma TiltedQuat(m: Maths, n: Vec3)
    requires !NearlyVertical(n)
    ensures var axis := Normalized(m, Cross(Up, n));
      var half := m.acos(Dot(Up, n)) / 2.0;
      var s := m.sin(half);
      NormalToQuat(m, n) == Quat(axis.x * s, axis.y * s, axis.z * s, m.cos(half))
  {
  }

  /** A unit normal that the guard lets through has a non-zero horizontal part, so the
      rotation axis has a length to normalise by. */
  lemma TiltedUnitNormal(n: Vec3)
    requires NormSq(n) == 1.0 && !NearlyVertical(n)
    ensures 0.001 < NormSq(Cross(Up, n))
    ensures 0.0 < NormSq(Cross(Up, n))
  {
    assert Dot(n, Up) == n.z;
    assert -0.999 <= n.z <= 0.999;
    HorizontalPart(n.x, n.y, n.z);
    FlatAxis(n.x, n.y);
    assert Cross(Up, n) == Vec3(-n.y, n.x, 0.0);
  }

  lemma FlatAxis(x: real, y: real)
    requires 0.001 < x * x + y * y
    ensures 0.001 < NormSq(Vec3(-y, x, 0.0))
  {
    assert NormSq(Vec3(-y, x, 0.0)) == y * y + x * x;
  }

  /** 1 - 0.999 * 0.999 > 0.001: a unit vector that passes the guard keeps a horizontal part
      of squared length above 0.001. */
  lemma HorizontalPart(x: real, y: real, z: real)
    requires x * x + y * y + z * z == 1.0
    requires -0.999 <= z <= 0.999
    ensures 0.001 < x * x + y * y
  {
    if 0.0 <= z {
      assert z * z <= 0.999 * z;
    } else {
      assert z * z <= -0.999 * z;
    }
  }

  lemma UnitAxisQuat(a: Vec3, s: real, c: real)
    requires NormSq(a) == 1.0
    ensures QuatNormSq(Quat(a.x * s, a.y * s, a.z * s, c)) == s * s + c * c
  {
    assert QuatNormSq(Quat(a.x * s, a.y * s, a.z * s, c)) == NormSq(a) * (s * s) + c * c;
  }

  /** The guard reads n.z as a cosine, so it presumes a unit normal. A vertical normal that
      is shorter than 0.999 slips past it and yields a rotation with no axis part at all,
      whose length is |cos(acos(n.z) / 2)| rather than 1. */
  lemma ShortVerticalNormal(m: Maths, n: Vec3)
    requires n.x == 0.0 && n.y == 0.0 && Abs(n.z) <= ParallelTolerance
    ensures NormalToQuat(m, n) == Quat(0.0, 0.0, 0.0, m.cos(m.acos(n.z) / 2.0))
  {
    assert Cross(Up, n) == Zero;
    assert Normalized(m, Zero) == Zero;
  }
}
