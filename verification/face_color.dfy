/** How one face's colour is chosen: averaged loop colours, else the first Principled BSDF's
    base colour, else white. */
module FaceColor {
  import opened Wrappers
  import opened Scene

  function Rgb(c: RGBA): RGB {
    RGB(c.r, c.g, c.b)
  }

  /** Channel-wise sum of the RGB parts of a list of colours. */
  function SumRgb(cs: seq<RGBA>): RGB {
    if |cs| == 0 then RGB(0.0, 0.0, 0.0)
    else
      var rest := SumRgb(cs[1..]);
      RGB(cs[0].r + rest.r, cs[0].g + rest.g, cs[0].b + rest.b)
  }

  /** The RGB parts add up over any split of the list, and one colour sums to its RGB. */
  lemma {:induction false} SumRgbAppend(a: seq<RGBA>, b: seq<RGBA>)
    ensures var sa, sb := SumRgb(a), SumRgb(b);
      SumRgb(a + b) == RGB(sa.r + sb.r, sa.g + sb.g, sa.b + sb.b)
    ensures forall c :: SumRgb([c]) == Rgb(c)
  {
    if |a| > 0 {
      assert (a + b)[0] == a[0] && (a + b)[1..] == a[1..] + b;
      SumRgbAppend(a[1..], b);
    } else {
      assert a + b == b;
    }
    forall c ensures SumRgb([c]) == Rgb(c) {
      assert [c][1..] == [];
    }
  }

  /** The arithmetic mean of each RGB channel; alpha is dropped. */
  function Mean(cs: seq<RGBA>): (c: RGB)
    requires |cs| > 0
    ensures var s, n := SumRgb(cs), |cs| as real;
      n * c.r == s.r && n * c.g == s.g && n * c.b == s.b
  {
    var s := SumRgb(cs);
    var n := |cs| as real;
    RGB(s.r / n, s.g / n, s.b / n)
  }

  lemma {:induction false} SumOfUniform(cs: seq<RGBA>, c: RGB)
    requires forall i :: 0 <= i < |cs| ==> Rgb(cs[i]) == c
    ensures SumRgb(cs) == RGB(|cs| as real * c.r, |cs| as real * c.g, |cs| as real * c.b)
  {
    if |cs| > 0 {
      assert Rgb(cs[0]) == c;
      SumOfUniform(cs[1..], c);
    }
  }

  /** Loops that all carry the same colour average to exactly that colour. */
  lemma MeanOfUniform(cs: seq<RGBA>, c: RGB)
    requires |cs| > 0
    requires forall i :: 0 <= i < |cs| ==> Rgb(cs[i]) == c
    ensures Mean(cs) == c
  {
    SumOfUniform(cs, c);
  }

  ghost predicate InUnitCube(c: RGB) {
    0.0 <= c.r <= 1.0 && 0.0 <= c.g <= 1.0 && 0.0 <= c.b <= 1.0
  }

  lemma {:induction false} SumBounds(cs: seq<RGBA>)
    requires forall i :: 0 <= i < |cs| ==> InUnitCube(Rgb(cs[i]))
    ensures var s := SumRgb(cs); var n := |cs| as real;
      0.0 <= s.r <= n && 0.0 <= s.g <= n && 0.0 <= s.b <= n
  {
    if |cs| > 0 {
      assert InUnitCube(Rgb(cs[0]));
      assert forall i :: 0 <= i < |cs[1..]| ==> cs[1..][i] == cs[i + 1];
      SumBounds(cs[1..]);
    }
  }

  /** Loop colours in [0, 1] average to a colour in [0, 1]. */
  lemma MeanBounds(cs: seq<RGBA>)
    requires |cs| > 0
    requires forall i :: 0 <= i < |cs| ==> InUnitCube(Rgb(cs[i]))
    ensures InUnitCube(Mean(cs))
  {
    SumBounds(cs);
    var n := |cs| as real;
    var s := SumRgb(cs);
    UnitQuotient(s.r, n);
    UnitQuotient(s.g, n);
    UnitQuotient(s.b, n);
  }

  lemma UnitQuotient(s: real, n: real)
    requires 0.0 < n && 0.0 <= s <= n
    ensures 0.0 <= s / n <= 1.0
  {
    var q := s / n;
    assert q * n == s;
    assert (1.0 - q) * n == n - s;
  }

  lemma {:induction false} SumIgnoresAlpha(cs: seq<RGBA>, ds: seq<RGBA>)
    requires |cs| == |ds|
    requires forall i :: 0 <= i < |cs| ==> Rgb(cs[i]) == Rgb(ds[i])
    ensures SumRgb(cs) == SumRgb(ds)
  {
    if |cs| > 0 {
      assert Rgb(cs[0]) == Rgb(ds[0]);
      SumIgnoresAlpha(cs[1..], ds[1..]);
    }
  }

  /** Alpha plays no part: loops that differ only in alpha average to the same colour. */
  lemma MeanIgnoresAlpha(cs: seq<RGBA>, ds: seq<RGBA>)
    requires |cs| == |ds| > 0
    requires forall i :: 0 <= i < |cs| ==> Rgb(cs[i]) == Rgb(ds[i])
    ensures Mean(cs) == Mean(ds)
  {
    SumIgnoresAlpha(cs, ds);
  }

  predicate IsPrincipled(n: Node) {
    n.nodeType == PrincipledType
  }

  /** Index i holds the first Principled BSDF node of the list. */
  ghost predicate IsFirstPrincipled(nodes: seq<Node>, i: int) {
    && 0 <= i < |nodes|
    && IsPrincipled(nodes[i])
    && forall j :: 0 <= j < i ==> !IsPrincipled(nodes[j])
  }

  /** The base colour of the first Principled BSDF node, scanning the node list in order. */
  function FirstPrincipled(nodes: seq<Node>): (r: Option<RGB>)
    ensures r.None? <==> forall i :: 0 <= i < |nodes| ==> !IsPrincipled(nodes[i])
    ensures r.Some? ==> exists i :: IsFirstPrincipled(nodes, i) && r.value == Rgb(nodes[i].baseColor)
  {
    if |nodes| == 0 then None
    else if IsPrincipled(nodes[0]) then
      assert IsFirstPrincipled(nodes, 0);
      Some(Rgb(nodes[0].baseColor))
    else
      var r := FirstPrincipled(nodes[1..]);
      assert forall i :: 1 <= i < |nodes| ==> nodes[i] == nodes[1..][i - 1];
      assert r.Some? ==> exists i :: IsFirstPrincipled(nodes, i) && r.value == Rgb(nodes[i].baseColor) by {
        if r.Some? {
          var k :| IsFirstPrincipled(nodes[1..], k) && r.value == Rgb(nodes[1..][k].baseColor);
          assert IsFirstPrincipled(nodes, k + 1);
        }
      }
      r
  }

  /** The first branch of the resolution: the option is on and the mesh has a colour layer. */
  predicate UsesVertexColors(st: Settings, mesh: Mesh) {
    st.useVertexColors && mesh.hasVertexColors
  }

  /** The second branch: the object has an active material that uses nodes. */
  predicate HasNodeMaterial(mesh: Mesh) {
    mesh.material.Some? && mesh.material.value.useNodes
  }

  /** get_face_color. Averaging over a face with no loops divides by zero. */
  function ResolveColor(st: Settings, mesh: Mesh, face: Face): (r: Result<RGB, Error>)
    ensures r.Failure? <==> UsesVertexColors(st, mesh) && |face.loopColors| == 0
    ensures r.Failure? ==> r.error == ZeroDivision
    ensures UsesVertexColors(st, mesh) && r.Success? ==> r.value == Mean(face.loopColors)
    ensures !UsesVertexColors(st, mesh) && HasNodeMaterial(mesh) ==>
              forall i :: IsFirstPrincipled(mesh.material.value.nodes, i) ==>
                r == Success(Rgb(mesh.material.value.nodes[i].baseColor))
    ensures !UsesVertexColors(st, mesh) && !HasNodeMaterial(mesh) ==> r == Success(White)
    ensures !UsesVertexColors(st, mesh) && HasNodeMaterial(mesh)
            && (forall i :: 0 <= i < |mesh.material.value.nodes| ==> !IsPrincipled(mesh.material.value.nodes[i]))
            ==> r == Success(White)
  {
    if UsesVertexColors(st, mesh) then
      if |face.loopColors| == 0 then Failure(ZeroDivision) else Success(Mean(face.loopColors))
    else if HasNodeMaterial(mesh) then
      match FirstPrincipled(mesh.material.value.nodes)
      case Some(c) => Success(c)
      case None => Success(White)
    else
      Success(White)
  }
}
