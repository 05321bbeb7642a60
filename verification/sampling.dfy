/** sample_mesh: spreading a mesh's sample budget over its faces by area and placing each
    sample at deterministic barycentric weights inside the face's first triangle. */
module Sampling {
  import opened Wrappers
  import opened Numeric
  import opened Scene
  import opened FaceColor

  /** One splat before packing: where it sits, its colour, the normal it faces, its size. */
  datatype Sample = Sample(position: Vec3, color: RGB, normal: Vec3, scale: real)

  // ---------------------------------------------------------------------------
  // Allocation

  /** total_area: the sum of the face areas. */
  function TotalArea(faces: seq<Face>): real {
    if |faces| == 0 then 0.0 else faces[0].area + TotalArea(faces[1..])
  }

  /** The total area adds up over any split of the face list, and one face's total is its
      own area. */
  lemma {:induction false} TotalAreaAppend(a: seq<Face>, b: seq<Face>)
    ensures TotalArea(a + b) == TotalArea(a) + TotalArea(b)
    ensures forall f :: TotalArea([f]) == f.area
  {
    if |a| > 0 {
      assert (a + b)[0] == a[0] && (a + b)[1..] == a[1..] + b;
      TotalAreaAppend(a[1..], b);
    } else {
      assert a + b == b;
    }
    forall f ensures TotalArea([f]) == f.area {
      assert [f][1..] == [];
    }
  }

  /** num_samples: int(total_area * sample_density), truncated toward zero. */
  function Budget(totalArea: real, density: real): (b: int)
    ensures var x := totalArea * density;
      0.0 <= x ==> 0 <= b && b as real <= x < b as real + 1.0
    ensures var x := totalArea * density;
      x < 0.0 ==> b <= 0 && x <= b as real < x + 1.0
  {
    Trunc(totalArea * density)
  }

  /** A face's proportional share of the budget, before truncation and the floor of one. */
  function Share(area: real, total: real, budget: int): real
    requires total != 0.0
  {
    area / total * budget as real
  }

  /** face_samples: max(1, int(face_area / total_area * num_samples)). */
  function Allocation(area: real, total: real, budget: int): (k: nat)
    requires total != 0.0
    ensures 1 <= k
    ensures Share(area, total, budget) < 1.0 ==> k == 1
    ensures 1.0 <= Share(area, total, budget) ==>
              k as real <= Share(area, total, budget) < k as real + 1.0
  {
    Max(1, Trunc(Share(area, total, budget)))
  }

  /** The number of samples the faces receive together. */
  function AllocationSum(faces: seq<Face>, total: real, budget: int): (n: nat)
    requires |faces| == 0 || total != 0.0
    ensures |faces| <= n
  {
    if |faces| == 0 then 0
    else Allocation(faces[0].area, total, budget) + AllocationSum(faces[1..], total, budget)
  }

  function ShareSum(faces: seq<Face>, total: real, budget: int): real
    requires total != 0.0
  {
    if |faces| == 0 then 0.0
    else Share(faces[0].area, total, budget) + ShareSum(faces[1..], total, budget)
  }

  lemma ShareOfSum(a: real, b: real, total: real, budget: real)
    requires total != 0.0
    ensures a / total * budget + b / total * budget == (a + b) / total * budget
  {
    assert a / total + b / total == (a + b) / total;
  }

  /** The shares add up to the budget scaled by the faces' part of the total area. */
  lemma {:induction false} ShareSumIsScaledArea(faces: seq<Face>, total: real, budget: int)
    requires total != 0.0
    ensures ShareSum(faces, total, budget) == TotalArea(faces) / total * budget as real
  {
    if |faces| > 0 {
      ShareSumIsScaledArea(faces[1..], total, budget);
      ShareOfSum(faces[0].area, TotalArea(faces[1..]), total, budget as real);
    }
  }

  ghost predicate NonNegativeAreas(faces: seq<Face>) {
    forall i :: 0 <= i < |faces| ==> 0.0 <= faces[i].area
  }

  /** Each face's allocation is within one of its share, so the faces together stay within
      one sample per face of the sum of their shares. */
  lemma {:induction false} AllocationSumNearShares(faces: seq<Face>, total: real, budget: int)
    requires 0.0 < total && 0 <= budget && NonNegativeAreas(faces)
    ensures ShareSum(faces, total, budget) - |faces| as real <= AllocationSum(faces, total, budget) as real
    ensures |faces| > 0 ==>
              ShareSum(faces, total, budget) - |faces| as real < AllocationSum(faces, total, budget) as real
    ensures AllocationSum(faces, total, budget) as real <= ShareSum(faces, total, budget) + |faces| as real
  {
    if |faces| > 0 {
      assert 0.0 <= faces[0].area;
      assert 0.0 <= Share(faces[0].area, total, budget) by {
        assert 0.0 <= faces[0].area / total;
      }
      assert NonNegativeAreas(faces[1..]) by {
        forall i | 0 <= i < |faces[1..]| ensures 0.0 <= faces[1..][i].area {
          assert faces[1..][i] == faces[i + 1];
        }
      }
      AllocationSumNearShares(faces[1..], total, budget);
    }
  }

  // ---------------------------------------------------------------------------
  // Barycentric placement

  /** The argument of the square root that seeds r1: frame_current * 0.001 + n * 0.1. */
  function SqrtArgument(frame: int, n: nat): real {
    frame as real * 0.001 + n as real * 0.1
  }

  /** (r1, r2) for running sample index n before the reflection: r1 from the square root of
      the frame and index, r2 from the index alone, both taken modulo 1. */
  function RawWeights(m: Maths, frame: int, n: nat): (w: (real, real))
    ensures 0.0 <= w.0 < 1.0 && 0.0 <= w.1 < 1.0
    ensures w.0 == Frac(m.sqrt(SqrtArgument(frame, n)))
    ensures (m.sqrt(SqrtArgument(frame, n)) - w.0).Floor as real == m.sqrt(SqrtArgument(frame, n)) - w.0
    ensures w.1 == Frac(n as real * 0.7)
    ensures (n as real * 0.7 - w.1).Floor as real == n as real * 0.7 - w.1
  {
    (Frac(m.sqrt(SqrtArgument(frame, n))), Frac(n as real * 0.7))
  }

  predicate InUnitTriangle(w: (real, real)) {
    0.0 <= w.0 && 0.0 <= w.1 && w.0 + w.1 <= 1.0
  }

  /** Weights whose sum exceeds one are mirrored to (1 - r1, 1 - r2). */
  function Reflect(w: (real, real)): (r: (real, real))
    requires 0.0 <= w.0 < 1.0 && 0.0 <= w.1 < 1.0
    ensures InUnitTriangle(r) && r.0 <= 1.0 && r.1 <= 1.0
    ensures r == w <==> InUnitTriangle(w)
    ensures r == w || r == (1.0 - w.0, 1.0 - w.1)
  {
    if w.0 + w.1 > 1.0 then (1.0 - w.0, 1.0 - w.1) else w
  }

  /** The final (r1, r2) of sample n: the raw weights, both mirrored when they sum past one. */
  function Weights(m: Maths, frame: int, n: nat): (w: (real, real))
    ensures InUnitTriangle(w) && w.0 <= 1.0 && w.1 <= 1.0
    ensures w.1 == Frac(n as real * 0.7) || w.1 == 1.0 - Frac(n as real * 0.7)
    ensures var raw := RawWeights(m, frame, n);
      raw.0 + raw.1 <= 1.0 ==> w == raw
    ensures var raw := RawWeights(m, frame, n);
      raw.0 + raw.1 > 1.0 ==> w == (1.0 - raw.0, 1.0 - raw.1)
  {
    Reflect(RawWeights(m, frame, n))
  }

  /** The weighted average of three corners with weights 1 - u - v, u and v. */
  function Convex(a: Vec3, b: Vec3, c: Vec3, u: real, v: real): Vec3 {
    Add(Add(Scale(a, 1.0 - u - v), Scale(b, u)), Scale(c, v))
  }

  ghost predicate InTriangle(p: Vec3, a: Vec3, b: Vec3, c: Vec3) {
    exists u, v :: 0.0 <= u && 0.0 <= v && u + v <= 1.0 && p == Convex(a, b, c, u, v)
  }

  /** v0 + (v1 - v0) * r1 + (v2 - v0) * r2: the convex combination with weights
      1 - r1 - r2, r1 and r2, so weights in the unit triangle give a point of the triangle. */
  function Interpolate(v0: Vec3, v1: Vec3, v2: Vec3, r1: real, r2: real): (p: Vec3)
    ensures p == Convex(v0, v1, v2, r1, r2)
    ensures InUnitTriangle((r1, r2)) ==> InTriangle(p, v0, v1, v2)
  {
    Add(Add(v0, Scale(Sub(v1, v0), r1)), Scale(Sub(v2, v0), r2))
  }

  /** The reflected point is the original point mirrored through the midpoint of edge v1 v2,
      which is why the reflection keeps samples on the same parallelogram's lower half. */
  lemma ReflectionMirrorsThroughEdgeMidpoint(a: Vec3, b: Vec3, c: Vec3, r1: real, r2: real)
    ensures Add(Interpolate(a, b, c, r1, r2), Interpolate(a, b, c, 1.0 - r1, 1.0 - r2)) == Add(b, c)
  {
  }

  // ---------------------------------------------------------------------------
  // Samples

  /** What a sample taken from face f looks like: inside the triangle of its first three
      vertices, coloured by the face, facing the face's normal (or +Z), at the set size. */
  ghost predicate OnFace(st: Settings, mesh: Mesh, s: Sample, f: Face) {
    && 3 <= |f.verts|
    && InTriangle(s.position, f.verts[0], f.verts[1], f.verts[2])
    && ResolveColor(st, mesh, f) == Success(s.color)
    && s.normal == (if st.useNormals then f.normal else Up)
    && s.scale == st.splatScale
  }

  /** The body of the inner sampling loop for running sample index n. */
  function SampleAt(st: Settings, m: Maths, frame: int, mesh: Mesh, face: Face, n: nat): (r: Result<Sample, Error>)
    ensures r.Success? <==>
              0.0 <= SqrtArgument(frame, n) && 3 <= |face.verts| && ResolveColor(st, mesh, face).Success?
    ensures SqrtArgument(frame, n) < 0.0 ==> r == Failure(MathDomain)
    ensures 0.0 <= SqrtArgument(frame, n) && |face.verts| < 3 ==> r == Failure(NotEnoughVertices)
    ensures 0.0 <= SqrtArgument(frame, n) && 3 <= |face.verts| && ResolveColor(st, mesh, face).Failure? ==>
              r == Failure(ZeroDivision)
    ensures r.Success? ==> OnFace(st, mesh, r.value, face)
    ensures r.Success? ==> var w := Weights(m, frame, n);
              r.value.position == Interpolate(face.verts[0], face.verts[1], face.verts[2], w.0, w.1)
    ensures r.Failure? ==> Raised(r.error)
  {
    if SqrtArgument(frame, n) < 0.0 then Failure(MathDomain)
    else
      var w := Weights(m, frame, n);
      if |face.verts| < 3 then Failure(NotEnoughVertices)
      else
        var pos := Interpolate(face.verts[0], face.verts[1], face.verts[2], w.0, w.1);
        var color :- ResolveColor(st, mesh, face);
        var normal := if st.useNormals then face.normal else Up;
        Success(Sample(pos, color, normal, st.splatScale))
  }

  /** Vertices beyond the third never influence a sample. */
  lemma OnlyFirstThreeVertices(st: Settings, m: Maths, frame: int, mesh: Mesh, face: Face, n: nat)
    requires 3 <= |face.verts|
    ensures SampleAt(st, m, frame, mesh, face, n) == SampleAt(st, m, frame, mesh, face.(verts := face.verts[..3]), n)
  {
  }

  /** The body of the inner loop as a value: the sample for a face and a running index, or
      the exception it raises. The two loops below are written once for any body. */
  type Body = (Face, nat) -> Result<Sample, Error>

  /** The inner loop body of sample_mesh for one mesh, frame and set of settings. */
  function MeshBody(st: Settings, m: Maths, frame: int, mesh: Mesh): Body {
    (f: Face, n: nat) => SampleAt(st, m, frame, mesh, f, n)
  }

  /** Every failure of the body is one of the exceptions sampling raises. */
  ghost predicate RaisesOnly(at: Body) {
    forall f, n :: at(f, n).Failure? ==> Raised(at(f, n).error)
  }

  lemma MeshBodyRaisesOnly(st: Settings, m: Maths, frame: int, mesh: Mesh)
    ensures RaisesOnly(MeshBody(st, m, frame, mesh))
  {
    forall f, n | MeshBody(st, m, frame, mesh)(f, n).Failure?
      ensures Raised(MeshBody(st, m, frame, mesh)(f, n).error)
    {
      assert MeshBody(st, m, frame, mesh)(f, n) == SampleAt(st, m, frame, mesh, f, n);
    }
  }

  /** The k samples of one face, with running indices start, start + 1, ... */
  function FaceSamples(at: Body, face: Face, start: nat, k: nat): (r: Result<seq<Sample>, Error>)
    ensures r.Success? <==> forall j :: start <= j < start + k ==> at(face, j).Success?
    ensures r.Success? ==> |r.value| == k
    ensures r.Success? ==> forall j :: 0 <= j < k ==> at(face, start + j) == Success(r.value[j])
    ensures RaisesOnly(at) && r.Failure? ==> Raised(r.error)
    decreases k
  {
    if k == 0 then Success([])
    else
      var first :- at(face, start);
      var rest :- FaceSamples(at, face, start + 1, k - 1);
      assert forall j :: 1 <= j < k ==> ([first] + rest)[j] == rest[j - 1];
      Success([first] + rest)
  }

  /** The inner loop raises what the body raises at the first running index that fails. */
  lemma {:induction false} FaceSamplesFailure(at: Body, face: Face, start: nat, k: nat)
    ensures var r := FaceSamples(at, face, start, k);
      r.Failure? ==> exists j :: start <= j < start + k && at(face, j) == Failure(r.error)
                                 && (forall i :: start <= i < j ==> at(face, i).Success?)
    decreases k
  {
    if 0 < k && at(face, start).Success? {
      FaceSamplesFailure(at, face, start + 1, k - 1);
    }
  }

  /** How many samples each face gets, as a value. */
  type Allot = Face -> nat

  /** The allotment of sample_mesh: face_samples for every face of a mesh. */
  function Allotment(total: real, budget: int): Allot
    requires total != 0.0
  {
    (f: Face) => Allocation(f.area, total, budget)
  }

  /** The number of samples an allotment gives the faces together. */
  function Allotted(allot: Allot, faces: seq<Face>): nat {
    if |faces| == 0 then 0 else allot(faces[0]) + Allotted(allot, faces[1..])
  }

  /** Under sample_mesh's allotment the faces get their allocations. */
  lemma {:induction false} AllotmentGivesAllocations(faces: seq<Face>, total: real, budget: int)
    requires total != 0.0
    ensures Allotted(Allotment(total, budget), faces) == AllocationSum(faces, total, budget)
  {
    if |faces| > 0 {
      AllotmentGivesAllocations(faces[1..], total, budget);
    }
  }

  /** The outer loop over faces; done is how many samples the mesh has so far. */
  function SampleFaces(at: Body, allot: Allot, faces: seq<Face>, done: nat): (r: Result<seq<Sample>, Error>)
    ensures RaisesOnly(at) && r.Failure? ==> Raised(r.error)
    ensures r.Success? ==> |r.value| == Allotted(allot, faces)
    decreases |faces|
  {
    if |faces| == 0 then Success([])
    else
      var k := allot(faces[0]);
      var here :- FaceSamples(at, faces[0], done, k);
      var rest :- SampleFaces(at, allot, faces[1..], done + k);
      Success(here + rest)
  }

  /** The outer loop raises what the body raises on one of the faces; when the very first
      iteration fails, it raises exactly that. */
  lemma {:induction false} SampleFacesFailure(at: Body, allot: Allot, faces: seq<Face>, done: nat)
    ensures var r := SampleFaces(at, allot, faces, done);
      r.Failure? ==> exists i, n :: 0 <= i < |faces| && at(faces[i], n) == Failure(r.error)
    ensures |faces| > 0 && 0 < allot(faces[0]) && at(faces[0], done).Failure? ==>
              SampleFaces(at, allot, faces, done) == Failure(at(faces[0], done).error)
    decreases |faces|
  {
    if |faces| > 0 {
      var k := allot(faces[0]);
      FaceSamplesFailure(at, faces[0], done, k);
      if FaceSamples(at, faces[0], done, k).Success? {
        SampleFacesFailure(at, allot, faces[1..], done + k);
        var r := SampleFaces(at, allot, faces, done);
        if r.Failure? {
          var i, n :| 0 <= i < |faces[1..]| && at(faces[1..][i], n) == Failure(r.error);
          assert at(faces[i + 1], n) == Failure(r.error);
        }
      }
    }
  }

  /** sample_mesh: every face of the mesh in order, the running index starting at zero.
      The first face's allocation divides by the total area, so a mesh that has faces but
      no area raises before any sample. */
  function SampleMesh(st: Settings, m: Maths, frame: int, mesh: Mesh): (r: Result<seq<Sample>, Error>)
    ensures |mesh.faces| == 0 ==> r == Success([])
    ensures r.Failure? ==> Raised(r.error)
    ensures |mesh.faces| > 0 && TotalArea(mesh.faces) == 0.0 ==> r == Failure(ZeroDivision)
    ensures r.Success? && |mesh.faces| > 0 ==>
              var total := TotalArea(mesh.faces);
              |r.value| == AllocationSum(mesh.faces, total, Budget(total, st.sampleDensity))
    ensures r.Success? ==> |mesh.faces| <= |r.value|
    ensures |mesh.faces| > 0 && TotalArea(mesh.faces) != 0.0 && frame < 0 ==> r == Failure(MathDomain)
  {
    var total := TotalArea(mesh.faces);
    if |mesh.faces| == 0 then Success([])
    else if total == 0.0 then Failure(ZeroDivision)
    else
      var budget := Budget(total, st.sampleDensity);
      MeshBodyRaisesOnly(st, m, frame, mesh);
      AllotmentGivesAllocations(mesh.faces, total, budget);
      NegativeFrameRaises(st, m, frame, mesh, total, budget);
      SampleFaces(MeshBody(st, m, frame, mesh), Allotment(total, budget), mesh.faces, 0)
  }

  /** With a negative frame the very first square root, at running index 0, raises. */
  lemma NegativeFrameRaises(st: Settings, m: Maths, frame: int, mesh: Mesh, total: real, budget: int)
    requires |mesh.faces| > 0 && total != 0.0
    ensures frame < 0 ==>
              SampleFaces(MeshBody(st, m, frame, mesh), Allotment(total, budget), mesh.faces, 0) == Failure(MathDomain)
  {
    if frame < 0 {
      var at, allot, f := MeshBody(st, m, frame, mesh), Allotment(total, budget), mesh.faces[0];
      SampleFacesFailure(at, allot, mesh.faces, 0);
      assert allot(f) == Allocation(f.area, total, budget);
      assert at(f, 0) == SampleAt(st, m, frame, mesh, f, 0);
      assert SqrtArgument(frame, 0) < 0.0;
    }
  }

  // ---------------------------------------------------------------------------
  // Properties of the loops, for any body and allotment

  /** Sample s is what the body produces for running index n on some face. */
  ghost predicate SampledFrom(at: Body, faces: seq<Face>, n: nat, s: Sample) {
    exists f :: f in faces && at(f, n) == Success(s)
  }

  /** Sample j of ss was produced with running index done + j. */
  ghost predicate IndexedFrom(at: Body, faces: seq<Face>, done: nat, ss: seq<Sample>) {
    forall j :: 0 <= j < |ss| ==> SampledFrom(at, faces, done + j, ss[j])
  }

  /** One step of the outer loop: the first face's samples, then the rest's. */
  lemma SampleFacesStep(at: Body, allot: Allot, faces: seq<Face>, done: nat)
    returns (k: nat, here: seq<Sample>, rest: seq<Sample>)
    requires |faces| > 0 && SampleFaces(at, allot, faces, done).Success?
    ensures k == allot(faces[0])
    ensures FaceSamples(at, faces[0], done, k) == Success(here)
    ensures SampleFaces(at, allot, faces[1..], done + k) == Success(rest)
    ensures SampleFaces(at, allot, faces, done) == Success(here + rest)
  {
    k := allot(faces[0]);
    here := FaceSamples(at, faces[0], done, k).value;
    rest := SampleFaces(at, allot, faces[1..], done + k).value;
  }

  lemma {:induction false} SampleFacesIndexing(at: Body, allot: Allot, faces: seq<Face>, done: nat)
    requires SampleFaces(at, allot, faces, done).Success?
    ensures IndexedFrom(at, faces, done, SampleFaces(at, allot, faces, done).value)
  {
    if |faces| > 0 {
      var k, here, rest := SampleFacesStep(at, allot, faces, done);
      SampleFacesIndexing(at, allot, faces[1..], done + k);
      IndexedConcat(at, faces, done, here, rest);
    }
  }

  lemma IndexedConcat(at: Body, faces: seq<Face>, done: nat, here: seq<Sample>, rest: seq<Sample>)
    requires |faces| > 0
    requires forall j :: 0 <= j < |here| ==> at(faces[0], done + j) == Success(here[j])
    requires IndexedFrom(at, faces[1..], done + |here|, rest)
    ensures IndexedFrom(at, faces, done, here + rest)
  {
    var ss := here + rest;
    var k := |here|;
    forall j | 0 <= j < k ensures SampledFrom(at, faces, done + j, ss[j]) {
      assert ss[j] == here[j];
      assert faces[0] in faces;
    }
    forall j | k <= j < |ss| ensures SampledFrom(at, faces, done + j, ss[j]) {
      assert ss[j] == rest[j - k];
      assert SampledFrom(at, faces[1..], done + k + (j - k), rest[j - k]);
      var f :| f in faces[1..] && at(f, done + j) == Success(rest[j - k]);
      assert f in faces;
    }
  }

  /** ss splits face by face: a block of allot(f) samples per face f, in order, the j-th
      sample of a block being the body's output on its face for the running index at that
      point. */
  ghost predicate Blocked(at: Body, allot: Allot, faces: seq<Face>, done: nat, ss: seq<Sample>)
    decreases |faces|
  {
    if |faces| == 0 then ss == []
    else
      var k := allot(faces[0]);
      && k <= |ss|
      && (forall j :: 0 <= j < k ==> at(faces[0], done + j) == Success(ss[j]))
      && Blocked(at, allot, faces[1..], done + k, ss[k..])
  }

  lemma {:induction false} SampleFacesBlocked(at: Body, allot: Allot, faces: seq<Face>, done: nat)
    requires SampleFaces(at, allot, faces, done).Success?
    ensures Blocked(at, allot, faces, done, SampleFaces(at, allot, faces, done).value)
    decreases |faces|
  {
    if |faces| > 0 {
      var k, here, rest := SampleFacesStep(at, allot, faces, done);
      SampleFacesBlocked(at, allot, faces[1..], done + k);
      assert (here + rest)[k..] == rest;
      assert forall j :: 0 <= j < k ==> (here + rest)[j] == here[j];
    }
  }

  /** Reading face i's block off a face-by-face split. */
  lemma {:induction false} BlockAt(at: Body, allot: Allot, faces: seq<Face>, done: nat, ss: seq<Sample>, i: nat, j: nat)
    requires Blocked(at, allot, faces, done, ss)
    requires i < |faces|
    ensures var before := AllottedBefore(allot, faces, i);
      && before + allot(faces[i]) <= |ss|
      && (j < allot(faces[i]) ==> at(faces[i], done + before + j) == Success(ss[before + j]))
    decreases i
  {
    if 0 < i {
      var k := allot(faces[0]);
      BlockAt(at, allot, faces[1..], done + k, ss[k..], i - 1, j);
      assert faces[1..][i - 1] == faces[i];
      var b := AllottedBefore(allot, faces[1..], i - 1);
      if j < allot(faces[i]) {
        assert ss[k..][b + j] == ss[k + b + j];
      }
    }
  }

  /** Face i's block: the samples of face i come right after those of the faces before
      it, as many as face i is allotted, and the j-th of them is the body's output on face
      i for running index done plus the samples before it plus j. */
  lemma {:induction false} SampleFacesBlocks(at: Body, allot: Allot, faces: seq<Face>, done: nat, i: nat, j: nat)
    requires SampleFaces(at, allot, faces, done).Success?
    requires i < |faces|
    ensures var ss := SampleFaces(at, allot, faces, done).value;
      var before := AllottedBefore(allot, faces, i);
      && before + allot(faces[i]) <= |ss|
      && (j < allot(faces[i]) ==> at(faces[i], done + before + j) == Success(ss[before + j]))
  {
    SampleFacesBlocked(at, allot, faces, done);
    BlockAt(at, allot, faces, done, SampleFaces(at, allot, faces, done).value, i, j);
  }

  /** What the faces before face i are allotted together, counted from the front. */
  function AllottedBefore(allot: Allot, faces: seq<Face>, i: nat): nat
    requires i <= |faces|
  {
    if i == 0 then 0 else allot(faces[0]) + AllottedBefore(allot, faces[1..], i - 1)
  }

  lemma {:induction false} AllottedBeforeIsPrefix(allot: Allot, faces: seq<Face>, i: nat)
    requires i <= |faces|
    ensures AllottedBefore(allot, faces, i) == Allotted(allot, faces[..i])
  {
    if 0 < i {
      AllottedBeforeIsPrefix(allot, faces[1..], i - 1);
      var prefix := faces[..i];
      assert prefix[0] == faces[0] && prefix[1..] == faces[1..][..i - 1];
    }
  }

  /** A face the body always samples, and one it never does. */
  ghost predicate Always(at: Body, f: Face) {
    forall n :: at(f, n).Success?
  }

  ghost predicate Never(at: Body, f: Face) {
    forall n :: at(f, n).Failure?
  }

  /** When each face either always or never samples and gets at least one sample, the
      loops get through exactly when every face always samples. */
  lemma {:induction false} SampleFacesSucceeds(at: Body, allot: Allot, faces: seq<Face>, done: nat)
    requires forall f :: f in faces ==> Always(at, f) || Never(at, f)
    requires forall f :: f in faces ==> 0 < allot(f)
    ensures SampleFaces(at, allot, faces, done).Success? <==> forall f :: f in faces ==> Always(at, f)
  {
    if |faces| > 0 {
      var f := faces[0];
      var k := allot(f);
      assert f in faces;
      assert FaceSamples(at, f, done, k).Success? <==> Always(at, f) by {
        if !Always(at, f) {
          assert at(f, done).Failure?;
        }
      }
      assert forall g :: g in faces <==> g == f || g in faces[1..];
      SampleFacesSucceeds(at, allot, faces[1..], done + k);
    }
  }

  /** When every face before face i always samples and face i always raises e, the loops
      raise e: the first face that cannot be sampled decides the exception. */
  lemma {:induction false} SampleFacesFirstNever(at: Body, allot: Allot, faces: seq<Face>, done: nat, i: nat, e: Error)
    requires i < |faces| && 0 < allot(faces[i])
    requires forall k :: 0 <= k < i ==> Always(at, faces[k])
    requires forall n :: at(faces[i], n) == Failure(e)
    ensures SampleFaces(at, allot, faces, done) == Failure(e)
  {
    SampleFacesFailure(at, allot, faces, done);
    if 0 < i {
      var k := allot(faces[0]);
      assert Always(at, faces[0]);
      assert FaceSamples(at, faces[0], done, k).Success?;
      forall k' | 0 <= k' < i - 1 ensures Always(at, faces[1..][k']) {
        assert faces[1..][k'] == faces[k' + 1];
      }
      SampleFacesFirstNever(at, allot, faces[1..], done + k, i - 1, e);
    }
  }

  // ---------------------------------------------------------------------------
  // Properties of a whole mesh

  /** The j-th sample of ss is the loop body's output for running index j on one of the
      mesh's faces. */
  ghost predicate MeshIndexed(st: Settings, m: Maths, frame: int, mesh: Mesh, ss: seq<Sample>) {
    forall j :: 0 <= j < |ss| ==> SampledByMesh(st, m, frame, mesh, j, ss[j])
  }

  /** Sample s is what the loop body produces for running index n on a face of the mesh. */
  ghost predicate SampledByMesh(st: Settings, m: Maths, frame: int, mesh: Mesh, n: nat, s: Sample) {
    exists f :: f in mesh.faces && SampleAt(st, m, frame, mesh, f, n) == Success(s)
  }

  /** The running index does not restart per face: the j-th sample of a mesh comes from
      running index j. */
  lemma SampleMeshIndexing(st: Settings, m: Maths, frame: int, mesh: Mesh)
    requires SampleMesh(st, m, frame, mesh).Success?
    ensures MeshIndexed(st, m, frame, mesh, SampleMesh(st, m, frame, mesh).value)
  {
    if |mesh.faces| > 0 {
      var total := TotalArea(mesh.faces);
      var allot := Allotment(total, Budget(total, st.sampleDensity));
      var at := MeshBody(st, m, frame, mesh);
      assert SampleMesh(st, m, frame, mesh) == SampleFaces(at, allot, mesh.faces, 0);
      SampleFacesIndexing(at, allot, mesh.faces, 0);
      IndexedByMeshBody(st, m, frame, mesh, SampleMesh(st, m, frame, mesh).value);
    }
  }

  /** Face i's block of ss: face i gets exactly its allocation
      max(1, int(area_i / total * budget)) of samples, right after those of the faces before
      it, and the j-th of them is the loop body's output on face i for running index
      (samples before it) + j. */
  ghost predicate FaceBlock(st: Settings, m: Maths, frame: int, mesh: Mesh, ss: seq<Sample>, i: nat, j: nat)
    requires i < |mesh.faces| && TotalArea(mesh.faces) != 0.0
  {
    var total := TotalArea(mesh.faces);
    var budget := Budget(total, st.sampleDensity);
    var before := AllocationSum(mesh.faces[..i], total, budget);
    && before + Allocation(mesh.faces[i].area, total, budget) <= |ss|
    && (j < Allocation(mesh.faces[i].area, total, budget) ==>
          SampleAt(st, m, frame, mesh, mesh.faces[i], before + j) == Success(ss[before + j]))
  }

  /** The samples of a mesh come face by face, each face's block as FaceBlock describes. */
  lemma SampleMeshBlocks(st: Settings, m: Maths, frame: int, mesh: Mesh, i: nat, j: nat)
    requires SampleMesh(st, m, frame, mesh).Success?
    requires i < |mesh.faces|
    ensures TotalArea(mesh.faces) != 0.0
    ensures FaceBlock(st, m, frame, mesh, SampleMesh(st, m, frame, mesh).value, i, j)
  {
    var total := TotalArea(mesh.faces);
    var budget := Budget(total, st.sampleDensity);
    SampleMeshIsLoop(st, m, frame, mesh);
    MeshBodyIsSampleAt(st, m, frame, mesh);
    AllotmentIsAllocation(total, budget);
    MeshBlockAt(st, m, frame, mesh, total, budget, MeshBody(st, m, frame, mesh), Allotment(total, budget),
                SampleMesh(st, m, frame, mesh).value, i, j);
  }

  /** Sample j of face i's block is the point of the face that the weights of its running
      index pick out, with the face's colour and normal and the configured size. */
  lemma SampleMeshPositions(st: Settings, m: Maths, frame: int, mesh: Mesh, i: nat, j: nat)
    requires SampleMesh(st, m, frame, mesh).Success?
    requires i < |mesh.faces|
    ensures TotalArea(mesh.faces) != 0.0
    ensures var ss, f := SampleMesh(st, m, frame, mesh).value, mesh.faces[i];
      var total := TotalArea(mesh.faces);
      var budget := Budget(total, st.sampleDensity);
      var before := AllocationSum(mesh.faces[..i], total, budget);
      j < Allocation(f.area, total, budget) ==>
        && before + j < |ss|
        && OnFace(st, mesh, ss[before + j], f)
        && var w := Weights(m, frame, before + j);
           ss[before + j].position == Interpolate(f.verts[0], f.verts[1], f.verts[2], w.0, w.1)
  {
    SampleMeshBlocks(st, m, frame, mesh, i, j);
  }

  /** The same, for a body and an allotment known only to agree with sample_mesh's. */
  lemma MeshBlockAt(st: Settings, m: Maths, frame: int, mesh: Mesh, total: real, budget: int,
                    at: Body, allot: Allot, ss: seq<Sample>, i: nat, j: nat)
    requires i < |mesh.faces|
    requires total == TotalArea(mesh.faces) && total != 0.0 && budget == Budget(total, st.sampleDensity)
    requires forall f, n :: at(f, n) == SampleAt(st, m, frame, mesh, f, n)
    requires forall f :: allot(f) == Allocation(f.area, total, budget)
    requires SampleFaces(at, allot, mesh.faces, 0) == Success(ss)
    ensures FaceBlock(st, m, frame, mesh, ss, i, j)
  {
    AllottedBlock(at, allot, mesh.faces, ss, i, j, total, budget);
    var f, before := mesh.faces[i], AllocationSum(mesh.faces[..i], total, budget);
    if j < Allocation(f.area, total, budget) {
      BodyAgrees(st, m, frame, mesh, at, f, before + j, ss[before + j]);
    }
    FaceBlockIntro(st, m, frame, mesh, total, budget, ss, i, j);
  }

  /** Face i's block, with the allotment read as sample_mesh's allocation. */
  lemma AllottedBlock(at: Body, allot: Allot, faces: seq<Face>, ss: seq<Sample>, i: nat, j: nat,
                      total: real, budget: int)
    requires SampleFaces(at, allot, faces, 0) == Success(ss)
    requires i < |faces| && total != 0.0
    requires forall f :: allot(f) == Allocation(f.area, total, budget)
    ensures var before := AllocationSum(faces[..i], total, budget);
      && before + Allocation(faces[i].area, total, budget) <= |ss|
      && (j < Allocation(faces[i].area, total, budget) ==> at(faces[i], before + j) == Success(ss[before + j]))
  {
    SampleFacesBlocks(at, allot, faces, 0, i, j);
    AllottedBeforeAllocations(allot, faces, i, total, budget);
    assert allot(faces[i]) == Allocation(faces[i].area, total, budget);
  }

  /** A body known to agree with sample_mesh's yields what sample_mesh's body yields. */
  lemma BodyAgrees(st: Settings, m: Maths, frame: int, mesh: Mesh, at: Body, f: Face, n: nat, s: Sample)
    requires forall f, n :: at(f, n) == SampleAt(st, m, frame, mesh, f, n)
    requires at(f, n) == Success(s)
    ensures SampleAt(st, m, frame, mesh, f, n) == Success(s)
  {
  }

  lemma FaceBlockIntro(st: Settings, m: Maths, frame: int, mesh: Mesh, total: real, budget: int,
                       ss: seq<Sample>, i: nat, j: nat)
    requires i < |mesh.faces|
    requires total == TotalArea(mesh.faces) && total != 0.0 && budget == Budget(total, st.sampleDensity)
    requires var before := AllocationSum(mesh.faces[..i], total, budget);
      && before + Allocation(mesh.faces[i].area, total, budget) <= |ss|
      && (j < Allocation(mesh.faces[i].area, total, budget) ==>
            SampleAt(st, m, frame, mesh, mesh.faces[i], before + j) == Success(ss[before + j]))
    ensures FaceBlock(st, m, frame, mesh, ss, i, j)
  {
  }

  /** A mesh with faces and area is sampled by the two loops with sample_mesh's body and
      allotment. */
  lemma SampleMeshIsLoop(st: Settings, m: Maths, frame: int, mesh: Mesh)
    requires |mesh.faces| > 0 && TotalArea(mesh.faces) != 0.0
    ensures var total := TotalArea(mesh.faces);
      SampleMesh(st, m, frame, mesh)
      == SampleFaces(MeshBody(st, m, frame, mesh), Allotment(total, Budget(total, st.sampleDensity)), mesh.faces, 0)
  {
  }

  lemma AllottedBeforeAllocations(allot: Allot, faces: seq<Face>, i: nat, total: real, budget: int)
    requires i <= |faces| && total != 0.0
    requires forall f :: allot(f) == Allocation(f.area, total, budget)
    ensures AllottedBefore(allot, faces, i) == AllocationSum(faces[..i], total, budget)
  {
    AllottedBeforeIsPrefix(allot, faces, i);
    AllottedAllocations(allot, faces[..i], total, budget);
  }

  lemma {:induction false} AllottedAllocations(allot: Allot, faces: seq<Face>, total: real, budget: int)
    requires total != 0.0
    requires forall f :: allot(f) == Allocation(f.area, total, budget)
    ensures Allotted(allot, faces) == AllocationSum(faces, total, budget)
  {
    if |faces| > 0 {
      AllottedAllocations(allot, faces[1..], total, budget);
    }
  }

  lemma AllotmentIsAllocation(total: real, budget: int)
    requires total != 0.0
    ensures forall f :: Allotment(total, budget)(f) == Allocation(f.area, total, budget)
  {
  }

  lemma MeshBodyIsSampleAt(st: Settings, m: Maths, frame: int, mesh: Mesh)
    ensures forall f, n :: MeshBody(st, m, frame, mesh)(f, n) == SampleAt(st, m, frame, mesh, f, n)
  {
  }

  lemma IndexedByMeshBody(st: Settings, m: Maths, frame: int, mesh: Mesh, ss: seq<Sample>)
    requires IndexedFrom(MeshBody(st, m, frame, mesh), mesh.faces, 0, ss)
    ensures MeshIndexed(st, m, frame, mesh, ss)
  {
    var at := MeshBody(st, m, frame, mesh);
    forall j | 0 <= j < |ss| ensures SampledByMesh(st, m, frame, mesh, j, ss[j]) {
      assert SampledFrom(at, mesh.faces, 0 + j, ss[j]);
      var f :| f in mesh.faces && at(f, j) == Success(ss[j]);
      assert at(f, j) == SampleAt(st, m, frame, mesh, f, j);
    }
  }

  ghost predicate OnSomeFace(st: Settings, mesh: Mesh, s: Sample) {
    exists f :: f in mesh.faces && OnFace(st, mesh, s, f)
  }

  ghost predicate AllOnFaces(st: Settings, mesh: Mesh, ss: seq<Sample>) {
    forall j :: 0 <= j < |ss| ==> OnSomeFace(st, mesh, ss[j])
  }

  /** Every sample lies inside the first triangle of a face of the mesh, with that face's
      colour and normal and the configured size. */
  lemma SamplesLieOnFaces(st: Settings, m: Maths, frame: int, mesh: Mesh)
    requires SampleMesh(st, m, frame, mesh).Success?
    ensures AllOnFaces(st, mesh, SampleMesh(st, m, frame, mesh).value)
  {
    SampleMeshIndexing(st, m, frame, mesh);
    var ss := SampleMesh(st, m, frame, mesh).value;
    forall j | 0 <= j < |ss| ensures OnSomeFace(st, mesh, ss[j]) {
      assert SampledByMesh(st, m, frame, mesh, j, ss[j]);
      var f :| f in mesh.faces && SampleAt(st, m, frame, mesh, f, j) == Success(ss[j]);
      assert OnFace(st, mesh, ss[j], f);
    }
  }

  /** With non-negative face areas and density the mesh gets within one sample per face of
      its budget: never fewer than budget - faces + 1, possibly more than the budget. */
  lemma SampleCountNearBudget(st: Settings, m: Maths, frame: int, mesh: Mesh)
    requires NonNegativeAreas(mesh.faces) && 0.0 <= st.sampleDensity
    requires SampleMesh(st, m, frame, mesh).Success? && |mesh.faces| > 0
    ensures var n := |SampleMesh(st, m, frame, mesh).value|;
      var budget := Budget(TotalArea(mesh.faces), st.sampleDensity);
      budget - |mesh.faces| < n <= budget + |mesh.faces|
  {
    var total := TotalArea(mesh.faces);
    var budget := Budget(total, st.sampleDensity);
    assert |SampleMesh(st, m, frame, mesh).value| == AllocationSum(mesh.faces, total, budget);
    AllocationNearBudget(mesh.faces, st.sampleDensity);
  }

  /** The allocations of all faces of a mesh stay within one per face of its budget. */
  lemma AllocationNearBudget(faces: seq<Face>, density: real)
    requires NonNegativeAreas(faces) && 0.0 <= density
    requires |faces| > 0 && TotalArea(faces) != 0.0
    ensures var total := TotalArea(faces);
      var budget := Budget(total, density);
      budget - |faces| < AllocationSum(faces, total, budget) <= budget + |faces|
  {
    var total := TotalArea(faces);
    var budget := Budget(total, density);
    assert 0.0 <= total by { AreasSumNonNegative(faces); }
    assert 0 <= budget by { assert 0.0 <= total * density; }
    AllocationSumNearShares(faces, total, budget);
    SharesMakeBudget(faces, budget);
  }

  /** Over all the faces of a mesh the shares add up to exactly the budget. */
  lemma SharesMakeBudget(faces: seq<Face>, budget: int)
    requires TotalArea(faces) != 0.0
    ensures ShareSum(faces, TotalArea(faces), budget) == budget as real
  {
    var total := TotalArea(faces);
    ShareSumIsScaledArea(faces, total, budget);
    assert total / total == 1.0;
  }

  lemma {:induction false} AreasSumNonNegative(faces: seq<Face>)
    requires NonNegativeAreas(faces)
    ensures 0.0 <= TotalArea(faces)
  {
    if |faces| > 0 {
      assert 0.0 <= faces[0].area;
      assert NonNegativeAreas(faces[1..]) by {
        forall i | 0 <= i < |faces[1..]| ensures 0.0 <= faces[1..][i].area {
          assert faces[1..][i] == faces[i + 1];
        }
      }
      AreasSumNonNegative(faces[1..]);
    }
  }

  /** The faces a sampling pass can get through: at least three vertices, and a colour that
      resolves (loops to average when vertex colours are in use). */
  ghost predicate Samplable(st: Settings, mesh: Mesh, faces: seq<Face>) {
    forall f :: f in faces ==> SamplableFace(st, mesh, f)
  }

  ghost predicate SamplableFace(st: Settings, mesh: Mesh, f: Face) {
    3 <= |f.verts| && !(UsesVertexColors(st, mesh) && |f.loopColors| == 0)
  }

  /** Sampling a mesh raises exactly when the mesh has faces and one of these holds: the
      total area is zero, the frame is negative (the very first square root fails), or some
      face cannot be sampled. */
  lemma SampleMeshSucceeds(st: Settings, m: Maths, frame: int, mesh: Mesh)
    ensures SampleMesh(st, m, frame, mesh).Success? <==>
              |mesh.faces| == 0 || (TotalArea(mesh.faces) != 0.0 && 0 <= frame && Samplable(st, mesh, mesh.faces))
  {
    var total := TotalArea(mesh.faces);
    var budget := Budget(total, st.sampleDensity);
    var at := MeshBody(st, m, frame, mesh);
    if |mesh.faces| > 0 && total != 0.0 {
      var allot := Allotment(total, budget);
      assert SampleMesh(st, m, frame, mesh) == SampleFaces(at, allot, mesh.faces, 0);
      if 0 <= frame {
        forall f | f in mesh.faces ensures Always(at, f) || Never(at, f) {
          BodyDependsOnFaceOnly(st, m, frame, mesh, f);
        }
        forall f | f in mesh.faces ensures 0 < allot(f) {
          assert allot(f) == Allocation(f.area, total, budget);
        }
        SampleFacesSucceeds(at, allot, mesh.faces, 0);
        forall f | f in mesh.faces ensures Always(at, f) <==> SamplableFace(st, mesh, f) {
          BodyDependsOnFaceOnly(st, m, frame, mesh, f);
          if !SamplableFace(st, mesh, f) {
            assert at(f, 0).Failure?;
          }
        }
      } else {
        var k := allot(mesh.faces[0]);
        assert at(mesh.faces[0], 0) == SampleAt(st, m, frame, mesh, mesh.faces[0], 0);
        assert SampleAt(st, m, frame, mesh, mesh.faces[0], 0).Failure?;
        assert FaceSamples(at, mesh.faces[0], 0, k).Failure?;
      }
    }
  }

  /** The exception a face that cannot be sampled raises, once the square root is defined. */
  function FaceError(f: Face): Error {
    if |f.verts| < 3 then NotEnoughVertices else ZeroDivision
  }

  /** With a frame that is not negative and a non-zero area, sampling a mesh raises the
      exception of its first face that cannot be sampled. */
  lemma SampleMeshFirstUnsamplable(st: Settings, m: Maths, frame: int, mesh: Mesh, i: nat)
    requires 0 <= frame && TotalArea(mesh.faces) != 0.0 && i < |mesh.faces|
    requires forall k :: 0 <= k < i ==> SamplableFace(st, mesh, mesh.faces[k])
    requires !SamplableFace(st, mesh, mesh.faces[i])
    ensures SampleMesh(st, m, frame, mesh) == Failure(FaceError(mesh.faces[i]))
  {
    var total := TotalArea(mesh.faces);
    var budget := Budget(total, st.sampleDensity);
    SampleMeshIsLoop(st, m, frame, mesh);
    MeshBodyIsSampleAt(st, m, frame, mesh);
    AllotmentIsAllocation(total, budget);
    FirstUnsamplableLoop(st, m, frame, mesh, total, budget, MeshBody(st, m, frame, mesh), Allotment(total, budget), i);
  }

  /** The same, for a body and an allotment known only to agree with sample_mesh's. */
  lemma FirstUnsamplableLoop(st: Settings, m: Maths, frame: int, mesh: Mesh, total: real, budget: int,
                             at: Body, allot: Allot, i: nat)
    requires 0 <= frame && total != 0.0 && i < |mesh.faces|
    requires forall f, n :: at(f, n) == SampleAt(st, m, frame, mesh, f, n)
    requires forall f :: allot(f) == Allocation(f.area, total, budget)
    requires forall k :: 0 <= k < i ==> SamplableFace(st, mesh, mesh.faces[k])
    requires !SamplableFace(st, mesh, mesh.faces[i])
    ensures SampleFaces(at, allot, mesh.faces, 0) == Failure(FaceError(mesh.faces[i]))
  {
    var f := mesh.faces[i];
    forall k | 0 <= k < i ensures Always(at, mesh.faces[k]) {
      forall n ensures at(mesh.faces[k], n).Success? {
        assert at(mesh.faces[k], n) == SampleAt(st, m, frame, mesh, mesh.faces[k], n);
        assert 0.0 <= SqrtArgument(frame, n);
      }
    }
    forall n ensures at(f, n) == Failure(FaceError(f)) {
      assert at(f, n) == SampleAt(st, m, frame, mesh, f, n);
      assert 0.0 <= SqrtArgument(frame, n);
    }
    assert allot(f) == Allocation(f.area, total, budget);
    SampleFacesFirstNever(at, allot, mesh.faces, 0, i, FaceError(f));
  }

  /** With a frame that is not negative, whether the body succeeds depends on the face
      alone, not on the running index. */
  lemma BodyDependsOnFaceOnly(st: Settings, m: Maths, frame: int, mesh: Mesh, f: Face)
    requires 0 <= frame
    ensures var at := MeshBody(st, m, frame, mesh);
      && (SamplableFace(st, mesh, f) ==> Always(at, f))
      && (!SamplableFace(st, mesh, f) ==> Never(at, f))
  {
    var at := MeshBody(st, m, frame, mesh);
    forall n: nat ensures at(f, n).Success? <==> SamplableFace(st, mesh, f) {
      assert at(f, n) == SampleAt(st, m, frame, mesh, f, n);
      assert 0.0 <= SqrtArgument(frame, n);
    }
  }

  /** A face of zero area still gets a sample, so a mesh can exceed its budget: one unit
      face and one degenerate face at density 1 have a budget of 1 and get 2 samples. */
  lemma BudgetCanBeExceeded(st: Settings, m: Maths, mesh: Mesh)
    requires st.sampleDensity == 1.0
    requires var tri := [Vec3(0.0, 0.0, 0.0), Vec3(1.0, 0.0, 0.0), Vec3(0.0, 1.0, 0.0)];
      mesh == Mesh([Face(1.0, tri, Up, []), Face(0.0, tri, Up, [])], false, None)
    ensures Budget(TotalArea(mesh.faces), st.sampleDensity) == 1
    ensures SampleMesh(st, m, 0, mesh).Success? && |SampleMesh(st, m, 0, mesh).value| == 2
  {
    TwoFaceAllocations(mesh.faces);
    SampleMeshSucceeds(st, m, 0, mesh);
    assert Samplable(st, mesh, mesh.faces) by {
      forall f | f in mesh.faces ensures SamplableFace(st, mesh, f) {
      }
    }
  }

  /** The allocation arithmetic of that example: a unit face and a degenerate one. */
  lemma TwoFaceAllocations(faces: seq<Face>)
    requires |faces| == 2 && faces[0].area == 1.0 && faces[1].area == 0.0
    ensures TotalArea(faces) == 1.0 && Budget(1.0, 1.0) == 1
    ensures AllocationSum(faces, 1.0, 1) == 2
  {
    var last := faces[1..];
    assert last[1..] == [];
    assert TotalArea(last) == 0.0;
    assert Allocation(1.0, 1.0, 1) == 1;
    assert Allocation(0.0, 1.0, 1) == 1;
    assert AllocationSum(last, 1.0, 1) == 1;
  }
}
