/** The operator's execute: sample every selected mesh, build the generator from all the
    samples, and hand it to the converter, whose exit code arrives as a parameter. */
module Exporter {
  import opened Wrappers
  import opened Numeric
  import opened Scene
  import opened Sampling
  import opened Packing
  import Orientation

  /** A selected scene object; only meshes are exported. */
  datatype SceneObject = MeshObject(mesh: Mesh) | OtherObject

  /** FINISHED with the generator that was written, or CANCELLED with the reason reported. */
  datatype Outcome = Finished(generator: Generator) | Cancelled(reason: Error)

  /** The meshes among the selected objects, in selection order. */
  function SelectedMeshes(objects: seq<SceneObject>): (ms: seq<Mesh>)
    ensures |ms| <= |objects|
    ensures |ms| == 0 <==> forall i :: 0 <= i < |objects| ==> objects[i].OtherObject?
  {
    if |objects| == 0 then []
    else
      assert forall i :: 1 <= i < |objects| ==> objects[i] == objects[1..][i - 1];
      Kept(objects[0]) + SelectedMeshes(objects[1..])
  }

  /** What one selected object contributes. */
  function Kept(o: SceneObject): seq<Mesh> {
    match o
    case MeshObject(mesh) => [mesh]
    case OtherObject => []
  }

  /** Every kept mesh comes from a selected mesh object, and every selected mesh is kept. */
  lemma {:induction false} SelectedMeshesMembers(objects: seq<SceneObject>)
    ensures var ms := SelectedMeshes(objects);
      && (forall i :: 0 <= i < |ms| ==> MeshObject(ms[i]) in objects)
      && (forall i :: 0 <= i < |objects| && objects[i].MeshObject? ==> objects[i].mesh in ms)
  {
    if |objects| > 0 {
      SelectedMeshesMembers(objects[1..]);
      assert forall i :: 1 <= i < |objects| ==> objects[i] == objects[1..][i - 1];
      assert forall o :: o in objects[1..] ==> o in objects;
    }
  }

  /** The comprehension keeps selection order and repeats: selecting a + b keeps a's meshes
      and then b's. */
  lemma {:induction false} SelectedMeshesAppend(a: seq<SceneObject>, b: seq<SceneObject>)
    ensures SelectedMeshes(a + b) == SelectedMeshes(a) + SelectedMeshes(b)
  {
    if |a| == 0 {
      assert a + b == b;
    } else {
      var ab := a + b;
      assert ab[0] == a[0] && ab[1..] == a[1..] + b;
      SelectedMeshesAppend(a[1..], b);
      var x, y, z := Kept(a[0]), SelectedMeshes(a[1..]), SelectedMeshes(b);
      assert SelectedMeshes(ab) == x + (y + z);
      assert SelectedMeshes(a) == x + y;
      MeshesRegroup(x, y, z);
    }
  }

  lemma MeshesRegroup(x: seq<Mesh>, y: seq<Mesh>, z: seq<Mesh>)
    ensures x + (y + z) == (x + y) + z
  {
  }

  /** A mesh object keeps its mesh, and any other object keeps nothing. */
  lemma SelectedMeshesSingle(x: Mesh)
    ensures SelectedMeshes([MeshObject(x)]) == [x]
    ensures SelectedMeshes([OtherObject]) == []
  {
    assert [MeshObject(x)][1..] == [] && [OtherObject][1..] == [];
  }

  function FaceCount(meshes: seq<Mesh>): nat {
    if |meshes| == 0 then 0 else |meshes[0].faces| + FaceCount(meshes[1..])
  }

  /** all_samples: each mesh sampled on its own (its running index starts again at zero)
      and the results concatenated in selection order. */
  function SampleAll(st: Settings, m: Maths, frame: int, meshes: seq<Mesh>): (r: Result<seq<Sample>, Error>)
    ensures r.Success? <==> forall i :: 0 <= i < |meshes| ==> SampleMesh(st, m, frame, meshes[i]).Success?
    ensures r.Success? ==> FaceCount(meshes) <= |r.value|
    ensures r.Failure? ==> Raised(r.error)
    ensures r.Failure? ==>
              exists i :: (0 <= i < |meshes|
                           && (forall k :: 0 <= k < i ==> SampleMesh(st, m, frame, meshes[k]).Success?)
                           && SampleMesh(st, m, frame, meshes[i]) == Failure(r.error))
  {
    if |meshes| == 0 then Success([])
    else
      var first :- SampleMesh(st, m, frame, meshes[0]);
      var rest :- SampleAll(st, m, frame, meshes[1..]);
      assert forall i :: 1 <= i < |meshes| ==> meshes[i] == meshes[1..][i - 1];
      Success(first + rest)
  }

  /** The samples of all meshes split around mesh i: those of the meshes before it, then
      mesh i's own samples exactly as sampling it alone gives them, then those of the meshes
      after it. */
  lemma {:induction false} SampleAllSplits(st: Settings, m: Maths, frame: int, meshes: seq<Mesh>, i: nat)
    requires SampleAll(st, m, frame, meshes).Success?
    requires i < |meshes|
    ensures SampleAll(st, m, frame, meshes[..i]).Success?
    ensures SampleMesh(st, m, frame, meshes[i]).Success?
    ensures SampleAll(st, m, frame, meshes[i + 1..]).Success?
    ensures SampleAll(st, m, frame, meshes).value
            == SampleAll(st, m, frame, meshes[..i]).value
               + SampleMesh(st, m, frame, meshes[i]).value
               + SampleAll(st, m, frame, meshes[i + 1..]).value
  {
    var first := SampleMesh(st, m, frame, meshes[0]).value;
    if i == 0 {
      assert meshes[..0] == [] && meshes[1..] == meshes[0 + 1..];
    } else {
      var tail := meshes[1..];
      SampleAllSplits(st, m, frame, tail, i - 1);
      var front := meshes[..i];
      assert front[0] == meshes[0] && front[1..] == tail[..i - 1];
      assert tail[i - 1] == meshes[i] && tail[i - 1 + 1..] == meshes[i + 1..];
      var a := SampleAll(st, m, frame, tail[..i - 1]).value;
      var b := SampleMesh(st, m, frame, meshes[i]).value;
      var c := SampleAll(st, m, frame, meshes[i + 1..]).value;
      assert SampleAll(st, m, frame, front).value == first + a;
      assert SampleAll(st, m, frame, meshes).value == first + (a + b + c);
      Regroup(first, a, b, c);
    }
  }

  lemma Regroup(w: seq<Sample>, x: seq<Sample>, y: seq<Sample>, z: seq<Sample>)
    ensures w + (x + y + z) == (w + x) + y + z
  {
  }

  /** Every sample of every selected mesh has the configured splat size. */
  lemma {:induction false} SampleAllScale(st: Settings, m: Maths, frame: int, meshes: seq<Mesh>)
    requires SampleAll(st, m, frame, meshes).Success?
    ensures var ss := SampleAll(st, m, frame, meshes).value;
      forall j :: 0 <= j < |ss| ==> ss[j].scale == st.splatScale
  {
    if |meshes| > 0 {
      var first := SampleMesh(st, m, frame, meshes[0]).value;
      var rest := SampleAll(st, m, frame, meshes[1..]).value;
      assert SampleAll(st, m, frame, meshes).value == first + rest;
      SamplesHaveSplatScale(st, m, frame, meshes[0]);
      SampleAllScale(st, m, frame, meshes[1..]);
      ConcatScale(first, rest, st.splatScale);
    }
  }

  lemma ConcatScale(a: seq<Sample>, b: seq<Sample>, scale: real)
    requires forall j :: 0 <= j < |a| ==> a[j].scale == scale
    requires forall j :: 0 <= j < |b| ==> b[j].scale == scale
    ensures forall j :: 0 <= j < |a + b| ==> (a + b)[j].scale == scale
  {
    assert forall j :: |a| <= j < |a + b| ==> (a + b)[j] == b[j - |a|];
  }

  lemma SamplesHaveSplatScale(st: Settings, m: Maths, frame: int, mesh: Mesh)
    requires SampleMesh(st, m, frame, mesh).Success?
    ensures forall j :: 0 <= j < |SampleMesh(st, m, frame, mesh).value| ==>
              SampleMesh(st, m, frame, mesh).value[j].scale == st.splatScale
  {
    SamplesLieOnFaces(st, m, frame, mesh);
  }

  /** execute: no mesh selected cancels; an exception while sampling or packing cancels;
      a converter that exits non-zero cancels; otherwise the export finishes. */
  function Execute(st: Settings, m: Maths, frame: int, objects: seq<SceneObject>, converterExit: int): (r: Outcome)
    ensures |SelectedMeshes(objects)| == 0 ==> r == Cancelled(NoMeshSelected)
    ensures r.Finished? ==> converterExit == 0 && WellFormed(r.generator)
    ensures r.Finished? ==> FaceCount(SelectedMeshes(objects)) <= r.generator.count
    ensures r.Cancelled? && r.reason.ConverterFailed? ==> r.reason.exitCode == converterExit != 0
    ensures var samples := SampleAll(st, m, frame, SelectedMeshes(objects));
      |SelectedMeshes(objects)| > 0 && samples.Failure? ==> r == Cancelled(samples.error)
    ensures var samples := SampleAll(st, m, frame, SelectedMeshes(objects));
      |SelectedMeshes(objects)| > 0 && samples.Success? ==>
        var gen := CreateMeshGenerator(m, samples.value);
        && (gen.Failure? ==> r == Cancelled(MathDomain))
        && (gen.Success? && converterExit != 0 ==> r == Cancelled(ConverterFailed(converterExit)))
        && (gen.Success? && converterExit == 0 ==> r == Finished(gen.value))
    ensures r.Finished? ==>
      var samples := SampleAll(st, m, frame, SelectedMeshes(objects));
      && samples.Success? && WellFormed(r.generator) && r.generator.count == |samples.value|
      && forall i :: 0 <= i < r.generator.count ==>
           ToRecord(m, samples.value[i]) == Success(FromTuple(r.generator.samples[i]))
  {
    var meshes := SelectedMeshes(objects);
    if |meshes| == 0 then Cancelled(NoMeshSelected)
    else
      match SampleAll(st, m, frame, meshes)
      case Failure(e) => Cancelled(e)
      case Success(samples) =>
        match CreateMeshGenerator(m, samples)
        case Failure(e) => Cancelled(e)
        case Success(g) =>
          if converterExit != 0 then Cancelled(ConverterFailed(converterExit)) else Finished(g)
  }

  /** With the operator's property bounds in force, packing never raises: only sampling and
      the converter can stop an export of selected meshes. */
  lemma PackingNeverFails(st: Settings, m: Maths, frame: int, objects: seq<SceneObject>, converterExit: int)
    requires ValidSettings(st)
    requires |SelectedMeshes(objects)| > 0
    requires SampleAll(st, m, frame, SelectedMeshes(objects)).Success?
    ensures var r := Execute(st, m, frame, objects, converterExit);
      && (r.Finished? <==> converterExit == 0)
      && (converterExit != 0 ==> r == Cancelled(ConverterFailed(converterExit)))
      && (r.Finished? ==> r.generator.count == |SampleAll(st, m, frame, SelectedMeshes(objects)).value|)
  {
    var samples := SampleAll(st, m, frame, SelectedMeshes(objects)).value;
    SampleAllScale(st, m, frame, SelectedMeshes(objects));
    assert CreateMeshGenerator(m, samples).Success?;
  }

  /** Every row of a finished export has opacity 20: getRow always packs 1.0. */
  lemma EveryRowOpaque(st: Settings, m: Maths, frame: int, objects: seq<SceneObject>, converterExit: int, i: int)
    requires Execute(st, m, frame, objects, converterExit).Finished?
    requires 0 <= i < Execute(st, m, frame, objects, converterExit).generator.count
    ensures var g := Execute(st, m, frame, objects, converterExit).generator;
      GetRow(m, g, i).Some? && GetRow(m, g, i).value.opacity == OpacityClamp
  {
  }

  /** Every row of a finished export carries the same size: all three scale columns hold
      the log of the configured splat scale. */
  lemma EveryRowSameScale(st: Settings, m: Maths, frame: int, objects: seq<SceneObject>, converterExit: int, i: int)
    requires Execute(st, m, frame, objects, converterExit).Finished?
    requires 0 <= i < Execute(st, m, frame, objects, converterExit).generator.count
    ensures var g := Execute(st, m, frame, objects, converterExit).generator;
      && GetRow(m, g, i).Some?
      && GetRow(m, g, i).value.scale_0 == m.log(st.splatScale)
      && GetRow(m, g, i).value.scale_1 == m.log(st.splatScale)
      && GetRow(m, g, i).value.scale_2 == m.log(st.splatScale)
  {
    var meshes := SelectedMeshes(objects);
    var samples := SampleAll(st, m, frame, meshes).value;
    var g := CreateMeshGenerator(m, samples).value;
    assert Execute(st, m, frame, objects, converterExit).generator == g;
    SampleAllScale(st, m, frame, meshes);
    assert samples[i].scale == st.splatScale;
    assert ToRecord(m, samples[i]) == Success(FromTuple(g.samples[i]));
    assert g.samples[i][3] == FromTuple(g.samples[i]).logScale;
  }

  /** A mesh of one small face, with no colour layer and no material, whose budget
      truncates to zero: the floor of one still gives it exactly one sample, at running
      index 0, coloured white and fully opaque. */
  lemma SingleSmallFaceExport(st: Settings, m: Maths, frame: int, face: Face)
    requires 0 <= frame && 3 <= |face.verts| && 0.0 < face.area
    requires 0.0 <= face.area * st.sampleDensity < 1.0 && 0.0 < st.splatScale
    ensures var mesh := Mesh([face], false, None);
      var r := Execute(st, m, frame, [MeshObject(mesh)], 0);
      var w := Weights(m, frame, 0);
      var pos := Interpolate(face.verts[0], face.verts[1], face.verts[2], w.0, w.1);
      var q := Orientation.NormalToQuat(m, if st.useNormals then face.normal else Up);
      && r.Finished? && r.generator.count == 1
      && GetRow(m, r.generator, 0) == Some(Row(
           pos.x, pos.y, pos.z,
           m.log(st.splatScale), m.log(st.splatScale), m.log(st.splatScale),
           PackClr(1.0), PackClr(1.0), PackClr(1.0), OpacityClamp,
           q.x, q.y, q.z, q.w))
  {
    var mesh := Mesh([face], false, None);
    var w := Weights(m, frame, 0);
    var pos := Interpolate(face.verts[0], face.verts[1], face.verts[2], w.0, w.1);
    var normal := if st.useNormals then face.normal else Up;
    var sample := Sample(pos, White, normal, st.splatScale);
    assert SelectedMeshes([MeshObject(mesh)]) == [mesh];
    SingleSmallFaceSampling(st, m, frame, face);
    assert [mesh][1..] == [];
    assert SampleAll(st, m, frame, [mesh][1..]) == Success([]);
    assert [sample] + [] == [sample];
    assert SampleAll(st, m, frame, [mesh]) == Success([sample]);
    var gen := CreateMeshGenerator(m, [sample]);
    assert gen.Success?;
    var g := gen.value;
    assert Execute(st, m, frame, [MeshObject(mesh)], 0) == Finished(g);
    var rec := SplatRecord(pos, m.log(st.splatScale), White, Orientation.NormalToQuat(m, normal));
    assert ToRecord(m, sample) == Success(rec);
    assert FromTuple(g.samples[0]) == rec;
    TupleRoundTrip(g.samples[0]);
    assert GetRow(m, g, 0) == Some(FillRow(m, ToTuple(rec)));
  }

  lemma SingleSmallFaceSampling(st: Settings, m: Maths, frame: int, face: Face)
    requires 0 <= frame && 3 <= |face.verts| && 0.0 < face.area
    requires 0.0 <= face.area * st.sampleDensity < 1.0
    ensures var w := Weights(m, frame, 0);
      var pos := Interpolate(face.verts[0], face.verts[1], face.verts[2], w.0, w.1);
      var normal := if st.useNormals then face.normal else Up;
      SampleMesh(st, m, frame, Mesh([face], false, None)) == Success([Sample(pos, White, normal, st.splatScale)])
  {
    var mesh := Mesh([face], false, None);
    var w := Weights(m, frame, 0);
    var pos := Interpolate(face.verts[0], face.verts[1], face.verts[2], w.0, w.1);
    var normal := if st.useNormals then face.normal else Up;
    var sample := Sample(pos, White, normal, st.splatScale);
    assert mesh.faces[1..] == [];
    var total := TotalArea(mesh.faces);
    assert TotalArea(mesh.faces[1..]) == 0.0;
    assert total == face.area;
    var budget := Budget(total, st.sampleDensity);
    var x := total * st.sampleDensity;
    assert x == face.area * st.sampleDensity;
    assert 0.0 <= x < 1.0;
    assert Trunc(x) as real <= x;
    assert budget == Trunc(x) == 0;
    assert Allocation(face.area, total, budget) == 1;
    assert SampleAt(st, m, frame, mesh, face, 0) == Success(sample);
    var at := MeshBody(st, m, frame, mesh);
    assert at(face, 0) == SampleAt(st, m, frame, mesh, face, 0);
    var fs := FaceSamples(at, face, 0, 1);
    assert fs.Success? && |fs.value| == 1 && fs.value[0] == sample;
    assert fs.value == [sample];
    assert SampleFaces(at, Allotment(total, budget), mesh.faces[1..], 1) == Success([]);
  }
}
