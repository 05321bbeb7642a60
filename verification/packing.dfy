/** create_mesh_generator and the generator it writes: each sample becomes an 11-number
    tuple, and the generator's getRow spreads a tuple over the generator's 14 manifest columns,
    packing colour into spherical-harmonic DC terms and opacity into a clamped logit. */
module Packing {
  import opened Wrappers
  import opened Numeric
  import opened Scene
  import opened Orientation
  import opened Sampling

  /** The zeroth-order real spherical-harmonic normalisation constant. */
  const SH_C0: real := 0.28209479177387814

  /** The logit clamp that stands in for an infinite opacity. */
  const OpacityClamp: real := 20.0

  /** The inverse of packClr: a DC coefficient back as a colour channel. */
  function UnpackClr(p: real): real {
    p * SH_C0 + 0.5
  }

  /** packClr: a colour channel as a spherical-harmonic DC coefficient. */
  function PackClr(c: real): (p: real)
    ensures UnpackClr(p) == c
  {
    (c - 0.5) / SH_C0
  }

  lemma PackClrInverse(p: real)
    ensures PackClr(UnpackClr(p)) == p
  {
  }

  /** Mid grey is the zero coefficient, and packing keeps channels in order. */
  lemma PackClrOrder(c1: real, c2: real)
    ensures PackClr(0.5) == 0.0
    ensures c1 < c2 ==> PackClr(c1) < PackClr(c2)
  {
  }

  /** packOpacity: the logit, clamped to -20 at and below 0 and to 20 at and above 1. */
  function PackOpacity(m: Maths, o: real): (p: real)
    ensures o <= 0.0 ==> p == -OpacityClamp
    ensures 1.0 <= o ==> p == OpacityClamp
  {
    if o <= 0.0 then -20.0
    else if o >= 1.0 then 20.0
    else -m.log(1.0 / o - 1.0)
  }

  /** Strictly between 0 and 1 the packed opacity is a true logit: the logistic function
      1 / (1 + exp(-p)) gives the opacity back, given that exp undoes log. */
  lemma OpacityRoundTrip(m: Maths, o: real)
    requires ExpUndoesLog(m) && 0.0 < o < 1.0
    ensures 1.0 + m.exp(-PackOpacity(m, o)) == 1.0 / o
    ensures 1.0 / (1.0 + m.exp(-PackOpacity(m, o))) == o
  {
    var y := 1.0 / o - 1.0;
    assert 0.0 < y by {
      assert 1.0 / o > 1.0 by {
        assert (1.0 / o) * o == 1.0;
      }
    }
    assert -PackOpacity(m, o) == m.log(y);
    assert m.exp(m.log(y)) == y;
  }

  /** What one sample carries into the generator, before the per-column packing. */
  datatype SplatRecord = SplatRecord(position: Vec3, logScale: real, color: RGB, rotation: Quat)

  /** The sample tuple [x, y, z, log(scale), r, g, b, qx, qy, qz, qw]. */
  function ToTuple(r: SplatRecord): (t: seq<real>)
    ensures |t| == 11 && FromTuple(t) == r
  {
    [r.position.x, r.position.y, r.position.z, r.logScale,
     r.color.r, r.color.g, r.color.b,
     r.rotation.x, r.rotation.y, r.rotation.z, r.rotation.w]
  }

  function FromTuple(t: seq<real>): SplatRecord
    requires |t| == 11
  {
    SplatRecord(Vec3(t[0], t[1], t[2]), t[3], RGB(t[4], t[5], t[6]), Quat(t[7], t[8], t[9], t[10]))
  }

  lemma TupleRoundTrip(t: seq<real>)
    requires |t| == 11
    ensures ToTuple(FromTuple(t)) == t
  {
  }

  /** A sample's record: math.log of its scale, which raises unless the scale is positive,
      and the rotation of its normal. */
  function ToRecord(m: Maths, s: Sample): (r: Result<SplatRecord, Error>)
    ensures r.Success? <==> 0.0 < s.scale
    ensures r.Failure? ==> r.error == MathDomain
    ensures r.Success? ==> r.value.position == s.position && r.value.color == s.color
    ensures r.Success? ==> r.value.rotation == NormalToQuat(m, s.normal)
    ensures r.Success? && ExpUndoesLog(m) ==> m.exp(r.value.logScale) == s.scale
  {
    if s.scale <= 0.0 then Failure(MathDomain)
    else Success(SplatRecord(s.position, m.log(s.scale), s.color, NormalToQuat(m, s.normal)))
  }

  /** The tuples of the samples, in order. */
  function EncodeSamples(m: Maths, samples: seq<Sample>): (r: Result<seq<seq<real>>, Error>)
    ensures r.Success? <==> forall i :: 0 <= i < |samples| ==> 0.0 < samples[i].scale
    ensures r.Success? ==> |r.value| == |samples|
    ensures r.Failure? ==> r.error == MathDomain
    ensures r.Success? ==> forall i :: 0 <= i < |samples| ==>
              |r.value[i]| == 11 && ToRecord(m, samples[i]) == Success(FromTuple(r.value[i]))
  {
    if |samples| == 0 then Success([])
    else
      var first :- ToRecord(m, samples[0]);
      var rest :- EncodeSamples(m, samples[1..]);
      var t := ToTuple(first);
      assert forall i :: 1 <= i < |samples| ==> samples[i] == samples[1..][i - 1];
      assert forall i :: 1 <= i < |samples| ==> ([t] + rest)[i] == rest[i - 1];
      Success([t] + rest)
  }

  /** The generator class the converter loads: a record count and the sample tuples. */
  datatype Generator = Generator(count: nat, samples: seq<seq<real>>)

  predicate WellFormed(g: Generator) {
    g.count == |g.samples| && forall i :: 0 <= i < |g.samples| ==> |g.samples[i]| == 11
  }

  /** create_mesh_generator, up to writing the text out. */
  function CreateMeshGenerator(m: Maths, samples: seq<Sample>): (r: Result<Generator, Error>)
    ensures r.Success? <==> forall i :: 0 <= i < |samples| ==> 0.0 < samples[i].scale
    ensures r.Success? ==> WellFormed(r.value) && r.value.count == |samples|
    ensures r.Failure? ==> r.error == MathDomain
    ensures r.Success? ==> forall i :: 0 <= i < |samples| ==>
              ToRecord(m, samples[i]) == Success(FromTuple(r.value.samples[i]))
  {
    var tuples :- EncodeSamples(m, samples);
    Success(Generator(|samples|, tuples))
  }

  /** The fixed column manifest, in manifest order. */
  const ColumnNames: seq<string> := [
    "x", "y", "z",
    "scale_0", "scale_1", "scale_2",
    "f_dc_0", "f_dc_1", "f_dc_2", "opacity",
    "rot_0", "rot_1", "rot_2", "rot_3"]

  lemma ColumnManifest()
    ensures |ColumnNames| == 14
    ensures forall i, j :: 0 <= i < j < |ColumnNames| ==> ColumnNames[i] != ColumnNames[j]
  {
  }

  /** The row object getRow fills; its fields are the manifest's column names. */
  datatype Row = Row(
    x: real, y: real, z: real,
    scale_0: real, scale_1: real, scale_2: real,
    f_dc_0: real, f_dc_1: real, f_dc_2: real, opacity: real,
    rot_0: real, rot_1: real, rot_2: real, rot_3: real)

  /** The row's values in manifest order: Values(row)[i] is the column ColumnNames[i]. */
  function Values(row: Row): (vs: seq<real>)
    ensures |vs| == |ColumnNames|
  {
    [row.x, row.y, row.z,
     row.scale_0, row.scale_1, row.scale_2,
     row.f_dc_0, row.f_dc_1, row.f_dc_2, row.opacity,
     row.rot_0, row.rot_1, row.rot_2, row.rot_3]
  }

  /** getRow's body for one sample tuple. */
  function FillRow(m: Maths, t: seq<real>): (row: Row)
    requires |t| == 11
    ensures row.scale_0 == t[3] && row.scale_1 == t[3] && row.scale_2 == t[3]
    ensures row.opacity == OpacityClamp
    ensures UnpackRow(row) == t
  {
    Row(t[0], t[1], t[2],
        t[3], t[3], t[3],
        PackClr(t[4]), PackClr(t[5]), PackClr(t[6]), PackOpacity(m, 1.0),
        t[7], t[8], t[9], t[10])
  }

  /** Column by column, in manifest order: position, the log-scale three times, the packed
      colour channels, the clamped opacity of 1.0, then the quaternion. */
  lemma RowLayout(m: Maths, t: seq<real>)
    requires |t| == 11
    ensures var vs := Values(FillRow(m, t));
      && (forall i :: 0 <= i < 3 ==> vs[i] == t[i])
      && (forall i :: 3 <= i < 6 ==> vs[i] == t[3])
      && (forall i :: 6 <= i < 9 ==> vs[i] == PackClr(t[i - 2]))
      && vs[9] == OpacityClamp
      && (forall i :: 10 <= i < 14 ==> vs[i] == t[i - 3])
  {
  }

  /** A row undone column by column (packClr inverted, one scale column kept): the sample
      tuple it was filled from. */
  function UnpackRow(row: Row): (t: seq<real>)
    ensures |t| == 11
  {
    [row.x, row.y, row.z, row.scale_0,
     UnpackClr(row.f_dc_0), UnpackClr(row.f_dc_1), UnpackClr(row.f_dc_2),
     row.rot_0, row.rot_1, row.rot_2, row.rot_3]
  }

  /** getRow(index): samples[index] is undefined past the end, and reading it throws. */
  function GetRow(m: Maths, g: Generator, index: int): (r: Option<Row>)
    requires WellFormed(g)
    ensures r.Some? <==> 0 <= index < g.count
    ensures r.Some? ==> r.value.opacity == OpacityClamp
    ensures r.Some? ==> UnpackRow(r.value) == g.samples[index]
    ensures r.Some? ==> r.value.scale_1 == r.value.scale_0 && r.value.scale_2 == r.value.scale_0
  {
    if 0 <= index < |g.samples| then Some(FillRow(m, g.samples[index])) else None
  }

  /** Every row of a generator decodes to the record of the sample at that index:
      position, log-scale, unpacked colour and rotation, with opacity fixed at 20. */
  lemma RowsDecodeToRecords(m: Maths, samples: seq<Sample>, i: int)
    requires CreateMeshGenerator(m, samples).Success?
    requires 0 <= i < |samples|
    ensures var g := CreateMeshGenerator(m, samples).value;
      var row := GetRow(m, g, i);
      row.Some? && row.value.opacity == OpacityClamp
      && ToRecord(m, samples[i]) == Success(FromTuple(UnpackRow(row.value)))
  {
  }
}
