# Gaussian-splat export from Blender meshes, in Dafny

This project models the splat-building rules of `blender_splat_export.py`, a Blender
add-on that turns selected meshes into Gaussian splats. It covers four parts:

- **Sampling a mesh.** `sample_mesh` computes a sample budget from the total surface area
  and the density, and gives each face its area share with a floor of one sample. Each
  sample sits at deterministic barycentric weights inside the face's first triangle. A
  reflection folds weights whose sum exceeds one back into the triangle.
- **Choosing a colour.** `get_face_color` uses, in order of precedence: the average of the
  face's loop colours, then the base colour of the first Principled BSDF node of a node
  material, then white.
- **Orienting a splat.** `normal_to_quat` returns the identity when the normal is parallel
  or anti-parallel to +Z, that is when abs(n · +Z) > 0.999. Otherwise it returns the
  axis-angle quaternion about +Z × n by acos(n · +Z).
- **Writing the generator.** `create_mesh_generator` turns each sample into an 11-number
  tuple. The JavaScript generator it writes has a record count, a fixed 14-column
  manifest, `packClr`, `packOpacity`, and a `getRow` that spreads a tuple over the
  columns.

`execute` ties these together:

1. Keep the selected meshes. With none, cancel.
2. Sample each mesh. Its running index starts at zero.
3. Concatenate the samples and build the generator.
4. Finish, or cancel if sampling or packing raised or the converter exited non-zero.

Modules, one file each:

| module | file | content |
|---|---|---|
| `Wrappers` | `wrappers.dfy` | `Option` and `Result` |
| `Numeric` | `numeric.dfy` | vectors, Python's `int()` and `% 1.0`, the transcendental functions as a parameter |
| `Scene` | `scene.dfy` | faces, meshes, materials, operator settings, the exceptions |
| `FaceColor` | `face_color.dfy` | `get_face_color` |
| `Orientation` | `orientation.dfy` | `normal_to_quat` |
| `Sampling` | `sampling.dfy` | `sample_mesh` |
| `Packing` | `packing.dfy` | `create_mesh_generator` and the generator's `packClr`, `packOpacity`, `getRow` |
| `Exporter` | `exporter.dfy` | `execute` |

## Modelling choices

- **Transcendental functions.** `math.sqrt`, `math.log`, `math.acos`, `math.sin` and
  `math.cos` are function-valued fields of a `Maths` parameter, along with the
  exponential, as used by the logistic function 1 / (1 + exp(-p)). Nothing is assumed about them. A lemma
  that needs a fact states it as a precondition: `sqrt` is a non-negative square root,
  `exp` undoes `log`, or sin² + cos² = 1.
- **Python numerics.**
  - `int()` truncates toward zero (`Numeric.Trunc`).
  - `x % 1.0` is x − ⌊x⌋ (`Numeric.Frac`).
  - Reals are exact; there is no float rounding.
- **Exceptions are values.** Exceptions the splat-building rules can raise become `Result` failures, and
  `execute`'s `except` clause turns them into a cancellation:
  - `ZeroDivision`: total area 0 with faces present, or averaging the colours of a face
    with no loops.
  - `MathDomain`: the square root of a negative argument when the frame number is
    negative, or `math.log` of a non-positive splat scale.
  - `NotEnoughVertices`: unpacking `face.verts[:3]` for a face with fewer than three
    vertices.
- **Zero total area.** `sample_mesh` divides each face's area by the total area, so a mesh
  that has faces but no area raises `ZeroDivisionError` at the first face. A mesh with no
  faces never reaches the division and yields no samples.
- **The loop body as a value.** The two sampling loops (over faces, then over a face's
  share) are written once for a loop body and a per-face allotment, both given as
  function values. `Sampling.MeshBody` is the body `sample_mesh` uses and
  `Sampling.Allotment` its allotment, max(1, int(area / total × budget)). Properties of
  the loops' structure, such as the running index, where each face's block of samples
  sits and when the loops get through, are proved for any body and allotment, and then
  specialised.
- **Rows.** A row is a datatype whose fields are the manifest's column names. The
  quaternion is written `[qx, qy, qz, qw]` and `getRow` copies it into `rot_0..rot_3` in
  that order, so `rot_0` holds qx. The model keeps this order as written.
- **`getRow` past the end.** `samples[index]` is `undefined` there, and reading `s[0]` from
  it throws. The model returns `None` in that case.

## Model

| member | source | states |
|---|---|---|
| Numeric.Trunc | blender_splat_export.py:146 | `int()` truncates toward zero: for x ≥ 0 it is the greatest integer not above x, for x < 0 the least integer not below x |
| Numeric.TruncIsOdd | blender_splat_export.py:151 | truncation commutes with negation, which is what separates `int()` from flooring |
| Numeric.Frac | blender_splat_export.py:155-156 | `x % 1.0` lies in [0, 1) and differs from x by an integer |
| Numeric.Normalized | blender_splat_export.py:217 | the result is a multiple of the input (non-negative when sqrt is a square root), and of unit length when the input is non-zero and sqrt is a square root |
| FaceColor.FirstPrincipled | blender_splat_export.py:200-203 | nothing exactly when no node is `BSDF_PRINCIPLED`; otherwise the base RGB of a Principled node with no Principled node before it |
| FaceColor.ResolveColor | blender_splat_export.py:187-206 | the colour precedence: the loop-colour mean when vertex colours are on and the layer exists (a division by zero exactly when the face has no loops), else the first Principled base colour of a node material, else white, including for a node material with no Principled node |
| FaceColor.Mean | blender_splat_export.py:193-195 | each channel of the mean times the number of loops is that channel's sum over the loops |
| FaceColor.SumRgbAppend | blender_splat_export.py:193-195 | the channel sums add up over any split of the loops, and one loop contributes its own RGB |
| FaceColor.MeanOfUniform | blender_splat_export.py:193-195 | loops that all carry one RGB colour average to exactly that colour |
| FaceColor.MeanBounds | blender_splat_export.py:193-195 | loop colours in the unit cube average to a colour in the unit cube |
| FaceColor.MeanIgnoresAlpha | blender_splat_export.py:194-195 | only the first three channels count: loops that differ only in alpha average to the same colour |
| Orientation.NormalToQuat | blender_splat_export.py:211-228 | exactly the identity [0,0,0,1] when abs(n · +Z) > 0.999; otherwise a rotation whose axis is horizontal and perpendicular to n, with w = cos(acos(n_z)/2) |
| Orientation.AcosArgumentInDomain | blender_splat_export.py:214-218 | whenever `math.acos` is reached its argument is strictly inside (-1, 1) |
| Orientation.UnitNormalGivesUnitQuat | blender_splat_export.py:217-228 | for a unit normal the quaternion has unit length, given that sqrt is a square root and sin² + cos² = 1 |
| Orientation.ShortVerticalNormal | blender_splat_export.py:213-228 | the guard presumes a unit normal: a vertical normal shorter than 0.999 passes it and yields the axis-less quaternion (0, 0, 0, cos(acos(n_z)/2)) |
| Sampling.TotalAreaAppend | blender_splat_export.py:145 | the total area is additive over any split of the face list, and one face's total is its area |
| Sampling.Budget | blender_splat_export.py:146 | the budget is int(total area × density): for a non-negative product the greatest integer not above it, for a negative product the least integer not below it |
| Sampling.Allocation | blender_splat_export.py:151 | a face's allocation is exactly 1 when its proportional share of the budget is below 1, and otherwise the greatest integer not above that share, which is what max(1, int(share)) gives |
| Sampling.AllocationSum | blender_splat_export.py:149-153 | a mesh's faces together get at least one sample each |
| Sampling.ShareSumIsScaledArea | blender_splat_export.py:145-151 | the faces' proportional shares add up to the budget scaled by their part of the total area |
| Sampling.AllocationSumNearShares | blender_splat_export.py:149-153 | with non-negative areas the allocations stay within one sample per face of the sum of the shares, strictly above it minus the face count |
| Sampling.RawWeights | blender_splat_export.py:155-156 | before the reflection, r1 is the fractional part of sqrt(frame × 0.001 + 0.1 n) and r2 that of 0.7 n for running index n: each lies in [0, 1) and differs from its argument by an integer |
| Sampling.Reflect | blender_splat_export.py:158-160 | the reflected weights lie in the unit triangle; they are unchanged exactly when they already lay in it, and otherwise are (1 - r1, 1 - r2) |
| Sampling.Weights | blender_splat_export.py:155-160 | the final weights lie in the unit triangle; they are the raw weights when these sum to at most one, and otherwise both raw weights mirrored to (1 - r1, 1 - r2) |
| Sampling.Interpolate | blender_splat_export.py:163-164 | v0 + (v1 - v0) r1 + (v2 - v0) r2 is the convex combination with weights 1 - r1 - r2, r1, r2, so weights in the unit triangle give a point of the triangle |
| Sampling.ReflectionMirrorsThroughEdgeMidpoint | blender_splat_export.py:158-164 | a point and its reflected counterpart are mirror images through the midpoint of edge v1 v2 |
| Sampling.SampleAt | blender_splat_export.py:153-180 | one loop iteration succeeds exactly when the sqrt argument is non-negative, the face has three vertices and its colour resolves; the sample sits at v0 + (v1 - v0) r1 + (v2 - v0) r2 for the weights of its running index, inside the face's first triangle, with the face's colour, normal (or +Z) and the set size; with a non-negative sqrt argument and three vertices, a colour that does not resolve raises a division by zero |
| Sampling.OnlyFirstThreeVertices | blender_splat_export.py:163 | vertices beyond the third never influence a sample |
| Sampling.FaceSamples | blender_splat_export.py:153-180 | the inner loop succeeds exactly when every iteration does, producing k samples whose j-th is the body's output for running index start + j |
| Sampling.FaceSamplesFailure | blender_splat_export.py:153-180 | a failing inner loop raises the exception of its first failing iteration, all iterations before which succeed |
| Sampling.SampleFaces | blender_splat_export.py:149-180 | the outer loop raises only what its body raises, and otherwise produces as many samples as the faces' allotments add up to |
| Sampling.SampleFacesFailure | blender_splat_export.py:149-180 | a failing outer loop raises an exception that its body raises on one of the faces; a first face with a positive allotment whose first iteration fails decides the exception |
| Sampling.SampleMesh | blender_splat_export.py:123-185 | no faces gives no samples; faces with zero total area raise a division by zero; faces with non-zero total area and a negative frame raise a math domain error; a successful mesh has exactly as many samples as its faces' allocations add up to; failures are sampling exceptions |
| Sampling.SampleFacesIndexing | blender_splat_export.py:149-156 | the j-th sample produced by the loops is the body's output for running index done + j on one of the faces: the index does not restart per face |
| Sampling.SampleFacesSucceeds | blender_splat_export.py:149-153 | when each face either always or never samples and every face's allotment is positive, the loops get through exactly when every face always samples |
| Sampling.SampleFacesFirstNever | blender_splat_export.py:149-180 | when every face before face i always samples and face i, with a positive allotment, always raises e, the loops raise e |
| Sampling.SampleFacesBlocks | blender_splat_export.py:149-156 | the loops give face i a block of exactly its allotment, starting after the allotments of the faces before it, whose j-th sample is the body's output on face i for running index done + (samples before the block) + j |
| Sampling.SampleMeshBlocks | blender_splat_export.py:149-164 | a mesh's samples come face by face: face i's block has max(1, int(area_i / total × budget)) samples, starts after the allocations of the faces before it, and its j-th sample is one loop iteration on face i at running index (samples before the block) + j |
| Sampling.SampleMeshPositions | blender_splat_export.py:149-164 | sample j of face i's block lies on face i at v0 + (v1 - v0) r1 + (v2 - v0) r2 for the weights of its running index |
| Sampling.SampleMeshIndexing | blender_splat_export.py:153-156 | the j-th sample of a mesh is the loop body's output for running index j on one of the mesh's faces |
| Sampling.SamplesLieOnFaces | blender_splat_export.py:153-180 | every sample of a mesh lies in the first triangle of one of its faces, with that face's colour, its normal (or +Z) and the configured size |
| Sampling.SampleCountNearBudget | blender_splat_export.py:145-153 | with non-negative areas and density a mesh gets between budget - faces + 1 and budget + faces samples |
| Sampling.AllocationNearBudget | blender_splat_export.py:145-153 | the allocations of all faces of a mesh stay within one per face of int(total area × density) |
| Sampling.SampleMeshSucceeds | blender_splat_export.py:145-170 | sampling a mesh succeeds exactly when it has no faces, or its area is non-zero, the frame is not negative and every face has three vertices and a resolvable colour |
| Sampling.SampleMeshFirstUnsamplable | blender_splat_export.py:149-195 | with a non-zero area and a non-negative frame, the first face with fewer than three vertices or an unresolvable colour decides the exception: too few vertices for the former, a division by zero for the latter |
| Sampling.BudgetCanBeExceeded | blender_splat_export.py:146-151 | a unit face next to a degenerate face at density 1 has budget 1 and gets 2 samples |
| Packing.PackClr | blender_splat_export.py:263-264 | the inverse of packClr, p × SH_C0 + 0.5, gives the packed channel back |
| Packing.PackClrInverse | blender_splat_export.py:264 | packing the inverse of packClr applied to a coefficient gives that coefficient back |
| Packing.PackClrOrder | blender_splat_export.py:264 | mid grey packs to 0, and packing is strictly increasing |
| Packing.PackOpacity | blender_splat_export.py:265 | exactly -20 at and below 0 and exactly +20 at and above 1 |
| Packing.OpacityRoundTrip | blender_splat_export.py:265 | strictly between 0 and 1 the logistic function of the packed opacity is the opacity, given that exp undoes log |
| Packing.ToTuple | blender_splat_export.py:242-246 | the tuple has 11 slots and reads back to the record it was made from |
| Packing.TupleRoundTrip | blender_splat_export.py:242-246 | every 11-slot tuple is the tuple of the record it reads back to |
| Packing.ToRecord | blender_splat_export.py:236-239 | `math.log` of the scale raises exactly when the scale is not positive; otherwise position and colour are kept, the rotation is the normal's quaternion and exp of the log-scale is the scale |
| Packing.EncodeSamples | blender_splat_export.py:234-247 | encoding succeeds exactly when every scale is positive, giving one 11-slot tuple per sample, in order, each reading back to that sample's record |
| Packing.CreateMeshGenerator | blender_splat_export.py:252-270 | the count equals the number of samples, every tuple has 11 slots and reads back to its sample's record, and a non-positive scale raises |
| Packing.ColumnManifest | blender_splat_export.py:256-261 | the manifest has 14 columns, no two alike |
| Packing.FillRow | blender_splat_export.py:272-291 | the three scale columns repeat the log-scale, opacity is 20, and undoing the row column by column gives the tuple it was filled from |
| Packing.RowLayout | blender_splat_export.py:275-291 | column by column in manifest order: position, log-scale three times, the packed colour channels, opacity 20, the quaternion |
| Packing.GetRow | blender_splat_export.py:272-291 | a row exists exactly for indices below the count; it has opacity 20, all three scale columns equal, and reads back to the tuple at that index |
| Packing.RowsDecodeToRecords | blender_splat_export.py:267-291 | every row of a generator reads back to the record of the sample at its index |
| Exporter.SelectedMeshes | blender_splat_export.py:70 | no more meshes are kept than objects are selected, and nothing is kept exactly when no mesh is selected |
| Exporter.SelectedMeshesMembers | blender_splat_export.py:70 | every kept mesh is a selected mesh, and every selected mesh is kept |
| Exporter.SelectedMeshesAppend | blender_splat_export.py:70 | the filter keeps selection order: the meshes kept from a + b are those kept from a, then those kept from b |
| Exporter.SelectedMeshesSingle | blender_splat_export.py:70 | one selected mesh is kept once, and one selected non-mesh is dropped |
| Exporter.SampleAll | blender_splat_export.py:82-86 | all meshes sample exactly when each does, with at least one sample per face over all meshes; a failure is the exception of the first mesh that fails, all meshes before it sampling successfully |
| Exporter.SampleAllSplits | blender_splat_export.py:82-86 | the samples of all meshes are those of the meshes before mesh i, then mesh i's samples exactly as sampling it alone gives them (its running index restarts at zero), then those of the meshes after it |
| Exporter.SampleAllScale | blender_splat_export.py:84-86 | every sample of every selected mesh has the configured splat size |
| Exporter.Execute | blender_splat_export.py:68-116 | no mesh selected cancels with that reason; a sampling exception cancels with that exception; once sampling succeeds, a packing exception cancels, a non-zero exit code cancels with that code, and exit code 0 finishes with the generator; a finished export's generator has one 11-slot tuple per sample of the selected meshes, in order, each reading back to its sample's record |
| Exporter.PackingNeverFails | blender_splat_export.py:40-54 | within the operator's property bounds, packing never raises: once sampling succeeds, the export finishes exactly when the converter exits 0, with one record per sample |
| Exporter.EveryRowOpaque | blender_splat_export.py:286 | every row of a finished export has opacity 20 |
| Exporter.EveryRowSameScale | blender_splat_export.py:279-281 | every row of a finished export has log(splat scale) in all three scale columns |
| Exporter.SingleSmallFaceExport | blender_splat_export.py:149-164 | a single face whose budget truncates to zero still exports one white, opaque row at the running-index-0 position with the normal's rotation |

## Left out

- Blender access: `bpy`, `bmesh`, the depsgraph, `to_mesh`, face area and normal computation. A face is given as its area, vertices, normal and loop colours.
- `matrix_world`: positions and normals are taken as already in world space; the 4×4 and 3×3 transforms are not modelled.
- Process and file work: the temporary directory, writing the `.mjs` text, the `splat-transform` subprocess (its exit code is a parameter of `Exporter.Execute`), cleanup and report messages.
- Number formatting: the six-decimal rendering of each tuple entry and float rounding in general; reals are exact.
- Operator plumbing: property declarations, `register`/`unregister`, the menu entry and the file browser. The property bounds appear only as `Scene.ValidSettings`.
- The bodies of sqrt, log, exp, acos, sin and cos: they are uninterpreted parameters.
- Orientation.NormalToQuat: does not state that the rotation carries +Z onto the normal, because that needs axioms about sin, cos and acos.
- Numeric.Normalized: mathutils returns the zero vector for a zero vector; its cut-off for tiny but non-zero lengths is not modelled.
- Sampling.RawWeights: r1 is the fractional part of an uninterpreted square root, so no numeric value of r1 is stated beyond that.
