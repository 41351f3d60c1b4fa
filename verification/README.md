# jax3dp3 geometry core in Dafny

This project models the geometric core of jax3dp3, a JAX library for 3D scene perception, over exact
real arithmetic. It covers three pure Python modules.

- `jax3dp3/transforms_3d.py`: homogeneous 4x4 pose constructors, `apply_transform`, Rodrigues'
  axis-angle rotation and the conversions between unit quaternions and rotation matrices
  (`transforms.dfy`, on top of `linalg.dfy`).
- `jax3dp3/rendering.py`: the analytic ray-cast renderers of boxes made of face planes
  (`render_planes`, `render_planes_rays`, `render_planes_multiobject`,
  `render_planes_multiobject_rays`) and the point-cloud splatter `render_cloud_at_pose`
  (`rendering.dfy`).
- `jax3dp3/scene_graph.py`: box contact planes, contact transforms and the Jacobi-style pose
  propagation of `get_poses` (`scene_graph.dfy`).

Every renderer picks, per pixel, the nearest valid candidate with a numerical trick:
- `jnp.argmax` of a masked score `(far - z) * valid`, or
- `jnp.argmin` over depths whose invalid entries are overwritten by a sentinel.

`selection.dfy` defines the nearest valid candidate directly (`NearestValid`). It proves both tricks
agree with it whenever some valid candidate is nearer than the constant, and says what they
return otherwise. The renderers are then stated in terms of that rule.

`sqrt`, `sin`, `cos`, `pi` and `jnp.linalg.inv` have no closed form over the reals. They are the
fields of a `Primitives` record passed as a parameter (`numerics.dfy`), and what a proof may assume
about them is written as a law:
- `SqrtLaw`: the non-negative root;
- `TrigLaw`: sin^2 + cos^2 = 1 at every angle;
- `InverseLaw`: on a rigid pose, `inv` is `[R^T | -R^T t]`.

Batching with `vmap`, `vectorize` and `einsum` is modelled as one function per pixel, ray or edge,
lifted with sequence comprehensions. Nested `seq`s stand for the `(h, w, ...)` image arrays.

Products inside Rodrigues' matrix and the quaternion formulas are written with `Numerics.Mul`, one
function symbol per product, so that their algebraic identities can be proved entry by entry.

Rows marked "helper" are lemmas that read one value off a definition, or one step of a larger
proof; they carry no promise of the source beyond the row they serve.

## Model

| member | source | states |
|---|---|---|
| Transforms.FromPos | jax3dp3/transforms_3d.py:5-8 | rotation block is the identity, translation column is t, bottom row is (0, 0, 0, 1) |
| Transforms.FromRotAndPos | jax3dp3/transforms_3d.py:15-18 | rotation block is R, translation column is t, bottom row is (0, 0, 0, 1) |
| Transforms.AffineDecomposition | jax3dp3/transforms_3d.py:15-18 | every matrix with bottom row (0, 0, 0, 1) is rebuilt exactly from its rotation block and translation column |
| Transforms.FromPosCompose | jax3dp3/transforms_3d.py:5-8 | translating after an affine pose adds t to its translation and keeps its rotation block |
| Transforms.Direction | jax3dp3/transforms_3d.py:23 | axis / norm(axis) has unit length for every non-zero axis |
| Numerics.NormPositive | jax3dp3/transforms_3d.py:23 | the norm of a non-zero vector is positive and squares to v . v |
| Transforms.FromAxisAngle | jax3dp3/transforms_3d.py:20-33 | the rotation block is the Rodrigues matrix of the unit direction; translation is zero; bottom row is (0, 0, 0, 1) |
| Transforms.FromAxisAngleRigid | jax3dp3/transforms_3d.py:20-33 | with sin^2 + cos^2 = 1, the pose is rigid for every non-zero axis and every angle: its rotation block satisfies R^T R = I and its bottom row is (0, 0, 0, 1) |
| Transforms.RodriguesOrthonormal | jax3dp3/transforms_3d.py:25-30 | the matrix cos I + (1 - cos) d d^T + sin [d]x of a unit direction d satisfies R^T R = I whenever cos^2 + sin^2 = 1 |
| Transforms.RodriguesGram | jax3dp3/transforms_3d.py:25-30 | helper: the columns of that matrix have unit length and are pairwise orthogonal |
| Transforms.GramIsIdentity | jax3dp3/transforms_3d.py:25-30 | helper: unit, pairwise orthogonal columns give R^T R = I |
| Transforms.FromAxisAngleNoTurn | jax3dp3/transforms_3d.py:20-33 | when sin = 0 and cos = 1 the result is the 4x4 identity, for every axis |
| Transforms.ApplyTransform | jax3dp3/transforms_3d.py:38-44 | same number and order of points; point i becomes the first three entries of T . [p_i; 1] |
| Transforms.ApplyPointRigidForm | jax3dp3/transforms_3d.py:38-44 | applying a pose to a point is R p + t |
| Transforms.ApplyFromPos | jax3dp3/transforms_3d.py:38-44 | applying transform_from_pos(t) adds t to every point |
| Transforms.ApplyIdentity | jax3dp3/transforms_3d.py:38-44 | applying the 4x4 identity leaves the point list unchanged |
| Transforms.ApplyPointCompose | jax3dp3/transforms_3d.py:38-44 | applying A, then B, to one point is applying B . A, when A's bottom row is (0, 0, 0, 1) |
| Transforms.ApplyCompose | jax3dp3/transforms_3d.py:38-44 | apply_transform(apply_transform(X, A), B) == apply_transform(X, B . A) for affine A |
| Transforms.QuatToRot | jax3dp3/transforms_3d.py:46-84 | definition: the nine entries as written; contract: the trace is 4 q0^2 + 2 |q|^2 - 3, and the skew part (r21 - r12, r02 - r20, r10 - r01) is 4 q0 (q1, q2, q3) |
| Transforms.QuatSignInvariant | jax3dp3/transforms_3d.py:46-84 | q and -q give the same rotation matrix, for every q |
| Transforms.QuatIdentity | jax3dp3/transforms_3d.py:46-84 | the quaternion (1, 0, 0, 0) gives the identity rotation |
| Transforms.QuatToRotOrthonormal | jax3dp3/transforms_3d.py:46-84 | for a unit quaternion the matrix R satisfies R^T R = I |
| Transforms.Case0 | jax3dp3/transforms_3d.py:88-98 | case0's t is its own component q1 (definition; its value on a rotation is Transforms.Case0OfUnit) |
| Transforms.Case1 | jax3dp3/transforms_3d.py:100-110 | case1's t is its own component q2 (definition; see Transforms.Case1OfUnit) |
| Transforms.Case2 | jax3dp3/transforms_3d.py:112-122 | case2's t is its own component q3 (definition; see Transforms.Case2OfUnit) |
| Transforms.Case3 | jax3dp3/transforms_3d.py:124-134 | case3's t is its own component q0 (definition; see Transforms.Case3OfUnit) |
| Transforms.SelectCase | jax3dp3/transforms_3d.py:136-151 | for every input matrix the chosen t is at least 1, so the sqrt and the division at line 157 are defined; the chosen case's own component equals t |
| Transforms.FromCase | jax3dp3/transforms_3d.py:157 | q * 0.5 / sqrt(t), for t >= 1: sqrt(t) >= 1, scaling the result by 2 sqrt(t) gives the case's vector back, and the component equal to t becomes at least 1/2 |
| Transforms.RotToQuat | jax3dp3/transforms_3d.py:86-157 | for every 3x3 matrix some component of the result is at least 1/2, so the result is never zero (its round trip is Transforms.QuatRoundTrip) |
| Transforms.Case0OfUnit | jax3dp3/transforms_3d.py:88-98 | on the matrix of a unit quaternion q, case0 gives t = 4 q1^2 and the vector 4 q1 q |
| Transforms.Case1OfUnit | jax3dp3/transforms_3d.py:100-110 | on the matrix of a unit quaternion q, case1 gives t = 4 q2^2 and the vector 4 q2 q |
| Transforms.Case2OfUnit | jax3dp3/transforms_3d.py:112-122 | on the matrix of a unit quaternion q, case2 gives t = 4 q3^2 and the vector 4 q3 q |
| Transforms.Case3OfUnit | jax3dp3/transforms_3d.py:124-134 | on the matrix of a unit quaternion q, case3 gives t = 4 q0^2 and the vector 4 q0 q |
| Transforms.FromScaledCase | jax3dp3/transforms_3d.py:157 | q * 0.5 / sqrt(t) on a case 4 c q with t = 4 c^2 gives q when c > 0 and -q otherwise |
| Transforms.QuatRoundTrip | jax3dp3/transforms_3d.py:86-157 | for a unit quaternion q, rotation_matrix_to_quaternion(quaternion_to_rotation_matrix(q)) is q or -q |
| Selection.FirstArgMax | jax3dp3/rendering.py:55 | jnp.argmax: an in-range index holding the maximum, with every earlier entry strictly smaller |
| Selection.FirstArgMin | jax3dp3/rendering.py:96 | jnp.argmin: an in-range index holding the minimum, with every earlier entry strictly larger |
| Selection.NearestValid | jax3dp3/rendering.py:53-55 | reference selection rule: None exactly when nothing is valid, otherwise the first valid candidate of least depth |
| Selection.NearestValidUnique | jax3dp3/rendering.py:53-55 | at most one index is the first valid candidate of least depth |
| Selection.MaskedArgMax | jax3dp3/rendering.py:54-55 | argmax of (far - z) * valid is the nearest valid candidate whenever one lies nearer than far; it is index 0 when nothing is valid, and when nothing valid is nearer than far and candidate 0 is invalid; in every case it is the first index of greatest score |
| Selection.MaskedWinner | jax3dp3/rendering.py:54-55 | the masked argmax equals NearestValid when some valid candidate lies nearer than far |
| Selection.SentinelArgMin | jax3dp3/rendering.py:93-96 | argmin over depths with invalid entries set to the sentinel is the nearest valid candidate when one lies nearer than the sentinel; the chosen depth is below the sentinel exactly in that case |
| Selection.SentinelWinner | jax3dp3/rendering.py:93-96 | the sentinel argmin equals NearestValid, at a depth below the sentinel, when some valid candidate lies nearer than the sentinel |
| Rendering.PixelDir | jax3dp3/rendering.py:38-40 | the ray of row i, column j has z = 1 and lands back on column j and row i once scaled by (fx, fy) and shifted by (cx, cy) |
| Rendering.PixelDirs | jax3dp3/rendering.py:38-40 | an h x w grid whose entry (i, j) is the direction of row i, column j |
| Rendering.RayParam | jax3dp3/rendering.py:83-86 | no parameter exactly when l . n + 1e-10 is zero; otherwise d (l . n + 1e-10) = (p_0 - l_0) . n |
| Rendering.Intersect | jax3dp3/rendering.py:83-92 | the hit is homogeneous and lies at l_0 + d l; it is valid exactly when its local x and y are strictly inside the half-extents; no parameter gives an invalid hit |
| Rendering.HitNearPlane | jax3dp3/rendering.py:83-87 | the hit lies on the face plane up to the guard: its offset from p_0 along n is -1e-10 d |
| Rendering.OnFaceRigid | jax3dp3/rendering.py:89-92 | for a rigid face pose the face test compares the offset from the face centre along the face's x and y axes with the half-extents, strictly |
| Rendering.Posed | jax3dp3/rendering.py:69 | one pose . plane per face, in face order |
| Rendering.Hits | jax3dp3/rendering.py:95 | one hit per face, in face order |
| Rendering.Candidates | jax3dp3/rendering.py:54 | each hit as a (depth, valid) candidate, in order |
| Rendering.MaskedPixel | jax3dp3/rendering.py:53-61 | the zero 4-vector exactly when no hit is valid, else homogeneous; the nearest valid hit whenever one is nearer than far; when hits are valid but none is nearer than far and hit 0 is invalid, hit 0's point, invalid as it is; always one of the hits or zero |
| Rendering.Masked | jax3dp3/rendering.py:93 | a valid hit is kept and an invalid one becomes the all-10000 vector |
| Rendering.SentinelPixel | jax3dp3/rendering.py:96-99 | zero exactly when no valid hit is nearer than 10000, otherwise the nearest valid hit |
| Rendering.RenderPlanes | jax3dp3/rendering.py:34-63 | an h x w image whose pixel (i, j) is the masked selection, with far 1000, over the posed faces hit by the ray of row i, column j |
| Rendering.RenderPlanesAt | jax3dp3/rendering.py:34-63 | helper: pixel (i, j) of render_planes, read off the image |
| Rendering.RenderPlanesRays | jax3dp3/rendering.py:67-100 | one output per ray, in order, each the sentinel selection over the posed faces |
| Rendering.PlanesAgreeWithRays | jax3dp3/rendering.py:67-100 | on the pixel's own ray, render_planes and render_planes_rays give the same point whenever a valid hit lies nearer than 1000 |
| Rendering.Flatten | jax3dp3/rendering.py:111-112 | reshape(-1, ...) of m blocks of p entries has m * p entries |
| Rendering.FlattenAt | jax3dp3/rendering.py:111-112 | helper: entry a of block m sits at flat index m * p + a |
| Rendering.SingleObject | jax3dp3/rendering.py:111-112 | with one object the flattened faces and extents are that object's own |
| Rendering.MultiPlanes | jax3dp3/rendering.py:111 | the faces of every object, p per object |
| Rendering.MultiPlanesAt | jax3dp3/rendering.py:111 | helper: face a of object m is at flat index m * p + a, posed as poses[m] . planes[m][a] |
| Rendering.InFront | jax3dp3/rendering.py:126 | same points; a hit stays valid exactly when it was valid and has z > 0 |
| Rendering.InFrontKeepsNearest | jax3dp3/rendering.py:126-128 | dropping hits behind the camera keeps a nearest valid hit that is in front of it |
| Rendering.MultiPixel | jax3dp3/rendering.py:126-134 | zero exactly when no hit is both valid and in front of the camera, else homogeneous; when a valid hit in front lies nearer than 20000, the nearest valid hit in front, with z > 0; when hits in front exist but none nearer than 20000 and hit 0 is not in front, hit 0's point; always one of the hits or zero |
| Rendering.MultiBehindCamera | jax3dp3/rendering.py:126-134 | with hit 0 valid at z = -5 and hit 1 valid at z = 25000, the masked selection over the in-front hits shows (0, 0, -5, 1), a point behind the camera |
| Rendering.MultiPixelAgrees | jax3dp3/rendering.py:126-134 | over the same faces the multi-object pixel equals the single-object pixel when the nearest valid hit has 0 < z < 1000 |
| Rendering.RenderMultiobjectRays | jax3dp3/rendering.py:110-136 | one output per given direction, each the multi-object selection over all faces of all objects |
| Rendering.RenderMultiobject | jax3dp3/rendering.py:103-108 | render_planes_multiobject_rays over the camera's own pixel directions |
| Rendering.RenderMultiobjectAt | jax3dp3/rendering.py:103-108 | helper: pixel (i, j) of render_planes_multiobject, read off the image |
| Rendering.MultiobjectAgreesWithPlanes | jax3dp3/rendering.py:103-136 | with one object, render_planes_multiobject equals render_planes at every pixel whose nearest valid hit has 0 < z < 1000 |
| Rendering.RoundHalfEven | jax3dp3/rendering.py:24 | jnp.round: within 0.5 of x, and an exact half goes to the even integer |
| Rendering.RoundWhole | jax3dp3/rendering.py:24 | rounding leaves a whole number unchanged |
| Rendering.Project | jax3dp3/rendering.py:21-24 | no pixel exactly when z = 0; otherwise a pixel whose column and row lie within 0.5 of x/z fx + cx and y/z fy + cy |
| Rendering.ProjectOf | jax3dp3/rendering.py:21-24 | helper: a point off the camera plane is drawn at the rounded (x/z fx + cx, y/z fy + cy) |
| Rendering.ProjectAlongPixelDir | jax3dp3/rendering.py:21-24 | every point on the ray of row i, column j, other than the camera centre, projects back to row i, column j |
| Rendering.RenderedPointProjectsBack | jax3dp3/rendering.py:21-24 | a non-zero point render_planes shows at row i, column j, off the camera plane, projects back to that pixel |
| Rendering.Stacked | jax3dp3/rendering.py:18-19 | the sentinel (-1, -1, -1) at index 0, then the posed cloud in order |
| Rendering.Matches | jax3dp3/rendering.py:26-27 | a point that passes the smudge test is off the camera plane, the smudge is non-negative, and its unrounded image coordinates lie within smudge + 1/2 of column j and row i |
| Rendering.CloudCandidates | jax3dp3/rendering.py:27-28 | a stacked point is valid at a pixel exactly when it projects within the smudge on both axes |
| Rendering.CloudPixelAsWritten | jax3dp3/rendering.py:17-31 | as written: the nearest matching stacked point when one lies nearer than 1000, and the sentinel whenever none does (nothing matches, or every match lies at depth 1000 or more) |
| Rendering.SentinelShadow | jax3dp3/rendering.py:19-30 | as written: at pixel (round(fy + cy), round(fx + cx)) the sentinel wins over every matching point deeper than -1 |
| Rendering.SentinelHidesPoint | jax3dp3/rendering.py:19-30 | as written: with fx = fy = 1, cx = cy = 0, no smudge and the point (1, 1, 1), the point lands on row 1, column 1, and that pixel still shows the sentinel |
| Rendering.CloudOnlyCandidates | jax3dp3/rendering.py:27-28 | the sentinel never matches; every cloud point matches as before |
| Rendering.CloudPixel | jax3dp3/rendering.py:17-31 | corrected: the output is the sentinel or one of the posed cloud points |
| Rendering.CloudPixelNearest | jax3dp3/rendering.py:17-31 | corrected: the sentinel when no cloud point nearer than 1000 matches; otherwise the nearest match: posed cloud point a, matching and nearer than 1000, no matching point nearer, every earlier matching point strictly farther (argmax keeps the first) |
| Rendering.NearestMatchUnique | jax3dp3/rendering.py:28-31 | the nearest match of a pixel is unique, in its index and its point, so the corrected pixel is determined |
| Rendering.NearestIsMatch | jax3dp3/rendering.py:27-31 | the masked-argmax winner with the sentinel kept out is the nearest matching posed cloud point |
| Rendering.NearestCandidateMatches | jax3dp3/rendering.py:27-31 | helper: the nearest valid candidate k, nearer than 1000, is cloud point k - 1 and the nearest match |
| Rendering.ShiftedNearest | jax3dp3/rendering.py:27-30 | helper: with candidate 0 never valid, the nearest valid candidate k is entry k - 1 of the shifted list, nearest among those that pass and strictly nearer than the earlier ones |
| Rendering.CloudAgreesOffSentinel | jax3dp3/rendering.py:19-30 | at every pixel the sentinel does not project to, the corrected and as-written pixels agree |
| Rendering.RenderCloudAtPose | jax3dp3/rendering.py:17-31 | an h x w image whose pixel (i, j) is the corrected cloud pixel |
| SceneGraph.JaxIndex | jax3dp3/scene_graph.py:31-32 | JAX integer indexing: in range as is, negative from the end, otherwise clamped to the nearest end |
| SceneGraph.ContactPlanes | jax3dp3/scene_graph.py:6-14 | six affine face poses with translations (0, d1/2, 0), (0, -d1/2, 0), (0, 0, d2/2), (0, 0, -d2/2), (-d0/2, 0, 0), (d0/2, 0, 0), in that order |
| SceneGraph.FacePose | jax3dp3/scene_graph.py:8 | transform_from_pos(t) . transform_from_axis_angle(axis, angle) has translation t and the axis-angle rotation block |
| SceneGraph.FacePoseRigid | jax3dp3/scene_graph.py:8 | with sin^2 + cos^2 = 1, every face pose is rigid |
| SceneGraph.ContactPlanesRigid | jax3dp3/scene_graph.py:6-14 | all six contact planes are rigid poses, for every box size |
| SceneGraph.ContactTransform | jax3dp3/scene_graph.py:16-24 | affine, with translation (x, y, 0) |
| SceneGraph.RelativePose | jax3dp3/scene_graph.py:26-34 | definition: parent_plane . contact . inv(child_plane), face ids indexed as JAX does; see SceneGraph.RelativePoseAligns |
| SceneGraph.RelativePoseAligns | jax3dp3/scene_graph.py:26-34 | the relative pose times the child's plane is the parent's plane times the contact transform, for every box size, face pair and contact (the child plane's rigidity is proved, not assumed) |
| SceneGraph.Place | jax3dp3/scene_graph.py:44-48 | the masked sum keeps poses[j] for a root edge and gives poses[i] . rel otherwise |
| SceneGraph.Iter | jax3dp3/scene_graph.py:40-48 | iter on (-1, j) returns poses[j]; on (i, j) with i != -1 it returns poses[i] . relative_pose_from_contact(...) |
| SceneGraph.RelativePoses | jax3dp3/scene_graph.py:43 | one relative pose per edge, from that edge's dimensions, faces and contact |
| SceneGraph.Step | jax3dp3/scene_graph.py:51-53 | one pose per edge, each placed from the same previous array |
| SceneGraph.Round | jax3dp3/scene_graph.py:51-53 | one scan step: entry k is iter on edge k over the previous array |
| SceneGraph.Steps | jax3dp3/scene_graph.py:51-54 | the carry after n scan steps has as many poses as the input when n = 0 and one pose per edge after that, never none when there are edges (definition; what it computes is stated by SceneGraph.GetPosesStable and SceneGraph.GetPosesConsistent) |
| SceneGraph.GetPoses | jax3dp3/scene_graph.py:50-54 | requires one carried pose per edge, as the scan's fixed carry shape demands, and returns one pose per edge: the carry after len(edges) steps |
| SceneGraph.RootFixed | jax3dp3/scene_graph.py:50-54 | a root box keeps its input pose through every round |
| SceneGraph.Settled | jax3dp3/scene_graph.py:50-54 | a box of rank below r does not move in round r + 1 |
| SceneGraph.RootSettled | jax3dp3/scene_graph.py:50-54 | helper: a root box does not move from one round to the next |
| SceneGraph.FollowsParent | jax3dp3/scene_graph.py:50-54 | a child whose parent did not move in round r does not move in round r + 1 |
| SceneGraph.StepAgrees | jax3dp3/scene_graph.py:51-53 | helper: entry k of a round reads only the parent's entry, or the child's own entry for a root |
| SceneGraph.GetPosesStable | jax3dp3/scene_graph.py:50-54 | for an acyclic graph in which edge k places box k, one more round leaves get_poses' result unchanged |
| SceneGraph.GetPosesConsistent | jax3dp3/scene_graph.py:40-54 | in that result every root keeps its input pose and every other box sits at its parent's pose times the edge's relative pose |

## Left out

- `render_sphere` and `render_spheres` (jax3dp3/rendering.py:139-181) are not modelled. They are ray-sphere tests built on sqrt and on normalising directions, and add no selection rule beyond the ones above.
- `transform_from_rot` (jax3dp3/transforms_3d.py:10-13) is not modelled. As written it cannot run: `jnp.zeros(3, 1)` passes 1 as a dtype, and a 1-D vector cannot be stacked beside a 3x3 block.
- Floating point is not modelled. All arithmetic is over exact reals, with 1e-10 as the exact 1/10^10. Rounding error, overflow and NaN/inf propagation are absent.
- Rendering.RayParam: where the float code divides by a zero denominator, the model gives no parameter, and the hit is invalid and placed at the ray origin. The source behaves differently. Its hit is inf or NaN, and its score becomes NaN: (1000 - inf) * 0 in render_planes, and 0 * inf in render_planes_rays. jnp.argmax and jnp.argmin then pick that NaN entry, so the whole pixel is poisoned. The model does not capture this.
- Rendering.Project: a point with z = 0 has no pixel, standing for the inf/NaN coordinates that never pass the smudge test.
- sqrt, sin, cos, pi and `jnp.linalg.inv` are parameters, constrained only by the laws named above. No value of sin or cos at a particular angle is used, so facts such as transform_from_axis_angle(axis, 0) being the identity are stated for sin = 0 and cos = 1 (Transforms.FromAxisAngleNoTurn).
- `jnp.linalg.inv` is used only through InverseLaw, in SceneGraph.RelativePoseAligns and Rendering.OnFaceRigid; the inverse of a non-rigid matrix is not modelled.
- SceneGraph.GetPoses requires one carried pose per edge. With any other count, `lax.scan` rejects the step function, whose new carry has one pose per edge; that error is not modelled.
- SceneGraph.GetPosesStable and SceneGraph.GetPosesConsistent assume the layout the propagation relies on: edge k places box k, one pose per box, and acyclic parent links.
- The `import` of `rotation_from_axis_angle` at jax3dp3/scene_graph.py:1 names a function that jax3dp3/transforms_3d.py does not define, so the module as shown fails to import. The model follows the function bodies.
- Rendering.PixelDir requires non-zero focal lengths (HasFocus). The model gives no meaning to the division by a zero focal length.
- Rendering.RenderCloudAtPose is stated with the corrected cloud pixel (see Findings). The as-written pixel is Rendering.CloudPixelAsWritten.
- `jit`, `vmap`, `vectorize` and `lax.scan` are not modelled as such. They appear as sequence comprehensions and as the recursion in SceneGraph.Steps.
- The experiment scripts and the nvdiffrast bindings are not part of this model.

## Findings

| source | as written | input that shows it | evidently intended | confidence | as-written member | corrected member |
|---|---|---|---|---|---|---|
| jax3dp3/rendering.py:19-30 | The "no point" sentinel (-1, -1, -1) stacked at index 0 goes through the projection and the smudge test like a cloud point. It normalises to (1, 1, 1) and lands at column round(fx + cx), row round(fy + cy), where it scores 1000 - (-1) = 1001. That beats every matching point with z > -1, i.e. every point in front of the camera. It shows only when that pixel lies in the image (round(fx + cx) < w and round(fy + cy) < h); with fx = 500, cx = 320, w = 640 it falls at column 820, off the image, and the effect stays latent. | fx = fy = 1, cx = cy = 0, pixel_smudge = 0, identity pose, cloud [(1, 1, 1)]: the point projects to row 1, column 1, yet the pixel there shows (-1, -1, -1). | The sentinel is returned only when no cloud point matches the pixel, and never competes with real points. | not executed | Rendering.CloudPixelAsWritten (with Rendering.SentinelShadow, Rendering.SentinelHidesPoint) | Rendering.CloudPixel (with Rendering.CloudPixelNearest, Rendering.CloudAgreesOffSentinel) |
