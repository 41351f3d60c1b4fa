/**
 * The renderers of rendering.py. Each pixel (or each given ray) is
 * intersected with every face plane of every box. A hit counts when it lies
 * inside its face, and the pixel keeps the nearest hit that counts, chosen
 * with one of the tricks proved in Selection. The point-cloud renderer
 * instead projects every point of a posed cloud onto the image and keeps the
 * nearest point that lands within a smudge radius of the pixel.
 */
module Rendering {
  import opened Linalg
  import opened Numerics
  import opened Selection
  import opened Transforms

  /** The guard added to every ray-plane denominator (1e-10). */
  const Eps: real := 0.0000000001
  /** Far constant of render_planes' masked argmax. */
  const PlanesFar: real := 1000.0
  /** Value written over invalid hits by render_planes_rays. */
  const RaysSentinel: real := 10000.0
  /** Far constant of render_planes_multiobject_rays. */
  const MultiFar: real := 20000.0
  /** Far constant of render_cloud_at_pose. */
  const CloudFar: real := 1000.0

  /** Image size and pinhole intrinsics: focal lengths (fx, fy), principal point (cx, cy). */
  datatype Camera = Camera(h: nat, w: nat, fx: real, fy: real, cx: real, cy: real)

  predicate HasFocus(cam: Camera) { cam.fx != 0.0 && cam.fy != 0.0 }

  /** The ray l_0 + d l of render_planes_rays: `dir` is ray[0] (l), `origin` is ray[1] (l_0). */
  datatype Ray = Ray(dir: Vec3, origin: Vec3)

  /** One row of shape_dimensions: the face's half-extents along its own x and y axes. */
  datatype Extent = Extent(x: real, y: real)

  /** A ray's hit on one face plane: the homogeneous point and whether it passed the face test. */
  datatype Hit = Hit(point: Vec4, valid: bool)

  // ------------------------------------------------------------- pixel rays

  /**
   * The direction through the pixel in row i and column j, as the meshgrid of
   * render_planes lays it out: ((j - cx) / fx, (i - cy) / fy, 1). Scaled by
   * the focal lengths and shifted by the principal point it lands back on
   * column j and row i.
   */
  function PixelDir(cam: Camera, i: int, j: int): (d: Vec3)
    requires HasFocus(cam)
    ensures d.z == 1.0
    ensures d.x * cam.fx + cam.cx == j as real
    ensures d.y * cam.fy + cam.cy == i as real
  {
    Vec3((j as real - cam.cx) / cam.fx, (i as real - cam.cy) / cam.fy, 1.0)
  }

  /** pixel_coords_dir: h rows of w directions. */
  function PixelDirs(cam: Camera): (dirs: seq<seq<Vec3>>)
    requires HasFocus(cam)
    ensures |dirs| == cam.h
    ensures forall i :: 0 <= i < cam.h ==> |dirs[i]| == cam.w
    ensures forall i, j :: 0 <= i < cam.h && 0 <= j < cam.w ==> dirs[i][j] == PixelDir(cam, i, j)
  {
    seq(cam.h, i requires 0 <= i < cam.h => seq(cam.w, j requires 0 <= j < cam.w => PixelDir(cam, i, j)))
  }

  // ------------------------------------------------------------- one ray, one face

  /**
   * How far along the ray the face plane lies. The plane passes through the
   * pose's translation p_0 with normal n, the pose's third column, and
   * d = ((p_0 - l_0) . n) / (l . n + 1e-10). None where that guarded
   * denominator is zero.
   */
  function RayParam(plane: Mat4, ray: Ray): (d: Option<real>)
    ensures d.None? <==> Dot3(ray.dir, ZAxis(plane)) + Eps == 0.0
    ensures d.Some? ==>
      d.value * (Dot3(ray.dir, ZAxis(plane)) + Eps) == Dot3(Sub3(Translation(plane), ray.origin), ZAxis(plane))
  {
    var denom := Dot3(ray.dir, ZAxis(plane)) + Eps;
    if denom == 0.0 then None
    else Some(Dot3(Sub3(Translation(plane), ray.origin), ZAxis(plane)) / denom)
  }

  /** The point l_0 + d l. */
  function At(ray: Ray, d: real): Vec3 {
    Add3(ray.origin, Scale3(d, ray.dir))
  }

  /** The face test: inv(plane) . p lies strictly inside the half-extents in x and y. */
  predicate OnFace(num: Primitives, plane: Mat4, e: Extent, p: Vec4) {
    var local := MulVec4(num.inv(plane), p);
    Abs(local.x) < e.x && Abs(local.y) < e.y
  }

  /** The column `m[:3, 0]`: the face's own x axis. */
  function XAxisOf(m: Mat4): Vec3 { Vec3(m.r0.x, m.r1.x, m.r2.x) }

  /** The column `m[:3, 1]`: the face's own y axis. */
  function YAxisOf(m: Mat4): Vec3 { Vec3(m.r0.y, m.r1.y, m.r2.y) }

  /**
   * The hit of one ray on one face pose. A degenerate denominator gives an
   * invalid hit, placed at the ray's origin.
   */
  function Intersect(num: Primitives, plane: Mat4, e: Extent, ray: Ray): (h: Hit)
    ensures h.point.w == 1.0
    ensures h.valid ==> RayParam(plane, ray).Some?
    ensures RayParam(plane, ray).Some? ==>
      Xyz(h.point) == At(ray, RayParam(plane, ray).value) && (h.valid <==> OnFace(num, plane, e, h.point))
  {
    match RayParam(plane, ray)
    case None => Hit(Homogeneous(ray.origin), false)
    case Some(d) =>
      var p := Homogeneous(At(ray, d));
      Hit(p, OnFace(num, plane, e, p))
  }

  /**
   * The hit lies on the face plane up to the 1e-10 guard: its offset from
   * p_0 along the normal is -1e-10 d.
   */
  lemma HitNearPlane(plane: Mat4, ray: Ray)
    requires RayParam(plane, ray).Some?
    ensures var d := RayParam(plane, ray).value;
      Dot3(Sub3(At(ray, d), Translation(plane)), ZAxis(plane)) == -Eps * d
  {
    var d := RayParam(plane, ray).value;
    var n := ZAxis(plane);
    var t := Translation(plane);
    assert Dot3(Sub3(At(ray, d), t), n) == Dot3(Sub3(ray.origin, t), n) + d * Dot3(ray.dir, n);
    assert d * (Dot3(ray.dir, n) + Eps) == Dot3(Sub3(t, ray.origin), n);
  }

  /**
   * For a rigid face pose the face test measures the point's offset from the
   * face centre along the face's own x and y axes.
   */
  lemma OnFaceRigid(num: Primitives, plane: Mat4, e: Extent, p: Vec4)
    requires InverseLaw(num) && IsRigid(plane)
    requires p.w == 1.0
    ensures OnFace(num, plane, e, p) <==>
      && Abs(Dot3(Sub3(Xyz(p), Translation(plane)), XAxisOf(plane))) < e.x
      && Abs(Dot3(Sub3(Xyz(p), Translation(plane)), YAxisOf(plane))) < e.y
  {
    var inv := RigidInverse(plane);
    assert num.inv(plane) == inv;
    var rt := Transpose3(Rotation(plane));
    var t := Translation(plane);
    assert inv.r0 == Vec4(rt.r0.x, rt.r0.y, rt.r0.z, -Dot3(rt.r0, t));
    assert inv.r1 == Vec4(rt.r1.x, rt.r1.y, rt.r1.z, -Dot3(rt.r1, t));
    assert MulVec4(inv, p).x == Dot3(Sub3(Xyz(p), t), XAxisOf(plane));
    assert MulVec4(inv, p).y == Dot3(Sub3(Xyz(p), t), YAxisOf(plane));
  }

  // ------------------------------------------------------------- one ray, all faces

  /** plane_poses: every face pose of the shape carried by the object pose. */
  function Posed(pose: Mat4, planes: seq<Mat4>): (ps: seq<Mat4>)
    ensures |ps| == |planes|
    ensures forall a :: 0 <= a < |planes| ==> ps[a] == Mul4(pose, planes[a])
  {
    seq(|planes|, a requires 0 <= a < |planes| => Mul4(pose, planes[a]))
  }

  /** The hits of one ray on every face, in face order. */
  function Hits(num: Primitives, planes: seq<Mat4>, extents: seq<Extent>, ray: Ray): (hs: seq<Hit>)
    requires |extents| == |planes|
    ensures |hs| == |planes|
    ensures forall a :: 0 <= a < |planes| ==> hs[a] == Intersect(num, planes[a], extents[a], ray)
  {
    seq(|planes|, a requires 0 <= a < |planes| => Intersect(num, planes[a], extents[a], ray))
  }

  /** Every point is homogeneous, with last entry 1. */
  predicate AllHomogeneous(hs: seq<Hit>) {
    forall a :: 0 <= a < |hs| ==> hs[a].point.w == 1.0
  }

  /** Each hit as the selection rule sees it: its depth (the point's z) and its validity. */
  function Candidates(hs: seq<Hit>): (cs: seq<Candidate>)
    ensures |cs| == |hs|
    ensures forall a :: 0 <= a < |hs| ==> cs[a] == Candidate(hs[a].point.z, hs[a].valid)
  {
    seq(|hs|, a requires 0 <= a < |hs| => Candidate(hs[a].point.z, hs[a].valid))
  }

  /**
   * The pixel value of render_planes and render_planes_multiobject_rays: the
   * hit at the argmax of (far - z) * valid, times any(valid). Nothing valid
   * gives the zero vector, and otherwise a homogeneous point; whenever some
   * valid hit is nearer than far it is the nearest valid hit. When valid
   * hits exist but none is nearer than far and hit 0 is invalid, the pixel
   * shows hit 0, the invalid one. The pixel always shows one of its hits, or
   * nothing.
   */
  function MaskedPixel(hs: seq<Hit>, far: real): (r: Vec4)
    requires |hs| > 0 && AllHomogeneous(hs)
    ensures r == Zero4 <==> !AnyValid(Candidates(hs))
    ensures AnyValid(Candidates(hs)) ==> r.w == 1.0
    ensures AnyValidNearer(Candidates(hs), far) ==> r == hs[NearestValid(Candidates(hs)).value].point
    ensures AnyValid(Candidates(hs)) && !AnyValidNearer(Candidates(hs), far) && !hs[0].valid ==> r == hs[0].point
    ensures r == Zero4 || exists a :: 0 <= a < |hs| && r == hs[a].point
  {
    var cs := Candidates(hs);
    var k := MaskedArgMax(cs, far);
    assert cs[0].valid == hs[0].valid;
    Scale4(Indicator(AnyValid(cs)), hs[k].point)
  }

  /** valid * point + 10000 * (1 - valid): an invalid hit becomes the all-10000 vector. */
  function Masked(h: Hit): (p: Vec4)
    ensures h.valid ==> p == h.point
    ensures !h.valid ==> p == Vec4(RaysSentinel, RaysSentinel, RaysSentinel, RaysSentinel)
  {
    var v := Indicator(h.valid);
    Add4(Scale4(v, h.point), Scale4(RaysSentinel * (1.0 - v), Vec4(1.0, 1.0, 1.0, 1.0)))
  }

  /**
   * The value render_planes_rays gives one ray: the masked hit of least z,
   * kept only when that z is below 10000. It is the nearest valid hit when
   * one lies nearer than 10000, and the zero vector otherwise.
   */
  function SentinelPixel(hs: seq<Hit>): (r: Vec4)
    requires |hs| > 0 && AllHomogeneous(hs)
    ensures r == Zero4 <==> !AnyValidNearer(Candidates(hs), RaysSentinel)
    ensures AnyValidNearer(Candidates(hs), RaysSentinel) ==> r == hs[NearestValid(Candidates(hs)).value].point
  {
    var cs := Candidates(hs);
    var k := SentinelArgMin(cs, RaysSentinel);
    var p := Masked(hs[k]);
    assert p.z == SentinelDepths(cs, RaysSentinel)[k];
    Scale4(Indicator(p.z < RaysSentinel), p)
  }

  // ------------------------------------------------------------- render_planes

  /** render_planes: every pixel's ray from the camera centre, through the faces of the posed shape. */
  function RenderPlanes(num: Primitives, pose: Mat4, planes: seq<Mat4>, extents: seq<Extent>, cam: Camera)
    : (img: seq<seq<Vec4>>)
    requires HasFocus(cam)
    requires |planes| == |extents| > 0
    ensures |img| == cam.h
    ensures forall i :: 0 <= i < cam.h ==> |img[i]| == cam.w
    ensures forall i, j :: 0 <= i < cam.h && 0 <= j < cam.w ==>
      img[i][j] == MaskedPixel(Hits(num, Posed(pose, planes), extents, Ray(PixelDir(cam, i, j), Zero3)), PlanesFar)
  {
    var ps := Posed(pose, planes);
    var dirs := PixelDirs(cam);
    seq(cam.h, i requires 0 <= i < cam.h =>
      seq(cam.w, j requires 0 <= j < cam.w => MaskedPixel(Hits(num, ps, extents, Ray(dirs[i][j], Zero3)), PlanesFar)))
  }

  // ------------------------------------------------------------- render_planes_rays

  /** render_planes_rays: one value per given ray. */
  function RenderPlanesRays(num: Primitives, rays: seq<Ray>, pose: Mat4, planes: seq<Mat4>, extents: seq<Extent>)
    : (out: seq<Vec4>)
    requires |planes| == |extents| > 0
    ensures |out| == |rays|
    ensures forall r :: 0 <= r < |rays| ==> out[r] == SentinelPixel(Hits(num, Posed(pose, planes), extents, rays[r]))
  {
    var ps := Posed(pose, planes);
    seq(|rays|, r requires 0 <= r < |rays| => SentinelPixel(Hits(num, ps, extents, rays[r])))
  }

  /**
   * render_planes and render_planes_rays agree on the nearest valid hit: for
   * the pixel's own ray, whenever a valid hit lies nearer than 1000 both show it.
   */
  lemma PlanesAgreeWithRays(num: Primitives, pose: Mat4, planes: seq<Mat4>, extents: seq<Extent>, cam: Camera,
                            i: nat, j: nat)
    requires HasFocus(cam)
    requires |planes| == |extents| > 0
    requires i < cam.h && j < cam.w
    requires AnyValidNearer(Candidates(Hits(num, Posed(pose, planes), extents, Ray(PixelDir(cam, i, j), Zero3))),
                            PlanesFar)
    ensures RenderPlanes(num, pose, planes, extents, cam)[i][j]
         == RenderPlanesRays(num, [Ray(PixelDir(cam, i, j), Zero3)], pose, planes, extents)[0]
  {
    var hs := Hits(num, Posed(pose, planes), extents, Ray(PixelDir(cam, i, j), Zero3));
    var cs := Candidates(hs);
    var w :| 0 <= w < |cs| && cs[w].valid && cs[w].z < PlanesFar;
    assert cs[w].z < RaysSentinel;
  }

  // ------------------------------------------------------------- multiple objects

  /** Row-major flattening of a rectangular nested list, as reshape(-1, ...) reads it. */
  function Flatten<T>(xss: seq<seq<T>>, p: nat): (xs: seq<T>)
    requires forall m :: 0 <= m < |xss| ==> |xss[m]| == p
    ensures |xs| == |xss| * p
    decreases |xss|
  {
    if |xss| == 0 then []
    else
      var n := |xss| - 1;
      var front := Flatten(xss[..n], p);
      assert |front| + p == (n + 1) * p;
      front + xss[n]
  }

  /** Entry a of block m of a flattened list sits at m * p + a. */
  lemma {:induction false} FlattenAt<T>(xss: seq<seq<T>>, p: nat, m: nat, a: nat)
    requires forall k :: 0 <= k < |xss| ==> |xss[k]| == p
    requires m < |xss| && a < p
    ensures m * p + a < |Flatten(xss, p)|
    ensures Flatten(xss, p)[m * p + a] == xss[m][a]
    decreases |xss|
  {
    var n := |xss| - 1;
    var front := Flatten(xss[..n], p);
    assert Flatten(xss, p) == front + xss[n];
    if m < n {
      FlattenAt(xss[..n], p, m, a);
    } else {
      assert |front| == m * p;
    }
  }

  /** The face poses of every object, object by object. */
  function MultiPlanes(poses: seq<Mat4>, shapePlanes: seq<seq<Mat4>>, p: nat): (ps: seq<Mat4>)
    requires |shapePlanes| == |poses|
    requires forall m :: 0 <= m < |poses| ==> |shapePlanes[m]| == p
    ensures |ps| == |poses| * p
  {
    Flatten(seq(|poses|, m requires 0 <= m < |poses| => Posed(poses[m], shapePlanes[m])), p)
  }

  /** Face a of object m is at flat index m * p + a, posed as poses[m] . shapePlanes[m][a]. */
  lemma MultiPlanesAt(poses: seq<Mat4>, shapePlanes: seq<seq<Mat4>>, p: nat, m: nat, a: nat)
    requires |shapePlanes| == |poses|
    requires forall k :: 0 <= k < |poses| ==> |shapePlanes[k]| == p
    requires m < |poses| && a < p
    ensures m * p + a < |MultiPlanes(poses, shapePlanes, p)|
    ensures MultiPlanes(poses, shapePlanes, p)[m * p + a] == Mul4(poses[m], shapePlanes[m][a])
  {
    var xss := seq(|poses|, k requires 0 <= k < |poses| => Posed(poses[k], shapePlanes[k]));
    FlattenAt(xss, p, m, a);
  }

  /** render_planes_multiobject_rays also requires the hit to lie in front of the camera (z > 0). */
  function InFront(hs: seq<Hit>): (fs: seq<Hit>)
    ensures |fs| == |hs|
    ensures forall a :: 0 <= a < |hs| ==> fs[a].point == hs[a].point
    ensures forall a :: 0 <= a < |hs| ==> (fs[a].valid <==> hs[a].valid && hs[a].point.z > 0.0)
  {
    seq(|hs|, a requires 0 <= a < |hs| => Hit(hs[a].point, hs[a].valid && hs[a].point.z > 0.0))
  }

  /**
   * render_planes_multiobject_rays at one pixel direction. When hits lie in
   * front of the camera but none nearer than 20000, and hit 0 is not in
   * front, the pixel shows hit 0, which can lie behind the camera
   * (MultiBehindCamera).
   */
  function MultiPixel(num: Primitives, planes: seq<Mat4>, extents: seq<Extent>, dir: Vec3): (r: Vec4)
    requires |planes| == |extents| > 0
    ensures var fs := InFront(Hits(num, planes, extents, Ray(dir, Zero3)));
      var cs := Candidates(fs);
      && (r == Zero4 <==> !AnyValid(cs))
      && (AnyValid(cs) ==> r.w == 1.0)
      && (AnyValidNearer(cs, MultiFar) ==> r == fs[NearestValid(cs).value].point)
      && (AnyValidNearer(cs, MultiFar) ==> r.z > 0.0)
      && (AnyValid(cs) && !AnyValidNearer(cs, MultiFar) && !fs[0].valid ==> r == fs[0].point)
      && (r == Zero4 || exists a :: 0 <= a < |fs| && r == fs[a].point)
  {
    var fs := InFront(Hits(num, planes, extents, Ray(dir, Zero3)));
    MaskedPixel(fs, MultiFar)
  }

  /**
   * The in-front mask at depth 20000: hit 0 valid but behind the camera at
   * z = -5, hit 1 valid in front at z = 25000. Hit 1 is the only candidate,
   * its score 20000 - 25000 is negative, and the argmax falls back to hit 0,
   * so the pixel shows a point behind the camera.
   */
  lemma MultiBehindCamera(hs: seq<Hit>)
    requires hs == [Hit(Vec4(0.0, 0.0, -5.0, 1.0), true), Hit(Vec4(0.0, 0.0, 25000.0, 1.0), true)]
    ensures AnyValid(Candidates(InFront(hs)))
    ensures MaskedPixel(InFront(hs), MultiFar) == Vec4(0.0, 0.0, -5.0, 1.0)
  {
    var fs := InFront(hs);
    var cs := Candidates(fs);
    assert cs[1].valid && !cs[0].valid;
    assert !AnyValidNearer(cs, MultiFar) by {
      forall a | 0 <= a < |cs| && cs[a].valid
        ensures cs[a].z >= MultiFar
      {
        assert a == 1;
      }
    }
  }

  /** render_planes_multiobject_rays: the faces of every object, against a given image of directions. */
  function RenderMultiobjectRays(num: Primitives, poses: seq<Mat4>, shapePlanes: seq<seq<Mat4>>,
                                 shapeDims: seq<seq<Extent>>, p: nat, dirs: seq<seq<Vec3>>)
    : (img: seq<seq<Vec4>>)
    requires |poses| > 0 && p > 0
    requires |shapePlanes| == |poses| && |shapeDims| == |poses|
    requires forall m :: 0 <= m < |poses| ==> |shapePlanes[m]| == p && |shapeDims[m]| == p
    ensures |img| == |dirs|
    ensures forall i :: 0 <= i < |dirs| ==> |img[i]| == |dirs[i]|
    ensures forall i, j :: 0 <= i < |dirs| && 0 <= j < |dirs[i]| ==>
      img[i][j] == MultiPixel(num, MultiPlanes(poses, shapePlanes, p), Flatten(shapeDims, p), dirs[i][j])
  {
    var ps := MultiPlanes(poses, shapePlanes, p);
    var es := Flatten(shapeDims, p);
    NonEmptyProduct(|poses|, p);
    seq(|dirs|, i requires 0 <= i < |dirs| =>
      seq(|dirs[i]|, j requires 0 <= j < |dirs[i]| => MultiPixel(num, ps, es, dirs[i][j])))
  }

  lemma NonEmptyProduct(m: nat, p: nat)
    requires m > 0 && p > 0
    ensures m * p > 0
  {
  }

  /** render_planes_multiobject: the multi-object renderer over the camera's own pixel directions. */
  function RenderMultiobject(num: Primitives, poses: seq<Mat4>, shapePlanes: seq<seq<Mat4>>,
                             shapeDims: seq<seq<Extent>>, p: nat, cam: Camera)
    : (img: seq<seq<Vec4>>)
    requires HasFocus(cam)
    requires |poses| > 0 && p > 0
    requires |shapePlanes| == |poses| && |shapeDims| == |poses|
    requires forall m :: 0 <= m < |poses| ==> |shapePlanes[m]| == p && |shapeDims[m]| == p
    ensures |img| == cam.h
    ensures forall i :: 0 <= i < cam.h ==> |img[i]| == cam.w
    ensures forall i, j :: 0 <= i < cam.h && 0 <= j < cam.w ==>
      img[i][j] == MultiPixel(num, MultiPlanes(poses, shapePlanes, p), Flatten(shapeDims, p), PixelDir(cam, i, j))
  {
    RenderMultiobjectRays(num, poses, shapePlanes, shapeDims, p, PixelDirs(cam))
  }

  /**
   * Dropping the hits behind the camera does not move a nearest valid hit
   * that lies in front of it: the multi-object rule and the single-object
   * rule then pick the same face.
   */
  lemma InFrontKeepsNearest(hs: seq<Hit>)
    requires AnyValid(Candidates(hs))
    requires hs[NearestValid(Candidates(hs)).value].point.z > 0.0
    ensures NearestValid(Candidates(InFront(hs))) == NearestValid(Candidates(hs))
  {
    var cs := Candidates(hs);
    var fcs := Candidates(InFront(hs));
    var k := NearestValid(cs).value;
    assert IsNearestValid(fcs, k) by {
      assert fcs[k].valid;
      forall a | 0 <= a < |fcs| && fcs[a].valid
        ensures fcs[k].z <= fcs[a].z
      {
        assert cs[a].valid;
      }
      forall a | 0 <= a < k && fcs[a].valid
        ensures fcs[k].z < fcs[a].z
      {
        assert cs[a].valid;
      }
    }
    assert AnyValid(fcs);
    NearestValidUnique(fcs, NearestValid(fcs).value, k);
  }

  /**
   * With a single object, render_planes_multiobject and render_planes show
   * the same point at every pixel whose nearest valid hit lies at depth
   * between 0 and 1000.
   */
  lemma MultiobjectAgreesWithPlanes(num: Primitives, pose: Mat4, planes: seq<Mat4>, extents: seq<Extent>,
                                    cam: Camera, i: nat, j: nat)
    requires HasFocus(cam)
    requires |planes| == |extents| > 0
    requires i < cam.h && j < cam.w
    requires var cs := Candidates(Hits(num, Posed(pose, planes), extents, Ray(PixelDir(cam, i, j), Zero3)));
      AnyValid(cs) && 0.0 < cs[NearestValid(cs).value].z < PlanesFar
    ensures RenderMultiobject(num, [pose], [planes], [extents], |planes|, cam)[i][j]
         == RenderPlanes(num, pose, planes, extents, cam)[i][j]
  {
    var dir := PixelDir(cam, i, j);
    var poses, shapePlanes, shapeDims := [pose], [planes], [extents];
    assert |shapePlanes[0]| == |planes| && |shapeDims[0]| == |planes|;
    RenderMultiobjectAt(num, poses, shapePlanes, shapeDims, |planes|, cam, i, j);
    SingleObject(pose, planes, extents);
    MultiPixelAgrees(num, Posed(pose, planes), extents, dir);
    RenderPlanesAt(num, pose, planes, extents, cam, i, j);
  }

  /** Pixel (i, j) of render_planes, read off the image. */
  lemma RenderPlanesAt(num: Primitives, pose: Mat4, planes: seq<Mat4>, extents: seq<Extent>, cam: Camera,
                       i: nat, j: nat)
    requires HasFocus(cam)
    requires |planes| == |extents| > 0
    requires i < cam.h && j < cam.w
    ensures RenderPlanes(num, pose, planes, extents, cam)[i][j]
         == MaskedPixel(Hits(num, Posed(pose, planes), extents, Ray(PixelDir(cam, i, j), Zero3)), PlanesFar)
  {
  }

  /** Pixel (i, j) of render_planes_multiobject, read off the image. */
  lemma RenderMultiobjectAt(num: Primitives, poses: seq<Mat4>, shapePlanes: seq<seq<Mat4>>,
                            shapeDims: seq<seq<Extent>>, p: nat, cam: Camera, i: nat, j: nat)
    requires HasFocus(cam)
    requires |poses| > 0 && p > 0
    requires |shapePlanes| == |poses| && |shapeDims| == |poses|
    requires forall m :: 0 <= m < |poses| ==> |shapePlanes[m]| == p && |shapeDims[m]| == p
    requires i < cam.h && j < cam.w
    ensures RenderMultiobject(num, poses, shapePlanes, shapeDims, p, cam)[i][j]
         == MultiPixel(num, MultiPlanes(poses, shapePlanes, p), Flatten(shapeDims, p), PixelDir(cam, i, j))
  {
  }

  /** With a single object the flattened faces are that object's posed faces. */
  lemma SingleObject(pose: Mat4, planes: seq<Mat4>, extents: seq<Extent>)
    ensures MultiPlanes([pose], [planes], |planes|) == Posed(pose, planes)
    ensures Flatten([extents], |extents|) == extents
  {
    assert [extents][..0] == [];
    var xss := seq(1, k requires 0 <= k < 1 => Posed([pose][k], [planes][k]));
    assert xss[..0] == [];
    assert Flatten(xss, |planes|) == Posed(pose, planes);
  }

  /** One pixel of the multi-object rule against the single-object rule, over the same faces. */
  lemma MultiPixelAgrees(num: Primitives, planes: seq<Mat4>, extents: seq<Extent>, dir: Vec3)
    requires |planes| == |extents| > 0
    requires var cs := Candidates(Hits(num, planes, extents, Ray(dir, Zero3)));
      AnyValid(cs) && 0.0 < cs[NearestValid(cs).value].z < PlanesFar
    ensures MultiPixel(num, planes, extents, dir) == MaskedPixel(Hits(num, planes, extents, Ray(dir, Zero3)), PlanesFar)
  {
    var hs := Hits(num, planes, extents, Ray(dir, Zero3));
    var cs := Candidates(hs);
    var k := NearestValid(cs).value;
    assert cs[k].valid;
    InFrontKeepsNearest(hs);
    var fcs := Candidates(InFront(hs));
    assert fcs[k].valid && fcs[k].z < MultiFar;
    assert AnyValidNearer(cs, PlanesFar);
  }

  // ------------------------------------------------------------- projection

  /** jnp.round: the nearest integer, ties to the even one. */
  function RoundHalfEven(x: real): (n: int)
    ensures -0.5 <= x - n as real <= 0.5
    ensures (x - n as real == 0.5 || x - n as real == -0.5) ==> n % 2 == 0
  {
    var f := x.Floor;
    var frac := x - f as real;
    if frac < 0.5 then f
    else if frac > 0.5 then f + 1
    else if f % 2 == 0 then f
    else f + 1
  }

  /** Rounding leaves a whole number where it is. */
  lemma RoundWhole(n: int)
    ensures RoundHalfEven(n as real) == n
  {
    var r := RoundHalfEven(n as real);
    assert -0.5 <= (n - r) as real <= 0.5;
  }

  /** The pixel a point is drawn at: (column, row). */
  datatype Pixel = Pixel(col: int, row: int)

  /** One unrounded image coordinate of a point: a / z * f + c. */
  function ImageCoord(a: real, z: real, f: real, c: real): real
    requires z != 0.0
  {
    a / z * f + c
  }

  /**
   * The pinhole projection of render_cloud_at_pose: divide by z, scale by
   * the focal lengths, shift by the principal point and round. A point with
   * z == 0 has no pixel (the float code divides by zero there, and the
   * resulting inf or nan never passes the smudge test).
   */
  function Project(cam: Camera, p: Vec3): (r: Option<Pixel>)
    ensures r.None? <==> p.z == 0.0
    ensures p.z != 0.0 ==>
      && Abs(ImageCoord(p.x, p.z, cam.fx, cam.cx) - r.value.col as real) <= 0.5
      && Abs(ImageCoord(p.y, p.z, cam.fy, cam.cy) - r.value.row as real) <= 0.5
  {
    if p.z == 0.0 then None
    else Some(Pixel(RoundHalfEven(ImageCoord(p.x, p.z, cam.fx, cam.cx)), RoundHalfEven(ImageCoord(p.y, p.z, cam.fy, cam.cy))))
  }

  /** The projection of a point off the camera plane, given the unrounded pixel coordinates. */
  lemma ProjectOf(cam: Camera, p: Vec3, u: real, v: real)
    requires p.z != 0.0
    requires ImageCoord(p.x, p.z, cam.fx, cam.cx) == u && ImageCoord(p.y, p.z, cam.fy, cam.cy) == v
    ensures Project(cam, p) == Some(Pixel(RoundHalfEven(u), RoundHalfEven(v)))
  {
  }

  /**
   * Every point along the ray of the pixel in row i, column j, other than the
   * camera centre, projects back to that pixel.
   */
  lemma ProjectAlongPixelDir(cam: Camera, i: int, j: int, d: real)
    requires HasFocus(cam)
    requires d != 0.0
    ensures Project(cam, Scale3(d, PixelDir(cam, i, j))) == Some(Pixel(j, i))
  {
    var dir := PixelDir(cam, i, j);
    var p := Scale3(d, dir);
    assert p.z == d;
    DivideBack(p.x, p.z, dir.x);
    DivideBack(p.y, p.z, dir.y);
    ProjectOf(cam, p, j as real, i as real);
    RoundWhole(j);
    RoundWhole(i);
  }

  /**
   * A point render_planes shows at row i, column j projects back onto that
   * pixel under the cloud renderer's projection, unless it is the zero
   * vector or lies in the camera plane.
   */
  lemma RenderedPointProjectsBack(num: Primitives, pose: Mat4, planes: seq<Mat4>, extents: seq<Extent>,
                                  cam: Camera, i: nat, j: nat)
    requires HasFocus(cam)
    requires |planes| == |extents| > 0
    requires i < cam.h && j < cam.w
    ensures var r := RenderPlanes(num, pose, planes, extents, cam)[i][j];
      r == Zero4 || r.z == 0.0 || Project(cam, Xyz(r)) == Some(Pixel(j, i))
  {
    var ray := Ray(PixelDir(cam, i, j), Zero3);
    var ps := Posed(pose, planes);
    var hs := Hits(num, ps, extents, ray);
    var r := MaskedPixel(hs, PlanesFar);
    if r != Zero4 && r.z != 0.0 {
      var a :| 0 <= a < |hs| && r == hs[a].point;
      var rp := RayParam(ps[a], ray);
      assert rp.None? ==> Xyz(r) == Zero3;
      assert Xyz(r) == At(ray, rp.value);
      assert At(ray, rp.value) == Scale3(rp.value, ray.dir);
      ProjectAlongPixelDir(cam, i, j, rp.value);
    }
  }

  // ------------------------------------------------------------- render_cloud_at_pose

  /** The row render_cloud_at_pose stacks in front of the cloud, read as "no point". */
  const Sentinel := Vec3(-1.0, -1.0, -1.0)

  /**
   * The smudge test: the point projects within `smudge` of column j and of
   * row i. Only a point off the camera plane can pass, only with a
   * non-negative smudge, and then its unrounded image coordinates lie within
   * smudge + 1/2 of the pixel.
   */
  predicate Matches(cam: Camera, smudge: real, p: Vec3, i: int, j: int)
    ensures Matches(cam, smudge, p, i, j) ==>
      && p.z != 0.0 && smudge >= 0.0
      && Abs(j as real - ImageCoord(p.x, p.z, cam.fx, cam.cx)) <= smudge + 0.5
      && Abs(i as real - ImageCoord(p.y, p.z, cam.fy, cam.cy)) <= smudge + 0.5
  {
    match Project(cam, p)
    case None => false
    case Some(px) => Abs(j as real - px.col as real) <= smudge && Abs(i as real - px.row as real) <= smudge
  }

  /** The list the cloud renderer ranks: the sentinel, then the posed cloud. */
  function Stacked(cloud: seq<Vec3>, pose: Mat4): (pc: seq<Vec3>)
    ensures |pc| == |cloud| + 1
    ensures pc[0] == Sentinel
    ensures forall a :: 0 < a < |pc| ==> pc[a] == ApplyPoint(pose, cloud[a - 1])
  {
    [Sentinel] + ApplyTransform(cloud, pose)
  }

  /** Each stacked point as the selection rule sees it at row i, column j. */
  function CloudCandidates(cam: Camera, smudge: real, pc: seq<Vec3>, i: int, j: int): (cs: seq<Candidate>)
    ensures |cs| == |pc|
    ensures forall a :: 0 <= a < |pc| ==> cs[a] == Candidate(pc[a].z, Matches(cam, smudge, pc[a], i, j))
  {
    seq(|pc|, a requires 0 <= a < |pc| => Candidate(pc[a].z, Matches(cam, smudge, pc[a], i, j)))
  }

  /**
   * render_cloud_at_pose at one pixel, as written: the stacked point at the
   * argmax of (1000 - z) * match. The sentinel takes part in the smudge test
   * like any other point.
   */
  function CloudPixelAsWritten(cam: Camera, smudge: real, cloud: seq<Vec3>, pose: Mat4, i: int, j: int): (r: Vec3)
    ensures var cs := CloudCandidates(cam, smudge, Stacked(cloud, pose), i, j);
      && (AnyValidNearer(cs, CloudFar) ==> r == Stacked(cloud, pose)[NearestValid(cs).value])
      && (!AnyValidNearer(cs, CloudFar) ==> r == Sentinel)
  {
    var pc := Stacked(cloud, pose);
    pc[MaskedArgMax(CloudCandidates(cam, smudge, pc, i, j), CloudFar)]
  }

  /**
   * The sentinel normalises to (1, 1, 1), so it is drawn at column
   * round(fx + cx), row round(fy + cy) with score 1001, above any point at
   * depth greater than -1. There the as-written renderer shows the sentinel
   * although cloud points land on the pixel.
   */
  lemma SentinelShadow(cam: Camera, smudge: real, cloud: seq<Vec3>, pose: Mat4)
    requires smudge >= 0.0
    ensures var i, j := RoundHalfEven(cam.fy + cam.cy), RoundHalfEven(cam.fx + cam.cx);
      (forall a :: 0 <= a < |cloud| && Matches(cam, smudge, ApplyPoint(pose, cloud[a]), i, j) ==>
         ApplyPoint(pose, cloud[a]).z > -1.0)
      ==> CloudPixelAsWritten(cam, smudge, cloud, pose, i, j) == Sentinel
  {
    var i, j := RoundHalfEven(cam.fy + cam.cy), RoundHalfEven(cam.fx + cam.cx);
    var pc := Stacked(cloud, pose);
    var cs := CloudCandidates(cam, smudge, pc, i, j);
    if forall a :: 0 <= a < |cloud| && Matches(cam, smudge, ApplyPoint(pose, cloud[a]), i, j) ==>
         ApplyPoint(pose, cloud[a]).z > -1.0 {
      ProjectOf(cam, Sentinel, cam.fx + cam.cx, cam.fy + cam.cy);
      assert cs[0].valid && cs[0].z == -1.0;
      assert IsNearestValid(cs, 0) by {
        forall b | 0 <= b < |cs| && cs[b].valid
          ensures cs[0].z <= cs[b].z
        {
          if b > 0 {
            assert pc[b] == ApplyPoint(pose, cloud[b - 1]);
          }
        }
      }
      assert AnyValidNearer(cs, CloudFar);
      NearestValidUnique(cs, NearestValid(cs).value, 0);
    }
  }

  /**
   * The smallest case: unit focal lengths, principal point at the origin, no
   * smudge and one cloud point at (1, 1, 1) under the identity pose. The
   * point lands on row 1, column 1, and the pixel still shows the sentinel.
   */
  lemma SentinelHidesPoint(cam: Camera, p: Vec3)
    requires cam == Camera(2, 2, 1.0, 1.0, 0.0, 0.0) && p == Vec3(1.0, 1.0, 1.0)
    ensures Matches(cam, 0.0, ApplyPoint(Identity4, p), 1, 1)
    ensures CloudPixelAsWritten(cam, 0.0, [p], Identity4, 1, 1) == Sentinel
  {
    assert ApplyPoint(Identity4, p) == p;
    assert ImageCoord(p.x, p.z, cam.fx, cam.cx) == 1.0 && ImageCoord(p.y, p.z, cam.fy, cam.cy) == 1.0;
    ProjectOf(cam, p, 1.0, 1.0);
    RoundWhole(1);
    assert cam.fy + cam.cy == 1.0 && cam.fx + cam.cx == 1.0;
    assert RoundHalfEven(cam.fy + cam.cy) == 1 && RoundHalfEven(cam.fx + cam.cx) == 1;
    assert [p][0] == p;
    SentinelShadow(cam, 0.0, [p], Identity4);
  }

  /** The candidates with the sentinel kept out of the smudge test. */
  function CloudOnlyCandidates(cam: Camera, smudge: real, pc: seq<Vec3>, i: int, j: int): (cs: seq<Candidate>)
    requires |pc| > 0
    ensures |cs| == |pc|
    ensures !cs[0].valid
    ensures forall a :: 0 < a < |pc| ==> cs[a] == CloudCandidates(cam, smudge, pc, i, j)[a]
  {
    CloudCandidates(cam, smudge, pc, i, j)[0 := Candidate(pc[0].z, false)]
  }

  /**
   * r is cloud point a, posed, nearer than 1000 and landing within the smudge
   * of row i, column j; no posed cloud point landing there is nearer, and
   * every earlier one landing there is farther (argmax keeps the first of
   * equal scores).
   */
  predicate NearestMatchAt(cam: Camera, smudge: real, cloud: seq<Vec3>, pose: Mat4, i: int, j: int, a: int, r: Vec3) {
    && 0 <= a < |cloud|
    && r == ApplyPoint(pose, cloud[a])
    && Matches(cam, smudge, r, i, j)
    && r.z < CloudFar
    && (forall b :: 0 <= b < |cloud| && Matches(cam, smudge, ApplyPoint(pose, cloud[b]), i, j) ==>
          r.z <= ApplyPoint(pose, cloud[b]).z)
    && (forall b :: 0 <= b < a && Matches(cam, smudge, ApplyPoint(pose, cloud[b]), i, j) ==>
          r.z < ApplyPoint(pose, cloud[b]).z)
  }

  predicate NearestMatch(cam: Camera, smudge: real, cloud: seq<Vec3>, pose: Mat4, i: int, j: int, r: Vec3) {
    exists a :: 0 <= a < |cloud| && NearestMatchAt(cam, smudge, cloud, pose, i, j, a, r)
  }

  /** At most one cloud point is the nearest match of a pixel. */
  lemma NearestMatchUnique(cam: Camera, smudge: real, cloud: seq<Vec3>, pose: Mat4, i: int, j: int,
                           a: int, r: Vec3, a': int, r': Vec3)
    requires NearestMatchAt(cam, smudge, cloud, pose, i, j, a, r)
    requires NearestMatchAt(cam, smudge, cloud, pose, i, j, a', r')
    ensures a == a' && r == r'
  {
    assert a < a' ==> r'.z < r.z;
    assert a' < a ==> r.z < r'.z;
  }

  /**
   * render_cloud_at_pose at one pixel with the sentinel kept out of the
   * smudge test: the stacked point at the argmax of (1000 - z) * match.
   */
  function CloudPixel(cam: Camera, smudge: real, cloud: seq<Vec3>, pose: Mat4, i: int, j: int): (r: Vec3)
    ensures r == Sentinel || exists a :: 0 <= a < |cloud| && r == ApplyPoint(pose, cloud[a])
  {
    var pc := Stacked(cloud, pose);
    var k := MaskedArgMax(CloudOnlyCandidates(cam, smudge, pc, i, j), CloudFar);
    assert k > 0 ==> pc[k] == ApplyPoint(pose, cloud[k - 1]);
    pc[k]
  }

  /**
   * When a posed cloud point nearer than 1000 lands within the smudge of the
   * pixel, the corrected pixel shows the nearest such point; otherwise it
   * shows the sentinel.
   */
  lemma CloudPixelNearest(cam: Camera, smudge: real, cloud: seq<Vec3>, pose: Mat4, i: int, j: int)
    ensures var cs := CloudOnlyCandidates(cam, smudge, Stacked(cloud, pose), i, j);
      var r := CloudPixel(cam, smudge, cloud, pose, i, j);
      && (!AnyValidNearer(cs, CloudFar) ==> r == Sentinel)
      && (AnyValidNearer(cs, CloudFar) ==> NearestMatch(cam, smudge, cloud, pose, i, j, r))
  {
    var pc := Stacked(cloud, pose);
    var cs := CloudOnlyCandidates(cam, smudge, pc, i, j);
    var k := MaskedArgMax(cs, CloudFar);
    assert CloudPixel(cam, smudge, cloud, pose, i, j) == pc[k];
    if AnyValidNearer(cs, CloudFar) {
      NearestIsMatch(cam, smudge, cloud, pose, i, j);
    } else {
      assert k == 0;
    }
  }

  /** The nearest valid candidate, with the sentinel kept out, is the nearest matching cloud point. */
  lemma NearestIsMatch(cam: Camera, smudge: real, cloud: seq<Vec3>, pose: Mat4, i: int, j: int)
    requires AnyValidNearer(CloudOnlyCandidates(cam, smudge, Stacked(cloud, pose), i, j), CloudFar)
    ensures var cs := CloudOnlyCandidates(cam, smudge, Stacked(cloud, pose), i, j);
      NearestMatch(cam, smudge, cloud, pose, i, j, Stacked(cloud, pose)[MaskedArgMax(cs, CloudFar)])
  {
    var pc := Stacked(cloud, pose);
    var cs := CloudOnlyCandidates(cam, smudge, pc, i, j);
    var k := MaskedArgMax(cs, CloudFar);
    assert IsNearestValid(cs, k) by {
      assert NearestValid(cs) == Some(k);
    }
    assert cs[k].z < CloudFar by {
      var w :| 0 <= w < |cs| && cs[w].valid && cs[w].z < CloudFar;
      assert cs[k].z <= cs[w].z;
    }
    NearestCandidateMatches(cam, smudge, cloud, pose, i, j, k);
  }

  /**
   * The nearest valid candidate k, when nearer than 1000, is cloud point
   * k - 1 and the nearest match of the pixel.
   */
  lemma NearestCandidateMatches(cam: Camera, smudge: real, cloud: seq<Vec3>, pose: Mat4, i: int, j: int, k: nat)
    requires IsNearestValid(CloudOnlyCandidates(cam, smudge, Stacked(cloud, pose), i, j), k)
    requires CloudOnlyCandidates(cam, smudge, Stacked(cloud, pose), i, j)[k].z < CloudFar
    ensures 0 < k && NearestMatchAt(cam, smudge, cloud, pose, i, j, k - 1, Stacked(cloud, pose)[k])
  {
    var pc := Stacked(cloud, pose);
    var cs := CloudOnlyCandidates(cam, smudge, pc, i, j);
    var zs := seq(|cloud|, b requires 0 <= b < |cloud| => ApplyPoint(pose, cloud[b]).z);
    var ok := seq(|cloud|, b requires 0 <= b < |cloud| => Matches(cam, smudge, ApplyPoint(pose, cloud[b]), i, j));
    forall b | 0 <= b < |cloud|
      ensures cs[b + 1] == Candidate(zs[b], ok[b])
    {
      assert pc[b + 1] == ApplyPoint(pose, cloud[b]);
    }
    ShiftedNearest(cs, zs, ok, k);
    var a, r := k - 1, pc[k];
    assert r == ApplyPoint(pose, cloud[a]) && zs[a] == r.z;
    assert Matches(cam, smudge, r, i, j) by {
      assert ok[a];
    }
    forall b | 0 <= b < |cloud| && Matches(cam, smudge, ApplyPoint(pose, cloud[b]), i, j)
      ensures r.z <= ApplyPoint(pose, cloud[b]).z
    {
      assert ok[b] && zs[a] <= zs[b];
    }
    forall b | 0 <= b < a && Matches(cam, smudge, ApplyPoint(pose, cloud[b]), i, j)
      ensures r.z < ApplyPoint(pose, cloud[b]).z
    {
      assert ok[b] && zs[a] < zs[b];
    }
  }

  /**
   * Candidate 0 never valid and candidate b + 1 built from depth zs[b] and
   * test ok[b]: the nearest valid candidate k is entry k - 1 of zs, one that
   * passes the test, no farther than any other that passes and strictly
   * nearer than every earlier one that passes.
   */
  lemma ShiftedNearest(cs: seq<Candidate>, zs: seq<real>, ok: seq<bool>, k: nat)
    requires |cs| == |zs| + 1 && |ok| == |zs|
    requires !cs[0].valid
    requires forall b :: 0 <= b < |zs| ==> cs[b + 1] == Candidate(zs[b], ok[b])
    requires IsNearestValid(cs, k)
    ensures 0 < k && ok[k - 1]
    ensures forall b :: 0 <= b < |zs| && ok[b] ==> zs[k - 1] <= zs[b]
    ensures forall b :: 0 <= b < k - 1 && ok[b] ==> zs[k - 1] < zs[b]
  {
    forall b | 0 <= b < |zs| && ok[b]
      ensures zs[k - 1] <= zs[b]
    {
      assert cs[b + 1].valid;
    }
    forall b | 0 <= b < k - 1 && ok[b]
      ensures zs[k - 1] < zs[b]
    {
      assert cs[b + 1].valid;
    }
  }

  /** Away from the pixels the sentinel projects near, the corrected pixel equals the as-written one. */
  lemma CloudAgreesOffSentinel(cam: Camera, smudge: real, cloud: seq<Vec3>, pose: Mat4, i: int, j: int)
    requires !Matches(cam, smudge, Sentinel, i, j)
    ensures CloudPixel(cam, smudge, cloud, pose, i, j) == CloudPixelAsWritten(cam, smudge, cloud, pose, i, j)
  {
    var pc := Stacked(cloud, pose);
    assert CloudOnlyCandidates(cam, smudge, pc, i, j) == CloudCandidates(cam, smudge, pc, i, j);
  }

  /** render_cloud_at_pose over the whole image, with the sentinel kept out of the smudge test. */
  function RenderCloudAtPose(cloud: seq<Vec3>, pose: Mat4, cam: Camera, smudge: real): (img: seq<seq<Vec3>>)
    ensures |img| == cam.h
    ensures forall i :: 0 <= i < cam.h ==> |img[i]| == cam.w
    ensures forall i, j :: 0 <= i < cam.h && 0 <= j < cam.w ==> img[i][j] == CloudPixel(cam, smudge, cloud, pose, i, j)
  {
    var img := seq(cam.h, i requires 0 <= i < cam.h =>
      seq(cam.w, j requires 0 <= j < cam.w => CloudPixel(cam, smudge, cloud, pose, i, j)));
    assert forall i, j :: 0 <= i < cam.h && 0 <= j < cam.w ==> img[i][j] == CloudPixel(cam, smudge, cloud, pose, i, j);
    img
  }
}
