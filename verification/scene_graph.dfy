/**
 * Pose propagation over a scene graph of boxes (jax3dp3/scene_graph.py).
 * Each box has six contact planes, one per face; an edge (parent, child)
 * places the child so that one of its faces rests on a face of the parent,
 * shifted and turned in the contact plane. get_poses applies every edge at
 * once, from the previous round's poses, as many rounds as there are edges.
 */
module SceneGraph {
  import opened Linalg
  import opened Numerics
  import opened Transforms

  /**
   * Indexing a JAX array of length n with an integer: a negative index counts
   * from the end, and an index still out of range is clamped to the nearest
   * end instead of failing.
   */
  function JaxIndex(n: nat, i: int): (k: nat)
    requires n > 0
    ensures k < n
    ensures 0 <= i < n ==> k == i
    ensures -(n as int) <= i < 0 ==> k == n + i
    ensures i < -(n as int) ==> k == 0
    ensures n <= i ==> k == n - 1
  {
    var j := if i < 0 then i + n else i;
    if j < 0 then 0 else if j >= n then n - 1 else j
  }

  const XAxis := Vec3(1.0, 0.0, 0.0)
  const YAxis := Vec3(0.0, 1.0, 0.0)
  const ZAxisDir := Vec3(0.0, 0.0, 1.0)

  /**
   * get_contact_planes: for a box of dimensions d, the poses of its six face
   * centres (+y, -y, +z, -z, -x, +x), each turned so that its local z axis is
   * the face normal.
   */
  function ContactPlanes(num: Primitives, d: Vec3): (ps: seq<Mat4>)
    requires SqrtLaw(num)
    ensures |ps| == 6
    ensures forall k :: 0 <= k < 6 ==> IsAffine(ps[k])
    ensures Translation(ps[0]) == Vec3(0.0, d.y / 2.0, 0.0)
    ensures Translation(ps[1]) == Vec3(0.0, -d.y / 2.0, 0.0)
    ensures Translation(ps[2]) == Vec3(0.0, 0.0, d.z / 2.0)
    ensures Translation(ps[3]) == Vec3(0.0, 0.0, -d.z / 2.0)
    ensures Translation(ps[4]) == Vec3(-d.x / 2.0, 0.0, 0.0)
    ensures Translation(ps[5]) == Vec3(d.x / 2.0, 0.0, 0.0)
  {
    var halfPi := num.pi / 2.0;
    [ FacePose(num, Vec3(0.0, d.y / 2.0, 0.0), XAxis, -halfPi),
      FacePose(num, Vec3(0.0, -d.y / 2.0, 0.0), XAxis, halfPi),
      FacePose(num, Vec3(0.0, 0.0, d.z / 2.0), XAxis, 0.0),
      FacePose(num, Vec3(0.0, 0.0, -d.z / 2.0), XAxis, num.pi),
      FacePose(num, Vec3(-d.x / 2.0, 0.0, 0.0), YAxis, -halfPi),
      FacePose(num, Vec3(d.x / 2.0, 0.0, 0.0), YAxis, halfPi) ]
  }

  /** transform_from_pos(t) . transform_from_axis_angle(axis, angle): the turn, then the offset. */
  function FacePose(num: Primitives, t: Vec3, axis: Vec3, angle: real): (m: Mat4)
    requires SqrtLaw(num)
    requires axis != Zero3
    ensures IsAffine(m)
    ensures Translation(m) == t
    ensures Rotation(m) == AxisAngleRotation(num, axis, angle)
  {
    var turn := FromAxisAngle(num, axis, angle);
    FromPosCompose(t, turn);
    Mul4(FromPos(t), turn)
  }

  /** With sin^2 + cos^2 = 1 every face pose is rigid: its rotation block is Rodrigues'. */
  lemma FacePoseRigid(num: Primitives, t: Vec3, axis: Vec3, angle: real)
    requires SqrtLaw(num) && TrigLaw(num)
    requires axis != Zero3
    ensures IsRigid(FacePose(num, t, axis, angle))
  {
    FromAxisAngleRigid(num, axis, angle);
  }

  /** All six contact planes of a box are rigid poses, whatever its dimensions. */
  lemma ContactPlanesRigid(num: Primitives, d: Vec3)
    requires SqrtLaw(num) && TrigLaw(num)
    ensures forall k :: 0 <= k < 6 ==> IsRigid(ContactPlanes(num, d)[k])
  {
    var halfPi := num.pi / 2.0;
    FacePoseRigid(num, Vec3(0.0, d.y / 2.0, 0.0), XAxis, -halfPi);
    FacePoseRigid(num, Vec3(0.0, -d.y / 2.0, 0.0), XAxis, halfPi);
    FacePoseRigid(num, Vec3(0.0, 0.0, d.z / 2.0), XAxis, 0.0);
    FacePoseRigid(num, Vec3(0.0, 0.0, -d.z / 2.0), XAxis, num.pi);
    FacePoseRigid(num, Vec3(-d.x / 2.0, 0.0, 0.0), YAxis, -halfPi);
    FacePoseRigid(num, Vec3(d.x / 2.0, 0.0, 0.0), YAxis, halfPi);
  }

  /** The contact parameters (x, y, angle) of an edge: a shift and a turn in the contact plane. */
  datatype Contact = Contact(x: real, y: real, angle: real)

  /**
   * get_contact_transform: turn by the contact angle about z, flip by pi
   * about (1, 1, 0), then shift by (x, y, 0).
   */
  function ContactTransform(num: Primitives, cp: Contact): (m: Mat4)
    requires SqrtLaw(num)
    ensures IsAffine(m)
    ensures Translation(m) == Vec3(cp.x, cp.y, 0.0)
  {
    var flip := FromAxisAngle(num, Vec3(1.0, 1.0, 0.0), num.pi);
    var turn := FromAxisAngle(num, ZAxisDir, cp.angle);
    var inner := Mul4(flip, turn);
    TurnsCompose(flip, turn);
    FromPosCompose(Vec3(cp.x, cp.y, 0.0), inner);
    Mul4(FromPos(Vec3(cp.x, cp.y, 0.0)), inner)
  }

  /**
   * relative_pose_from_contact: the pose of the child box in the parent's
   * frame, parent_plane . contact . inv(child_plane), with the face ids
   * indexing the six planes as JAX does.
   */
  function RelativePose(num: Primitives, dimsParent: Vec3, dimsChild: Vec3,
                        parentFace: int, childFace: int, cp: Contact): Mat4
    requires SqrtLaw(num)
  {
    var parentPlane := ContactPlanes(num, dimsParent)[JaxIndex(6, parentFace)];
    var childPlane := ContactPlanes(num, dimsChild)[JaxIndex(6, childFace)];
    Mul4(Mul4(parentPlane, ContactTransform(num, cp)), num.inv(childPlane))
  }

  /**
   * Placing the child by the relative pose puts its contact plane exactly on
   * the parent's contact plane moved by the contact transform: the child's
   * plane is rigid, so jnp.linalg.inv undoes it.
   */
  lemma RelativePoseAligns(num: Primitives, dimsParent: Vec3, dimsChild: Vec3,
                           parentFace: int, childFace: int, cp: Contact)
    requires SqrtLaw(num) && TrigLaw(num) && InverseLaw(num)
    ensures var parentPlane := ContactPlanes(num, dimsParent)[JaxIndex(6, parentFace)];
      var childPlane := ContactPlanes(num, dimsChild)[JaxIndex(6, childFace)];
      Mul4(RelativePose(num, dimsParent, dimsChild, parentFace, childFace, cp), childPlane)
        == Mul4(parentPlane, ContactTransform(num, cp))
  {
    var parentPlane := ContactPlanes(num, dimsParent)[JaxIndex(6, parentFace)];
    var childPlane := ContactPlanes(num, dimsChild)[JaxIndex(6, childFace)];
    var a := Mul4(parentPlane, ContactTransform(num, cp));
    ContactPlanesRigid(num, dimsChild);
    RigidInverseIsInverse(childPlane);
    Mul4Assoc(a, num.inv(childPlane), childPlane);
    Mul4Identity(a);
  }

  /** An edge of the scene graph: parent -1 marks a box placed directly by the input poses. */
  datatype Edge = Edge(parent: int, child: int)

  /** The face ids used by an edge: which face of the parent touches which face of the child. */
  datatype Faces = Faces(parentFace: int, childFace: int)

  /** The relative pose an edge prescribes; it does not depend on the poses. */
  function EdgeRelativePose(num: Primitives, dims: seq<Vec3>, e: Edge, cp: Contact, f: Faces): Mat4
    requires SqrtLaw(num)
    requires |dims| > 0
  {
    RelativePose(num, dims[JaxIndex(|dims|, e.parent)], dims[JaxIndex(|dims|, e.child)],
                 f.parentFace, f.childFace, cp)
  }

  /**
   * The masked sum poses[i] . rel * (i != -1) + poses[j] * (i == -1) of iter:
   * the child's current pose for a root edge, the parent's pose times the
   * relative pose otherwise.
   */
  function Place(poses: seq<Mat4>, e: Edge, rel: Mat4): (m: Mat4)
    requires |poses| > 0
    ensures e.parent == -1 ==> m == poses[JaxIndex(|poses|, e.child)]
    ensures e.parent != -1 ==> m == Mul4(poses[JaxIndex(|poses|, e.parent)], rel)
  {
    var placed := Mul4(poses[JaxIndex(|poses|, e.parent)], rel);
    var kept := poses[JaxIndex(|poses|, e.child)];
    MaskedSelect(e.parent != -1, placed, kept);
    AddMat4(ScaleMat4(Indicator(e.parent != -1), placed), ScaleMat4(Indicator(e.parent == -1), kept))
  }

  /** iter: the new pose of one edge's child. */
  function Iter(num: Primitives, poses: seq<Mat4>, dims: seq<Vec3>, e: Edge, cp: Contact, f: Faces): (m: Mat4)
    requires SqrtLaw(num)
    requires |poses| > 0 && |dims| > 0
    ensures e.parent == -1 ==> m == poses[JaxIndex(|poses|, e.child)]
    ensures e.parent != -1 ==>
              m == Mul4(poses[JaxIndex(|poses|, e.parent)], EdgeRelativePose(num, dims, e, cp, f))
  {
    Place(poses, e, EdgeRelativePose(num, dims, e, cp, f))
  }

  /** The per-edge inputs of get_poses, all of the same length. */
  predicate WellShaped(edges: seq<Edge>, contacts: seq<Contact>, faces: seq<Faces>) {
    |contacts| == |edges| && |faces| == |edges|
  }

  /** Every edge's relative pose, computed once. */
  function RelativePoses(num: Primitives, dims: seq<Vec3>,
                         edges: seq<Edge>, contacts: seq<Contact>, faces: seq<Faces>): (rels: seq<Mat4>)
    requires SqrtLaw(num)
    requires |edges| > 0 ==> |dims| > 0
    requires WellShaped(edges, contacts, faces)
    ensures |rels| == |edges|
    ensures forall k :: 0 <= k < |edges| ==> rels[k] == EdgeRelativePose(num, dims, edges[k], contacts[k], faces[k])
  {
    seq(|edges|, k requires 0 <= k < |edges| => EdgeRelativePose(num, dims, edges[k], contacts[k], faces[k]))
  }

  /** One simultaneous update: every edge placed from the same previous array. */
  function Step(poses: seq<Mat4>, edges: seq<Edge>, rels: seq<Mat4>): (r: seq<Mat4>)
    requires |edges| > 0 ==> |poses| > 0
    requires |rels| == |edges|
    ensures |r| == |edges|
    ensures forall k :: 0 <= k < |edges| ==> r[k] == Place(poses, edges[k], rels[k])
  {
    seq(|edges|, k requires 0 <= k < |edges| => Place(poses, edges[k], rels[k]))
  }

  /** The pose array after n simultaneous updates. */
  function Steps(poses: seq<Mat4>, edges: seq<Edge>, rels: seq<Mat4>, n: nat): (r: seq<Mat4>)
    requires |rels| == |edges|
    requires |edges| > 0 ==> |poses| > 0
    ensures |r| == if n == 0 then |poses| else |edges|
    ensures |edges| > 0 ==> |r| > 0
  {
    if n == 0 then poses else Step(Steps(poses, edges, rels, n - 1), edges, rels)
  }

  /**
   * One scan step of get_poses: iter mapped over the edges (jax.vmap), every
   * edge reading the same previous array.
   */
  function Round(num: Primitives, poses: seq<Mat4>, dims: seq<Vec3>,
                 edges: seq<Edge>, contacts: seq<Contact>, faces: seq<Faces>): (r: seq<Mat4>)
    requires SqrtLaw(num)
    requires |edges| > 0 ==> |poses| > 0 && |dims| > 0
    requires WellShaped(edges, contacts, faces)
    ensures |r| == |edges|
    ensures forall k :: 0 <= k < |edges| ==> r[k] == Iter(num, poses, dims, edges[k], contacts[k], faces[k])
  {
    Step(poses, edges, RelativePoses(num, dims, edges, contacts, faces))
  }

  /**
   * get_poses: as many scan steps as there are edges. jax.lax.scan needs the
   * carried pose array to keep its shape, so there is one pose per edge.
   */
  function GetPoses(num: Primitives, poses: seq<Mat4>, dims: seq<Vec3>,
                    edges: seq<Edge>, contacts: seq<Contact>, faces: seq<Faces>): (r: seq<Mat4>)
    requires SqrtLaw(num)
    requires |poses| == |edges|
    requires |edges| > 0 ==> |dims| > 0
    requires WellShaped(edges, contacts, faces)
    ensures |r| == |poses|
  {
    Steps(poses, edges, RelativePoses(num, dims, edges, contacts, faces), |edges|)
  }

  /**
   * A scene graph in the layout the propagation assumes: edge k places box k,
   * one pose per box, every parent is -1 or a box, and the parent links are
   * acyclic, witnessed by a rank that grows from parent to child.
   */
  predicate Forest(poses: seq<Mat4>, edges: seq<Edge>, rank: seq<nat>) {
    && |poses| == |edges|
    && |rank| == |edges|
    && (forall k :: 0 <= k < |edges| ==> edges[k].child == k)
    && (forall k :: 0 <= k < |edges| ==> edges[k].parent == -1 || 0 <= edges[k].parent < |edges|)
    && (forall k :: 0 <= k < |edges| ==> rank[k] < |edges|)
    && (forall k :: 0 <= k < |edges| && edges[k].parent != -1 ==> rank[edges[k].parent] < rank[k])
  }

  /**
   * A box whose rank is below r no longer moves after update r: update s = r + 1
   * gives it the pose it had after update r.
   */
  lemma {:induction false} Settled(poses: seq<Mat4>, edges: seq<Edge>, rels: seq<Mat4>,
                                   rank: seq<nat>, r: nat, s: nat, k: nat)
    requires |poses| > 0 && |rels| == |edges|
    requires Forest(poses, edges, rank)
    requires s == r + 1
    requires k < |edges| && rank[k] < r
    ensures Steps(poses, edges, rels, s)[k] == Steps(poses, edges, rels, r)[k]
    decreases r
  {
    if edges[k].parent == -1 {
      RootSettled(poses, edges, rels, rank, r, s, k);
    } else {
      var p := edges[k].parent;
      var q: nat := r - 1;
      assert 0 <= p < |edges| && rank[p] < q;
      Settled(poses, edges, rels, rank, q, r, p);
      FollowsParent(poses, edges, rels, q, r, s, k);
    }
  }

  /** A root box never moves: update s = r + 1 leaves it where update r put it. */
  lemma RootSettled(poses: seq<Mat4>, edges: seq<Edge>, rels: seq<Mat4>, rank: seq<nat>,
                    r: nat, s: nat, k: nat)
    requires |poses| > 0 && |rels| == |edges|
    requires Forest(poses, edges, rank)
    requires k < |edges| && edges[k].parent == -1
    ensures Steps(poses, edges, rels, s)[k] == Steps(poses, edges, rels, r)[k]
  {
    RootFixed(poses, edges, rels, rank, s, k);
    RootFixed(poses, edges, rels, rank, r, k);
  }

  /**
   * A child whose parent did not move in update r = q + 1 does not move in
   * update s = r + 1.
   */
  lemma FollowsParent(poses: seq<Mat4>, edges: seq<Edge>, rels: seq<Mat4>, q: nat, r: nat, s: nat, k: nat)
    requires |poses| == |edges| && |rels| == |edges|
    requires r == q + 1 && s == r + 1
    requires k < |edges| && edges[k].child == k && 0 <= edges[k].parent < |edges|
    requires Steps(poses, edges, rels, r)[edges[k].parent] == Steps(poses, edges, rels, q)[edges[k].parent]
    ensures Steps(poses, edges, rels, s)[k] == Steps(poses, edges, rels, r)[k]
  {
    StepsNext(poses, edges, rels, q, r);
    StepsNext(poses, edges, rels, r, s);
    StepAgrees(Steps(poses, edges, rels, r), Steps(poses, edges, rels, q), edges, rels, k);
  }

  /** Update m = n + 1 is one more scan step after update n. */
  lemma StepsNext(poses: seq<Mat4>, edges: seq<Edge>, rels: seq<Mat4>, n: nat, m: nat)
    requires |rels| == |edges| && (|edges| > 0 ==> |poses| > 0)
    requires m == n + 1
    ensures Steps(poses, edges, rels, m) == Step(Steps(poses, edges, rels, n), edges, rels)
  {
  }

  /**
   * Entry k of an update reads only the parent's entry of the previous array
   * (the child's own entry for a root), so two arrays that agree there give
   * the same entry k.
   */
  lemma StepAgrees(prev: seq<Mat4>, before: seq<Mat4>, edges: seq<Edge>, rels: seq<Mat4>, k: nat)
    requires |prev| == |edges| && |before| == |edges| && |rels| == |edges|
    requires k < |edges| && edges[k].child == k
    requires edges[k].parent == -1 || 0 <= edges[k].parent < |edges|
    requires edges[k].parent == -1 ==> prev[k] == before[k]
    requires edges[k].parent != -1 ==> prev[edges[k].parent] == before[edges[k].parent]
    ensures Step(prev, edges, rels)[k] == Step(before, edges, rels)[k]
  {
    assert Step(prev, edges, rels)[k] == Place(prev, edges[k], rels[k]);
    assert Step(before, edges, rels)[k] == Place(before, edges[k], rels[k]);
  }

  /** A root box keeps its input pose through every update. */
  lemma {:induction false} RootFixed(poses: seq<Mat4>, edges: seq<Edge>, rels: seq<Mat4>,
                                     rank: seq<nat>, r: nat, k: nat)
    requires |poses| > 0 && |rels| == |edges|
    requires Forest(poses, edges, rank)
    requires k < |edges| && edges[k].parent == -1
    ensures Steps(poses, edges, rels, r)[k] == poses[k]
    decreases r
  {
    if r > 0 {
      var prev := Steps(poses, edges, rels, r - 1);
      RootFixed(poses, edges, rels, rank, r - 1, k);
      assert |prev| == |edges|;
      assert Steps(poses, edges, rels, r) == Step(prev, edges, rels);
      assert Step(prev, edges, rels)[k] == Place(prev, edges[k], rels[k]);
      assert JaxIndex(|prev|, edges[k].child) == k;
    }
  }

  /**
   * After the rounds get_poses runs, the poses no longer change: one more
   * round gives back the same array.
   */
  lemma GetPosesStable(num: Primitives, poses: seq<Mat4>, dims: seq<Vec3>,
                       edges: seq<Edge>, contacts: seq<Contact>, faces: seq<Faces>, rank: seq<nat>)
    requires SqrtLaw(num)
    requires |edges| > 0 ==> |dims| > 0
    requires WellShaped(edges, contacts, faces)
    requires Forest(poses, edges, rank)
    ensures var g := GetPoses(num, poses, dims, edges, contacts, faces);
      Round(num, g, dims, edges, contacts, faces) == g
  {
    var rels := RelativePoses(num, dims, edges, contacts, faces);
    var n := |edges|;
    var g := Steps(poses, edges, rels, n);
    var next := Step(g, edges, rels);
    forall k | 0 <= k < n
      ensures next[k] == g[k]
    {
      Settled(poses, edges, rels, rank, n, n + 1, k);
    }
  }

  /**
   * The poses get_poses returns satisfy every edge: a root keeps its input
   * pose, and every other box sits at its parent's pose times the edge's
   * relative pose.
   */
  lemma GetPosesConsistent(num: Primitives, poses: seq<Mat4>, dims: seq<Vec3>,
                           edges: seq<Edge>, contacts: seq<Contact>, faces: seq<Faces>, rank: seq<nat>, k: nat)
    requires SqrtLaw(num)
    requires |edges| > 0 ==> |dims| > 0
    requires WellShaped(edges, contacts, faces)
    requires Forest(poses, edges, rank)
    requires k < |edges|
    ensures var g := GetPoses(num, poses, dims, edges, contacts, faces);
      && (edges[k].parent == -1 ==> g[k] == poses[k])
      && (edges[k].parent != -1 ==>
            g[k] == Mul4(g[edges[k].parent], EdgeRelativePose(num, dims, edges[k], contacts[k], faces[k])))
  {
    var rels := RelativePoses(num, dims, edges, contacts, faces);
    var g := GetPoses(num, poses, dims, edges, contacts, faces);
    GetPosesStable(num, poses, dims, edges, contacts, faces, rank);
    assert g[k] == Round(num, g, dims, edges, contacts, faces)[k];
    if edges[k].parent == -1 {
      RootFixed(poses, edges, rels, rank, |edges|, k);
    }
  }
}
