/** Filling the 30000 fixed particle slots from a sample: replication with
    wrap-around, the batched commit loop, the mesh vertex sampler and the
    random target box (src/components/ParticleScene.tsx). */
module Targets {
  import opened Base

  /** Number of particle slots; the buffers are allocated once at this size. */
  const Capacity: int := 30000
  /** Particles written per commit chunk before yielding to the frame loop. */
  const BatchSize: int := 6000
  /** Scale applied to mesh vertex coordinates. */
  const MeshScale: real := 0.2

  /** The target and colour buffers, one entry per particle slot. */
  datatype Buffers = Buffers(targets: seq<Vec3>, colors: seq<Vec3>)

  predicate Full(b: Buffers) {
    |b.targets| == Capacity && |b.colors| == Capacity
  }

  /** What an unguarded commit leaves behind: the replicated buffers, or,
      for an empty sample, every target coordinate `NaN` (`i % 0` is `NaN`,
      so is the read `pts[NaN]`) with the colours kept. */
  datatype Outcome = Committed(b: Buffers) | NaNTargets(colors: seq<Vec3>)

  /** Colour slot `i` after replication: the sample colour for `i mod m`
      when there is one, otherwise the slot's previous colour (`cols[j] ??
      colors[i]`). */
  function ColourSlot(cols: seq<Vec3>, previous: Vec3, i: int, m: int): Vec3
    requires m > 0
  {
    if i % m < |cols| then cols[i % m] else previous
  }

  /** `after` is `before` with every slot `i` set from sample entry
      `i mod |pts|`. */
  predicate IsReplication(before: Buffers, pts: seq<Vec3>, cols: seq<Vec3>, after: Buffers)
    requires Full(before) && |pts| > 0
  {
    && Full(after)
    && forall i :: 0 <= i < Capacity ==>
         after.targets[i] == pts[i % |pts|] && after.colors[i] == ColourSlot(cols, before.colors[i], i, |pts|)
  }

  /** The copy loop of `setTargetsFromText` and the worker branch of
      `setTargetsFromImage` as written: no guard against an empty sample. */
  function ReplicateAsWritten(b: Buffers, s: Samples): (o: Outcome)
    requires Full(b)
    ensures o.NaNTargets? <==> |s.pts| == 0
    ensures o.NaNTargets? ==> o.colors == b.colors
    ensures o.Committed? ==> IsReplication(b, s.pts, s.cols, o.b)
  {
    if |s.pts| == 0 then NaNTargets(b.colors)
    else
      var m := |s.pts|;
      Committed(Buffers(
        seq(Capacity, i requires 0 <= i < Capacity => s.pts[i % m]),
        seq(Capacity, i requires 0 <= i < Capacity => ColourSlot(s.cols, b.colors[i], i, m))))
  }

  /** An empty sample (blank text, a fully transparent image) overwrites all
      30000 targets with `NaN` instead of leaving them alone. */
  lemma EmptySampleWritesNaN(b: Buffers, cols: seq<Vec3>)
    requires Full(b)
    ensures ReplicateAsWritten(b, Samples([], cols)).NaNTargets?
  {
  }

  /** Replication with the empty-sample guard the mesh path has: an empty
      sample leaves both buffers untouched, any other fills every slot. */
  function Replicate(b: Buffers, s: Samples): (r: Buffers)
    requires Full(b)
    ensures Full(r)
    ensures |s.pts| == 0 ==> r == b
    ensures |s.pts| > 0 ==> IsReplication(b, s.pts, s.cols, r)
    ensures |s.pts| > 0 ==> ReplicateAsWritten(b, s) == Committed(r)
  {
    match ReplicateAsWritten(b, s)
    case Committed(r) => r
    case NaNTargets(_) => b
  }

  /** The slots below `n` are replicated from the sample and the colours
      from `n` on are still the old ones. */
  predicate CommittedBelow(b: Buffers, s: Samples, t: seq<Vec3>, c: seq<Vec3>, n: int)
    requires Full(b) && |s.pts| > 0
  {
    && |t| == Capacity && |c| == Capacity && 0 <= n <= Capacity
    && (forall i :: 0 <= i < n ==> t[i] == s.pts[i % |s.pts|] && c[i] == ColourSlot(s.cols, b.colors[i], i, |s.pts|))
    && (forall i :: n <= i < Capacity ==> c[i] == b.colors[i])
  }

  /** Replication has one result: any buffers that replicate the sample are
      the guarded replication's. */
  lemma ReplicationUnique(b: Buffers, s: Samples, r: Buffers)
    requires Full(b) && |s.pts| > 0
    requires IsReplication(b, s.pts, s.cols, r)
    ensures r == Replicate(b, s)
  {
    var q := Replicate(b, s);
    assert r.targets == q.targets;
    assert r.colors == q.colors;
  }

  /** The chunked copy of `setTargetsFromImage`: chunks `[start, min(30000,
      start + 6000))` for start = 0, 6000, ..., each copied in ascending
      order. Returns the slots in the order they were written and the end of
      each chunk (where the loop yields). */
  method BatchedCommit(b: Buffers, s: Samples) returns (r: Buffers, order: seq<int>, chunkEnds: seq<int>)
    requires Full(b) && |s.pts| > 0
    ensures r == Replicate(b, s)
    ensures |order| == Capacity && forall k :: 0 <= k < Capacity ==> order[k] == k
    ensures |chunkEnds| == Capacity / BatchSize
    ensures forall c :: 0 <= c < |chunkEnds| ==> chunkEnds[c] == (c + 1) * BatchSize
  {
    var t, c := b.targets, b.colors;
    order, chunkEnds := [], [];
    var start := 0;
    while start < Capacity
      invariant 0 <= start <= Capacity && start == |chunkEnds| * BatchSize
      invariant forall e :: 0 <= e < |chunkEnds| ==> chunkEnds[e] == (e + 1) * BatchSize
      invariant |order| == start && forall k :: 0 <= k < start ==> order[k] == k
      invariant CommittedBelow(b, s, t, c, start)
    {
      var end := MinInt(Capacity, start + BatchSize);
      t, c, order := CopyChunk(b, s, t, c, order, start, end);
      chunkEnds := chunkEnds + [end];
      start := start + BatchSize;
    }
    r := Buffers(t, c);
    ReplicationUnique(b, s, r);
  }

  /** One chunk of the commit: slots `start` to `end - 1`, in ascending order. */
  method CopyChunk(b: Buffers, s: Samples, t0: seq<Vec3>, c0: seq<Vec3>, order0: seq<int>, start: int, end: int)
    returns (t: seq<Vec3>, c: seq<Vec3>, order: seq<int>)
    requires Full(b) && |s.pts| > 0 && start <= end <= Capacity
    requires CommittedBelow(b, s, t0, c0, start)
    requires |order0| == start && forall k :: 0 <= k < start ==> order0[k] == k
    ensures CommittedBelow(b, s, t, c, end)
    ensures |order| == end && forall k :: 0 <= k < end ==> order[k] == k
  {
    var m := |s.pts|;
    t, c, order := t0, c0, order0;
    var i := start;
    while i < end
      invariant start <= i <= end
      invariant CommittedBelow(b, s, t, c, i)
      invariant |order| == i && forall k :: 0 <= k < i ==> order[k] == k
    {
      var j := i % m;
      t := t[i := s.pts[j]];
      c := c[i := if j < |s.cols| then s.cols[j] else c[i]];
      order := order + [i];
      i := i + 1;
    }
  }

  // ---------------------------------------------------------------------
  // Mesh sampler

  /** `max(1, floor(count / max(1, T)))` with `T = min(particleCount, 30000)`:
      the vertex stride for a mesh of `count` vertices. */
  function MeshStep(count: nat, particleCount: int): (k: int)
    ensures k >= 1
    ensures var t := MaxInt(1, MinInt(particleCount, Capacity));
      (k == 1 || k * t <= count) && count < (k + 1) * t
  {
    var t := MaxInt(1, MinInt(particleCount, Capacity));
    MaxInt(1, count / t)
  }

  /** The vertex indices `from, from + step, ...` below `count`: exactly the
      indices on the stride from `from`, in increasing order. */
  function Visited(count: nat, step: int, from: nat): (r: seq<nat>)
    requires step >= 1
    ensures forall k :: 0 <= k < |r| ==> r[k] < count && r[k] == from + k * step
    ensures forall j :: from <= j < count && (j - from) % step == 0 ==> j in r
    decreases count - from
  {
    if from >= count then []
    else
      var rest := Visited(count, step, from + step);
      assert forall k :: 1 <= k <= |rest| ==> from + step + (k - 1) * step == from + k * step;
      VisitedCons(count, step, from, rest);
      [from] + rest
  }

  lemma VisitedCons(count: nat, step: int, from: nat, rest: seq<nat>)
    requires step >= 1 && from < count
    requires forall j :: from + step <= j < count && (j - (from + step)) % step == 0 ==> j in rest
    ensures forall j :: from <= j < count && (j - from) % step == 0 ==> j in [from] + rest
  {
    forall j | from < j < count && (j - from) % step == 0
      ensures j in rest
    {
      StrideShift(j - from, step);
      assert j - (from + step) == j - from - step;
    }
  }

  /** One mesh's sampled points: every `step`-th vertex, scaled by 0.2. */
  function SampleMesh(vertices: seq<Vec3>, particleCount: int): (r: seq<Vec3>)
    ensures var step := MeshStep(|vertices|, particleCount);
      var idx := Visited(|vertices|, step, 0);
      |r| == |idx| && forall k :: 0 <= k < |r| ==> r[k] == Scale(vertices[idx[k]], MeshScale)
    ensures |r| == 0 <==> |vertices| == 0
  {
    var idx := Visited(|vertices|, MeshStep(|vertices|, particleCount), 0);
    seq(|idx|, k requires 0 <= k < |idx| => Scale(vertices[idx[k]], MeshScale))
  }

  /** The traversal over all meshes of the scene, in order. */
  function SampleMeshes(meshes: seq<seq<Vec3>>, particleCount: int): (r: seq<Vec3>)
    ensures |r| == 0 <==> forall m :: 0 <= m < |meshes| ==> |meshes[m]| == 0
  {
    if |meshes| == 0 then []
    else
      var rest := SampleMeshes(meshes[1..], particleCount);
      assert forall m :: 1 <= m < |meshes| ==> meshes[m] == meshes[1..][m - 1];
      SampleMesh(meshes[0], particleCount) + rest
  }

  /** The traversal keeps scene order: the points of the meshes in `a`
      come first, then those of the meshes in `b`. */
  lemma {:induction false} SampleMeshesAppend(a: seq<seq<Vec3>>, b: seq<seq<Vec3>>, particleCount: int)
    ensures SampleMeshes(a + b, particleCount) == SampleMeshes(a, particleCount) + SampleMeshes(b, particleCount)
  {
    if |a| == 0 {
      assert a + b == b;
    } else {
      assert (a + b)[1..] == a[1..] + b;
      SampleMeshesAppend(a[1..], b, particleCount);
    }
  }

  /** A single mesh node contributes exactly its own sampled points. */
  lemma SampleMeshesOne(m: seq<Vec3>, particleCount: int)
    ensures SampleMeshes([m], particleCount) == SampleMesh(m, particleCount)
  {
    assert [m][1..] == [];
  }

  /** `setTargetsFromGLTF` after loading: an empty sample returns early;
      otherwise every target slot is replicated from the points and the
      colours are never touched. */
  function CommitMesh(b: Buffers, meshes: seq<seq<Vec3>>, particleCount: int): (r: Buffers)
    requires Full(b)
    ensures Full(r) && r.colors == b.colors
    ensures (forall m :: 0 <= m < |meshes| ==> |meshes[m]| == 0) ==> r == b
    ensures var pts := SampleMeshes(meshes, particleCount);
      |pts| > 0 ==> forall i :: 0 <= i < Capacity ==> r.targets[i] == pts[i % |pts|]
  {
    var pts := SampleMeshes(meshes, particleCount);
    if |pts| == 0 then b
    else Replicate(b, Samples(pts, []))
  }

  // ---------------------------------------------------------------------
  // Random targets

  /** Three `Math.random()` draws, each in [0, 1). */
  predicate UnitDraw(u: Vec3) {
    0.0 <= u.x < 1.0 && 0.0 <= u.y < 1.0 && 0.0 <= u.z < 1.0
  }

  predicate InRandomBox(t: Vec3) {
    -25.0 <= t.x < 25.0 && -15.0 <= t.y < 15.0 && -25.0 <= t.z < 25.0
  }

  /** One random target from three draws. */
  function RandomTarget(u: Vec3): (t: Vec3)
    requires UnitDraw(u)
    ensures InRandomBox(t)
  {
    Vec3((u.x - 0.5) * 50.0, (u.y - 0.5) * 30.0, (u.z - 0.5) * 50.0)
  }

  /** `setRandomTargets`: slot `i` from draw `i`, inside the 50 x 30 x 50 box
      around the origin; colours are not touched. */
  function RandomTargets(b: Buffers, draws: seq<Vec3>): (r: Buffers)
    requires Full(b) && |draws| == Capacity
    requires forall i :: 0 <= i < Capacity ==> UnitDraw(draws[i])
    ensures Full(r) && r.colors == b.colors
    ensures forall i :: 0 <= i < Capacity ==> InRandomBox(r.targets[i])
  {
    Buffers(
      seq(Capacity, i requires 0 <= i < Capacity => RandomTarget(draws[i])),
      b.colors)
  }
}
