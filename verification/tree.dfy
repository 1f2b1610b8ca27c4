/**
 * The node arena of SpiralTree.cs: the list of spirals a tree grows by appending, the
 * invariant that holds it together, the neighbour and edge checks a candidate leaf
 * must pass, the first open angle on a spiral, and the planting of the root or twin
 * roots.
 */
module Trees {
  import opened Angles
  import opened Plane
  import opened Seqs
  import opened Configs
  import opened Boundary
  import opened Nodes

  /**
   * What growth reads and never changes: the configuration, the analysis oracle, the
   * spiral outline, the container, SpiralTree.CenterPair (the two twin centres for a
   * centre, start angle, radius and twin scale), and the random streams: leaf draws
   * for NextLeafRad and raw draws for NumLeaves.
   */
  datatype Env = Env(
    c: Config,
    o: Oracle,
    sh: Shape,
    container: Polygon,
    centerPair: (Point, real, real, real) -> (Point, Point),
    draws: nat -> LeafDraw,
    leafNums: nat -> nat)

  /** What growth changes besides the nodes: Configs.minRootBase and the number of
      random draws consumed so far. */
  datatype Aux = Aux(minRootBase: real, tick: nat)

  /** The next leaf draw, and the position after it. */
  function Draw(e: Env, a: Aux): (r: (LeafDraw, Aux))
    ensures r.1 == a.(tick := a.tick + 1)
  {
    (e.draws(a.tick), a.(tick := a.tick + 1))
  }

  /** A slot index of the tables. */
  predicate SlotOk(c: Config, s: int)
  {
    0 <= s < |c.slotSizes|
  }

  /** Every slot list a random leaf count can ask for names no negative slot. */
  predicate SlotListsNonneg(c: Config)
  {
    forall take: nat, k: nat :: 2 <= take < Max(FractionCount(c), 3) && k < take ==> GetSlotList(c, take)[k] >= 0
  }

  /** The configuration growth needs: consistent tables, at least one slot and one slot
      in use, and slot lists without negative slots. */
  predicate EngineConfig(c: Config)
  {
    Tables(c) && |c.slotSizes| > 0 && |c.useSlots| > 0 && SlotListsNonneg(c)
  }

  /** For the options the interface offers, the slot lists name no negative slot. */
  lemma InterfaceSlotLists(c: Config)
    requires InterfaceOptions(c) && |c.slotSizes| == SlotCount(c)
    ensures SlotListsNonneg(c)
  {
    forall take: nat, k: nat | 2 <= take < Max(FractionCount(c), 3) && k < take
      ensures GetSlotList(c, take)[k] >= 0
    {
      if take != 2 && c.GRAD {
        assert WindowSlots(c) - take >= -1;
      }
    }
  }

  /** A node's own lists are consistent and point only at the first count nodes; its
      slot exists and its edge data has one entry per container edge. */
  predicate NodeOk(e: Env, n: Node, count: int)
  {
    Lockstep(n) && (n.clock == 1 || n.clock == -1) && SlotOk(e.c, n.slot) &&
    (forall k :: 0 <= k < |n.leafIdxs| ==> 0 <= n.leafIdxs[k] < count) &&
    (forall k :: 0 <= k < |n.nhbrIdxs| ==> 0 <= n.nhbrIdxs[k] < count) &&
    |n.edgeDists| == |e.container.edges| && |n.edgePoints| == |e.container.edges|
  }

  /**
   * The arena invariant: every node is consistent; a node's parent comes before it;
   * a leaf turns against its parent; and each recorded leaf names its parent.
   */
  predicate ValidTree(e: Env, ns: seq<Node>)
  {
    (forall i :: 0 <= i < |ns| ==> NodeOk(e, ns[i], |ns|)) &&
    (forall i :: 0 <= i < |ns| ==> ns[i].prntIdx == -1 || 0 <= ns[i].prntIdx < i) &&
    (forall i :: 0 <= i < |ns| && ns[i].prntIdx != -1 ==> ns[i].clock == -ns[ns[i].prntIdx].clock) &&
    (forall i, k :: 0 <= i < |ns| && 0 <= k < |ns[i].leafIdxs| ==> ns[ns[i].leafIdxs[k]].prntIdx == i)
  }

  /** Two versions of a node with the same links: only flags and geometry differ. */
  predicate SameLinks(a: Node, b: Node)
  {
    a.prntIdx == b.prntIdx && a.clock == b.clock && a.slot == b.slot &&
    a.leafIdxs == b.leafIdxs && |a.leafAngls| == |b.leafAngls| &&
    a.nhbrIdxs == b.nhbrIdxs && |a.nhbrDists| == |b.nhbrDists| &&
    |a.edgeDists| == |b.edgeDists| && |a.edgePoints| == |b.edgePoints|
  }

  /** Replacing a node by one with the same links keeps the arena valid. */
  lemma ReplaceKeepsValid(e: Env, ns: seq<Node>, i: nat, n: Node)
    requires ValidTree(e, ns) && i < |ns| && SameLinks(ns[i], n)
    ensures ValidTree(e, ns[i := n])
  {
    var ns' := ns[i := n];
    forall j | 0 <= j < |ns'|
      ensures NodeOk(e, ns'[j], |ns'|)
    {
      assert NodeOk(e, ns[j], |ns|);
    }
  }

  /** Marks a node full. */
  function SetFull(ns: seq<Node>, i: nat): (r: seq<Node>)
    requires i < |ns|
    ensures |r| == |ns| && r[i].full && SameLinks(ns[i], r[i])
    ensures forall j :: 0 <= j < |ns| && j != i ==> r[j] == ns[j]
  {
    ns[i := ns[i].(full := true)]
  }

  /** Sets whether a node is blocked. */
  function SetBlocked(ns: seq<Node>, i: nat, b: bool): (r: seq<Node>)
    requires i < |ns|
    ensures |r| == |ns| && r[i].blocked == b && SameLinks(ns[i], r[i])
    ensures forall j :: 0 <= j < |ns| && j != i ==> r[j] == ns[j]
  {
    ns[i := ns[i].(blocked := b)]
  }

  /** A leaf being fitted to parent p: it turns against the parent, has no leaves of
      its own, and is consistent with the current arena. */
  predicate Candidate(e: Env, ns: seq<Node>, leaf: Node, p: int)
  {
    0 <= p < |ns| && leaf.prntIdx == p && leaf.clock == -ns[p].clock &&
    leaf.leafIdxs == [] && leaf.leafAngls == [] && NodeOk(e, leaf, |ns|)
  }

  // ---------------------------------------------------------------------------------
  // The neighbour check (SpiralTree.CheckNhbrFit)

  /** The collision cutoff: the node buffer, or 0.65 of it for a sibling. */
  function Cutoff(c: Config, leaf: Body, other: Node): real
  {
    if leaf.prntIdx == other.prntIdx then 0.65 * c.nodeBuffer else c.nodeBuffer
  }

  /** Node i collides with the leaf: it is not the leaf's parent and the outlines are
      closer than the cutoff. */
  predicate Collides(e: Env, ns: seq<Node>, leaf: Body, i: int)
    requires 0 <= i < |ns|
  {
    i != leaf.prntIdx && SurfaceDist(e.o, e.sh, leaf, BodyOf(ns[i])) < Cutoff(e.c, leaf, ns[i])
  }

  /** Which nodes collide with the leaf, by index. */
  function CollisionFlags(e: Env, ns: seq<Node>, leaf: Body): (r: seq<bool>)
    ensures |r| == |ns|
  {
    seq(|ns|, i requires 0 <= i < |ns| => Collides(e, ns, leaf, i))
  }

  /** The surface distance from the leaf to every node. */
  function Gaps(e: Env, ns: seq<Node>, leaf: Body): (r: seq<real>)
    ensures |r| == |ns|
  {
    seq(|ns|, i requires 0 <= i < |ns| => SurfaceDist(e.o, e.sh, leaf, BodyOf(ns[i])))
  }

  /** The colliding nodes, in index order. */
  function Collisions(e: Env, ns: seq<Node>, leaf: Body): seq<int>
  {
    Where(CollisionFlags(e, ns, leaf), |ns|)
  }

  /** The colliding nodes' distances, position for position with Collisions. */
  function CollisionDists(e: Env, ns: seq<Node>, leaf: Body): seq<real>
  {
    PickWhere(CollisionFlags(e, ns, leaf), Gaps(e, ns, leaf), |ns|)
  }

  /** Collisions lists exactly the colliding nodes, once each, in index order, and
      CollisionDists gives the distance to each. */
  lemma CollisionsExact(e: Env, ns: seq<Node>, leaf: Body)
    ensures forall i :: i in Collisions(e, ns, leaf) <==> 0 <= i < |ns| && Collides(e, ns, leaf, i)
    ensures StrictlyAscending(Collisions(e, ns, leaf))
    ensures |CollisionDists(e, ns, leaf)| == |Collisions(e, ns, leaf)|
    ensures forall k :: 0 <= k < |Collisions(e, ns, leaf)| ==>
              0 <= Collisions(e, ns, leaf)[k] < |ns| && CollisionDists(e, ns, leaf)[k] == SurfaceDist(e.o, e.sh, leaf, BodyOf(ns[Collisions(e, ns, leaf)[k]]))
  {
    WhereExact(CollisionFlags(e, ns, leaf), |ns|);
    PickWhereAligned(CollisionFlags(e, ns, leaf), Gaps(e, ns, leaf), |ns|);
  }

  /** No node other than the parent comes within its cutoff. */
  predicate NoCollision(e: Env, ns: seq<Node>, leaf: Body)
  {
    forall i :: 0 <= i < |ns| ==> !Collides(e, ns, leaf, i)
  }

  /** The collision list is empty exactly when nothing collides. */
  lemma NoCollisionEmpty(e: Env, ns: seq<Node>, leaf: Body)
    ensures Collisions(e, ns, leaf) == [] <==> NoCollision(e, ns, leaf)
  {
    var cs := Collisions(e, ns, leaf);
    CollisionsExact(e, ns, leaf);
    if cs != [] {
      assert cs[0] in cs;
    }
    if !NoCollision(e, ns, leaf) {
      var i :| 0 <= i < |ns| && Collides(e, ns, leaf, i);
      assert i in cs;
    }
  }

  /**
   * SpiralTree.CheckNhbrFit: the scan over the arena appends every colliding node, with
   * its distance, to the leaf's neighbour lists (which are not cleared first); the leaf
   * fits when the lists end up empty.
   */
  method CheckNhbrFit(e: Env, ns: seq<Node>, leaf: Node) returns (ok: bool, r: Node)
    ensures r == leaf.(nhbrIdxs := leaf.nhbrIdxs + Collisions(e, ns, BodyOf(leaf)),
                       nhbrDists := leaf.nhbrDists + CollisionDists(e, ns, BodyOf(leaf)))
    ensures ok <==> |r.nhbrIdxs| == 0
    ensures ok <==> leaf.nhbrIdxs == [] && NoCollision(e, ns, BodyOf(leaf))
  {
    var found := Collisions(e, ns, BodyOf(leaf));
    var foundDists := CollisionDists(e, ns, BodyOf(leaf));
    r := leaf.(nhbrIdxs := leaf.nhbrIdxs + found, nhbrDists := leaf.nhbrDists + foundDists);
    ok := |r.nhbrIdxs| <= 0;
    NoCollisionEmpty(e, ns, BodyOf(leaf));
  }

  // ---------------------------------------------------------------------------------
  // The edge check (SpiralTree.CheckEdgeFit)

  /** The edge check can read the parent's edge data. */
  predicate EdgeArgs(e: Env, ns: seq<Node>, leaf: Body)
  {
    leaf.prntIdx == -1 ||
    (0 <= leaf.prntIdx < |ns| && |ns[leaf.prntIdx].edgeDists| == |e.container.edges|)
  }

  /** The leaf jumped edge k: its parent is close enough to the edge to matter and the
      segment from the parent's centre to the leaf's crosses it (never for a root). */
  predicate Jumped(e: Env, ns: seq<Node>, leaf: Body, k: int)
    requires EdgeArgs(e, ns, leaf) && 0 <= k < |e.container.edges|
  {
    leaf.prntIdx != -1 &&
    var prnt := ns[leaf.prntIdx];
    AbsR(prnt.edgeDists[k]) < prnt.rad + 2.0 * leaf.rad + leaf.lift + e.c.nodeBuffer &&
    CrossesEdge(e.o, e.container.edges[k], prnt.ctr, leaf.ctr)
  }

  /** The closest point of edge k to the leaf's centre, and the distance to it. */
  function EdgeFoot(e: Env, leaf: Body, k: int): Foot
    requires 0 <= k < |e.container.edges|
  {
    DistanceToEdge(e.o, e.container.edges[k], leaf.ctr)
  }

  /** Edge k is clear of the leaf: not jumped, the outline at least half the node
      buffer from the closest point, and a nonzero distance. */
  predicate EdgeClear(e: Env, ns: seq<Node>, leaf: Body, k: int)
    requires EdgeArgs(e, ns, leaf) && 0 <= k < |e.container.edges|
  {
    !Jumped(e, ns, leaf, k) &&
    SkinDistToPt(e.o, e.sh, leaf, EdgeFoot(e, leaf, k).pt) >= e.c.nodeBuffer / 2.0 &&
    EdgeFoot(e, leaf, k).dist != 0.0
  }

  /** The entry recorded for edge k: 0 for a deal breaker, else the distance's size. */
  function EdgeEntry(e: Env, ns: seq<Node>, leaf: Body, k: int): (r: real)
    requires EdgeArgs(e, ns, leaf) && 0 <= k < |e.container.edges|
    ensures r >= 0.0
    ensures r == 0.0 <==> !EdgeClear(e, ns, leaf, k)
  {
    if Jumped(e, ns, leaf, k) || SkinDistToPt(e.o, e.sh, leaf, EdgeFoot(e, leaf, k).pt) < e.c.nodeBuffer / 2.0
    then 0.0
    else AbsR(EdgeFoot(e, leaf, k).dist)
  }

  function EdgeDistsOf(e: Env, ns: seq<Node>, leaf: Body): (r: seq<real>)
    requires EdgeArgs(e, ns, leaf)
    ensures |r| == |e.container.edges|
  {
    seq(|e.container.edges|, k requires 0 <= k < |e.container.edges| => EdgeEntry(e, ns, leaf, k))
  }

  function EdgePointsOf(e: Env, leaf: Body): (r: seq<Point>)
    ensures |r| == |e.container.edges|
  {
    seq(|e.container.edges|, k requires 0 <= k < |e.container.edges| => EdgeFoot(e, leaf, k).pt)
  }

  predicate EdgesClear(e: Env, ns: seq<Node>, leaf: Body)
    requires EdgeArgs(e, ns, leaf)
  {
    forall k :: 0 <= k < |e.container.edges| ==> EdgeClear(e, ns, leaf, k)
  }

  /**
   * SpiralTree.CheckEdgeFit: the leaf's edge data is rewritten with one entry per
   * container edge (0 when the leaf jumped the edge or its outline comes within half
   * the node buffer, else the size of the distance) and the closest points; the leaf
   * fits when no entry is 0.
   */
  method CheckEdgeFit(e: Env, ns: seq<Node>, leaf: Node) returns (ok: bool, r: Node)
    requires EdgeArgs(e, ns, BodyOf(leaf))
    ensures r == leaf.(edgeDists := EdgeDistsOf(e, ns, BodyOf(leaf)), edgePoints := EdgePointsOf(e, BodyOf(leaf)))
    ensures ok <==> EdgesClear(e, ns, BodyOf(leaf))
  {
    var edgeDists := EdgeDistsOf(e, ns, BodyOf(leaf));
    r := leaf.(edgeDists := edgeDists, edgePoints := EdgePointsOf(e, BodyOf(leaf)));
    ok := 0.0 !in edgeDists;
    if ok {
      forall k | 0 <= k < |edgeDists|
        ensures EdgeClear(e, ns, BodyOf(leaf), k)
      {
        assert edgeDists[k] != 0.0;
      }
    } else {
      var k :| 0 <= k < |edgeDists| && edgeDists[k] == 0.0;
      assert !EdgeClear(e, ns, BodyOf(leaf), k);
    }
  }

  // ---------------------------------------------------------------------------------
  // The combined check (SpiralTree.CheckFit)

  /** The leaf fits: no collision and every edge clear. */
  predicate Fits(e: Env, ns: seq<Node>, leaf: Body)
    requires EdgeArgs(e, ns, leaf)
  {
    NoCollision(e, ns, leaf) && EdgesClear(e, ns, leaf)
  }

  /** A leaf that passed the check as it stands: no neighbours recorded, its edge data
      that of its own position, and a fit. */
  predicate Accepted(e: Env, ns: seq<Node>, leaf: Node)
  {
    EdgeArgs(e, ns, BodyOf(leaf)) && leaf.nhbrIdxs == [] &&
    leaf.edgeDists == EdgeDistsOf(e, ns, BodyOf(leaf)) && leaf.edgePoints == EdgePointsOf(e, BodyOf(leaf)) &&
    Fits(e, ns, BodyOf(leaf))
  }

  /** SpiralTree.CheckFit: the neighbour check, then the edge check; the leaf fits when
      both pass. */
  method CheckFit(e: Env, ns: seq<Node>, leaf: Node) returns (ok: bool, r: Node)
    requires EdgeArgs(e, ns, BodyOf(leaf))
    ensures r == leaf.(nhbrIdxs := leaf.nhbrIdxs + Collisions(e, ns, BodyOf(leaf)),
                       nhbrDists := leaf.nhbrDists + CollisionDists(e, ns, BodyOf(leaf)),
                       edgeDists := EdgeDistsOf(e, ns, BodyOf(leaf)),
                       edgePoints := EdgePointsOf(e, BodyOf(leaf)))
    ensures ok <==> leaf.nhbrIdxs == [] && Fits(e, ns, BodyOf(leaf))
    ensures ok ==> Accepted(e, ns, r)
  {
    var fitsNhbrs, r1 := CheckNhbrFit(e, ns, leaf);
    var fitsEdges, r2 := CheckEdgeFit(e, ns, r1);
    r := r2;
    ok := fitsNhbrs && fitsEdges;
  }

  /** A checked candidate stays a candidate: the recorded neighbours are nodes of the
      arena and the edge data has one entry per edge. */
  lemma CheckedCandidate(e: Env, ns: seq<Node>, leaf: Node, p: int)
    requires Candidate(e, ns, leaf, p) && EdgeArgs(e, ns, BodyOf(leaf))
    ensures Candidate(e, ns, leaf.(nhbrIdxs := leaf.nhbrIdxs + Collisions(e, ns, BodyOf(leaf)),
                                   nhbrDists := leaf.nhbrDists + CollisionDists(e, ns, BodyOf(leaf)),
                                   edgeDists := EdgeDistsOf(e, ns, BodyOf(leaf)),
                                   edgePoints := EdgePointsOf(e, BodyOf(leaf))), p)
  {
    var cs := Collisions(e, ns, BodyOf(leaf));
    CollisionsExact(e, ns, BodyOf(leaf));
    forall k | 0 <= k < |cs|
      ensures 0 <= cs[k] < |ns|
    {
      assert cs[k] in cs;
    }
  }

  // ---------------------------------------------------------------------------------
  // The first open angle (SpiralTree.FirstOpenAngl)

  /** The twin root is in the arena, as the second node. */
  predicate TwinPresent(ns: seq<Node>)
  {
    |ns| > 1 && IsRoot(ns[1])
  }

  /** The part of FirstOpenAngl shared by both versions: a spiral that is not a leafless
      root. With leaves, one halo and the last leaf's arc past the last leaf; for a
      leaf's first leaf, the parent's obstructing sibling's conflict angle when it is
      close, else the base angle. */
  function OpenAnglAfterLeaves(e: Env, ns: seq<Node>, idx: int): (r: real)
    requires ValidTree(e, ns) && 0 <= idx < |ns|
    requires !(IsRoot(ns[idx]) && !HasLeaves(ns[idx]))
    ensures !HasLeaves(ns[idx]) && ObstructingSibIdx(ns[ns[idx].prntIdx], idx) == -1 ==>
              r == BaseAngle(e.o, ns[idx], ns[ns[idx].prntIdx].rad) && r != NoAngle
    ensures !HasLeaves(ns[idx]) && ObstructingSibIdx(ns[ns[idx].prntIdx], idx) != -1 ==>
              idx + 1 < |ns| &&
              var conflict := SibConflictAngle(e.c, e.o, ns[idx], ns[idx + 1]);
              (conflict != NoAngle ==> r == conflict) &&
              (conflict == NoAngle ==> r == BaseAngle(e.o, ns[idx], ns[ns[idx].prntIdx].rad))
    ensures !HasLeaves(ns[idx]) ==> r != NoAngle
    ensures HasLeaves(ns[idx]) ==> 0.0 <= r <= Tau && 0 <= LastLeafIdx(ns[idx]) < |ns|
    ensures HasLeaves(ns[idx]) ==>
              r == Mod2Pi(LastLeafAngle(e.c, ns[idx]) - (ns[idx].clock as real) *
                          (e.c.nodeHalo + CalcLeafArcSpan(e.o, ns[idx].rad, ns[LastLeafIdx(ns[idx])].rad)))
  {
    var n := ns[idx];
    assert NodeOk(e, n, |ns|);
    if !HasLeaves(n) then
      var prnt := ns[n.prntIdx];
      var sib := ObstructingSibIdx(prnt, idx);
      if sib != -1 then
        assert NodeOk(e, prnt, |ns|) && sib in prnt.leafIdxs;
        var sibAngle := SibConflictAngle(e.c, e.o, n, ns[sib]);
        if sibAngle != NoAngle then sibAngle else BaseAngle(e.o, n, prnt.rad)
      else BaseAngle(e.o, n, prnt.rad)
    else
      var prevLeafIdx := LastLeafIdx(n);
      var prevLeafArc := CalcLeafArcSpan(e.o, n.rad, ns[prevLeafIdx].rad);
      Mod2Pi(LastLeafAngle(e.c, n) - (n.clock as real) * (e.c.nodeHalo + prevLeafArc))
  }

  /**
   * SpiralTree.FirstOpenAngl as written, with the minimum root base it leaves behind.
   * For a leafless root of a twin tree it measures the distance between nodes 0 and 1,
   * which fails (an index out of range in the source) when the twin was never added.
   */
  function FirstOpenAnglAsWritten(e: Env, ns: seq<Node>, minRootBase: real, idx: int): (r: Result<(real, real)>)
    requires EngineConfig(e.c) && ValidTree(e, ns) && 0 <= idx < |ns|
    ensures r.Fail? <==> e.c.TWIN && IsRoot(ns[idx]) && !HasLeaves(ns[idx]) && |ns| < 2
    ensures r.Ok? && (!e.c.TWIN || TwinPresent(ns)) ==> r.value == FirstOpenAngl(e, ns, minRootBase, idx)
  {
    var n := ns[idx];
    if !HasLeaves(n) && IsRoot(n) then
      if e.c.TWIN && |ns| < 2 then Fail("Nodes[1] is out of range")
      else
        var rootDist := if e.c.TWIN then PointDist(e.o, ns[0].ctr, ns[1].ctr) else 0.0;
        Ok(RootBaseAngle(e.c, e.o, n, idx, rootDist, minRootBase))
    else Ok((OpenAnglAfterLeaves(e, ns, idx), minRootBase))
  }

  /**
   * SpiralTree.FirstOpenAngl, corrected: the absolute angle at which the next leaf of
   * spiral idx may start, and the minimum root base. A leafless root takes its root
   * base angle, measured against the twin only when the twin is there; otherwise the
   * root is treated as the single root it is.
   */
  function FirstOpenAngl(e: Env, ns: seq<Node>, minRootBase: real, idx: int): (r: (real, real))
    requires EngineConfig(e.c) && ValidTree(e, ns) && 0 <= idx < |ns|
    ensures !(IsRoot(ns[idx]) && !HasLeaves(ns[idx])) ==> r.1 == minRootBase
    ensures IsRoot(ns[idx]) && !HasLeaves(ns[idx]) && !(e.c.TWIN && TwinPresent(ns)) ==>
              r == (ToAbsRemainingAngle(ns[idx], e.c.startAt), minRootBase)
    ensures IsRoot(ns[idx]) || HasLeaves(ns[idx]) ==> 0.0 <= r.0 <= Tau
    ensures !(IsRoot(ns[idx]) && !HasLeaves(ns[idx])) ==> r.0 == OpenAnglAfterLeaves(e, ns, idx)
  {
    var n := ns[idx];
    if !HasLeaves(n) && IsRoot(n) then
      if e.c.TWIN && TwinPresent(ns) then
        RootBaseAngle(e.c, e.o, n, idx, PointDist(e.o, ns[0].ctr, ns[1].ctr), minRootBase)
      else
        RootBaseAngle(e.c.(TWIN := false), e.o, n, idx, 0.0, minRootBase)
    else (OpenAnglAfterLeaves(e, ns, idx), minRootBase)
  }

  /** A twin tree whose twin was dropped fails at its root's first leaf as written,
      while the corrected version gives the single root's start angle. */
  lemma DroppedTwinFails(e: Env, ns: seq<Node>, minRootBase: real)
    requires EngineConfig(e.c) && ValidTree(e, ns) && e.c.TWIN
    requires |ns| == 1 && IsRoot(ns[0]) && !HasLeaves(ns[0])
    ensures FirstOpenAnglAsWritten(e, ns, minRootBase, 0).Fail?
    ensures FirstOpenAngl(e, ns, minRootBase, 0) == (ToAbsRemainingAngle(ns[0], e.c.startAt), minRootBase)
  {
  }

  /** The twin fails its edge check when its centre lies one unit past the end of a
      container edge, inside its own outline (radius 10 in every direction). GrowTwins
      then keeps the root alone, and DroppedTwinFails applies. */
  lemma TwinCanBeDropped(e: Env, initCtr: Point, rad: real, strtAngl: real, twinScale: real)
    requires e.c.nodeBuffer >= 0.0
    requires e.container.edges == [Straight(Point(0.0, 0.0), Point(1.0, 0.0))]
    requires e.centerPair(initCtr, strtAngl, rad, ClampTwinScale(twinScale)).0 == Point(2.0, 0.0)
    requires forall b, a :: e.sh.radAtAngle(b, a) == 10.0
    ensures !EdgesClear(e, [], BodyOf(TwinRoot(e, initCtr, rad, strtAngl, twinScale)))
  {
    var twin := BodyOf(TwinRoot(e, initCtr, rad, strtAngl, twinScale));
    PastEdgeEnd(e.o, e.sh, twin);
    assert !EdgeClear(e, [], twin, 0);
  }

  /** A spiral of outline radius 10 centred one unit past the end of the segment from
      (0, 0) to (1, 0): the closest point is that end, inside the outline. */
  lemma PastEdgeEnd(o: Oracle, sh: Shape, b: Body)
    requires b.ctr == Point(2.0, 0.0) && forall a :: sh.radAtAngle(b, a) == 10.0
    ensures DistanceToEdge(o, Straight(Point(0.0, 0.0), Point(1.0, 0.0)), b.ctr).pt == Point(1.0, 0.0)
    ensures SkinDistToPt(o, sh, b, Point(1.0, 0.0)) == -9.0
  {
    assert Dot(Point(0.0, 0.0), Point(1.0, 0.0), Point(1.0, 0.0), b.ctr) > 0.0;
    UnitApart(o);
    var toEnd := AngleToPoint(o, b.ctr, Point(1.0, 0.0));
    assert sh.radAtAngle(b, toEnd) == 10.0;
  }

  lemma UnitApart(o: Oracle)
    ensures PointDist(o, Point(2.0, 0.0), Point(1.0, 0.0)) == 1.0
  {
  }

  // ---------------------------------------------------------------------------------
  // Planting (the SpiralTree constructor and SpiralTree.GrowTwins)

  /** GrowTwins' clamp of the twin scale to [0.6, 1]. */
  function ClampTwinScale(s: real): (r: real)
    ensures 0.6 <= r <= 1.0
    ensures 0.6 <= s <= 1.0 ==> r == s
    ensures s > 1.0 ==> r == 1.0
    ensures s < 0.6 ==> r == 0.6
  {
    var s1 := if s > 1.0 then 1.0 else s;
    if s1 < 0.6 then 0.6 else s1
  }

  /** The twin root GrowTwins builds: at the first centre of the pair, scaled, facing
      the opposite way. */
  function TwinRoot(e: Env, initCtr: Point, rad: real, strtAngl: real, twinScale: real): (r: Node)
    ensures IsRoot(r) && r.isTwin && r.rad == rad * ClampTwinScale(twinScale)
    ensures r.strtAngl == ComplementAngle(strtAngl) && r.edgeDists == [] && r.nhbrIdxs == []
  {
    var scale := ClampTwinScale(twinScale);
    var pair := e.centerPair(initCtr, strtAngl, rad, scale);
    NewRoot(e.c, pair.0, rad * scale, ComplementAngle(strtAngl), true)
  }

  /** A root checked against the container as the first node it is. */
  predicate RootOk(e: Env, n: Node)
  {
    IsRoot(n) && NodeOk(e, n, 1) && n.leafIdxs == [] && n.nhbrIdxs == []
  }

  /** One or two checked roots form a valid arena. */
  lemma RootsValid(e: Env, root: Node, twin: Node)
    requires RootOk(e, root) && RootOk(e, twin)
    ensures ValidTree(e, [root]) && ValidTree(e, [root, twin])
  {
    assert NodeOk(e, root, 2) && NodeOk(e, twin, 2);
  }

  /** A root with its edge data filled in by the edge check is a valid first node. */
  method CheckRoot(e: Env, root: Node) returns (ok: bool, r: Node)
    requires EngineConfig(e.c) && IsRoot(root) && root.clock == 1 && root.slot == 0
    requires root.leafIdxs == [] && root.leafAngls == [] && root.nhbrIdxs == [] && root.nhbrDists == []
    ensures RootOk(e, r) && !HasLeaves(r) && BodyOf(r) == BodyOf(root) && r.isTwin == root.isTwin
    ensures ok <==> EdgesClear(e, [], BodyOf(root))
  {
    ok, r := CheckEdgeFit(e, [], root);
  }

  /**
   * SpiralTree.GrowTwins: the root at the second centre of the pair, then the twin
   * (scale clamped to [0.6, 1]) at the first, added only when it passes the edge
   * check. Without twins nothing is planted.
   */
  method GrowTwins(e: Env, initCtr: Point, rad: real, strtAngl: real, twinScale: real) returns (ns: seq<Node>)
    requires EngineConfig(e.c)
    ensures !e.c.TWIN ==> ns == []
    ensures e.c.TWIN ==> 1 <= |ns| <= 2 && ValidTree(e, ns)
    ensures forall i :: 0 <= i < |ns| ==> IsRoot(ns[i]) && !HasLeaves(ns[i])
    ensures e.c.TWIN ==> BodyOf(ns[0]) == BodyOf(NewRoot(e.c, e.centerPair(initCtr, strtAngl, rad, ClampTwinScale(twinScale)).1, rad, strtAngl, false))
    ensures e.c.TWIN ==> (|ns| == 2 <==> EdgesClear(e, [], BodyOf(TwinRoot(e, initCtr, rad, strtAngl, twinScale))))
    ensures |ns| == 2 ==> ns[1].isTwin && BodyOf(ns[1]) == BodyOf(TwinRoot(e, initCtr, rad, strtAngl, twinScale))
  {
    if !e.c.TWIN {
      return [];
    }
    var scale := ClampTwinScale(twinScale);
    var pair := e.centerPair(initCtr, strtAngl, rad, scale);
    var _, root := CheckRoot(e, NewRoot(e.c, pair.1, rad, strtAngl, false));
    var twinOk, twin := CheckRoot(e, TwinRoot(e, initCtr, rad, strtAngl, twinScale));
    RootsValid(e, root, twin);
    ns := if twinOk then [root, twin] else [root];
  }

  /** The roots of a new tree (the SpiralTree constructor): the twin pair, or a single
      root at the container's centroid with its edge data filled in. */
  method PlantRoots(e: Env, rootAngle: real, initRad: real) returns (ns: seq<Node>)
    requires EngineConfig(e.c)
    ensures 1 <= |ns| <= 2 && ValidTree(e, ns)
    ensures forall i :: 0 <= i < |ns| ==> IsRoot(ns[i]) && !HasLeaves(ns[i])
    ensures !e.c.TWIN ==> |ns| == 1 && ns[0].ctr == e.container.centroid && ns[0].rad == initRad
  {
    if e.c.TWIN {
      ns := GrowTwins(e, e.container.centroid, initRad, rootAngle, e.c.twinRatio);
    } else {
      var _, root := CheckRoot(e, NewRoot(e.c, e.container.centroid, initRad, rootAngle, false));
      ns := [root];
    }
  }
}
