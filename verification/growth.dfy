/**
 * Growing a tree (SpiralTree.cs): a leaf is sprouted off a parent, fitted, and appended
 * to the arena; a spiral is developed leaf by leaf; tiny stumps are resprouted; and the
 * whole tree is grown pass by pass until no node can grow or the node budget is spent.
 * Throughout, the arena stays valid, spirals already placed never move, and every leaf
 * fits among the spirals placed before it.
 */
module Growth {
  import opened Angles
  import opened Plane
  import opened Seqs
  import opened Configs
  import opened Nodes
  import opened Trees
  import opened Adjusting

  // ---------------------------------------------------------------------------------
  // What growth keeps

  /** A node with its growth state (flags and leaf lists) cleared: what fixes its place,
      size and edge data. */
  function Frozen(n: Node): Node
  {
    n.(full := false, blocked := false, leafIdxs := [], leafAngls := [])
  }

  function FrozenAll(ns: seq<Node>): (r: seq<Node>)
    ensures |r| == |ns| && forall j :: 0 <= j < |ns| ==> r[j] == Frozen(ns[j])
  {
    seq(|ns|, j requires 0 <= j < |ns| => Frozen(ns[j]))
  }

  /** b is a later version of a: the same spiral, its leaf lists extended. */
  predicate Grown(a: Node, b: Node)
  {
    Frozen(a) == Frozen(b) && a.leafIdxs <= b.leafIdxs && a.leafAngls <= b.leafAngls
  }

  /** r is a later version of the arena ns: the nodes of ns, grown, and possibly more. */
  predicate Extends(ns: seq<Node>, r: seq<Node>)
  {
    |ns| <= |r| && forall j :: 0 <= j < |ns| ==> Grown(ns[j], r[j])
  }

  /** Node i fits among the spirals before it, as placed. */
  predicate FitAmong(e: Env, ns: seq<Node>, i: int)
    requires 0 <= i < |ns|
  {
    var before := FrozenAll(ns[..i]);
    EdgeArgs(e, before, BodyOf(ns[i])) && Fits(e, before, BodyOf(ns[i]))
  }

  /** Every leaf fits among the spirals placed before it. */
  predicate PlacedFit(e: Env, ns: seq<Node>)
  {
    forall i :: 0 <= i < |ns| && !IsRoot(ns[i]) ==> FitAmong(e, ns, i)
  }

  /** What growth needs and keeps: a working configuration, a valid arena, and leaves
      that fit where they were placed. */
  predicate Healthy(e: Env, ns: seq<Node>)
  {
    EngineConfig(e.c) && ValidTree(e, ns) && PlacedFit(e, ns)
  }

  /** Growing is transitive. */
  lemma ExtendsTrans(a: seq<Node>, b: seq<Node>, c: seq<Node>)
    requires Extends(a, b) && Extends(b, c)
    ensures Extends(a, c)
  {
    forall j | 0 <= j < |a|
      ensures Grown(a[j], c[j])
    {
      assert Grown(a[j], b[j]) && Grown(b[j], c[j]);
    }
  }

  /** The fit check sees only places, sizes and edge data: it passes on the arena
      exactly when it passes on the frozen arena. */
  lemma FitsFrozen(e: Env, ns: seq<Node>, b: Body)
    requires EdgeArgs(e, ns, b)
    ensures EdgeArgs(e, FrozenAll(ns), b)
    ensures Fits(e, ns, b) <==> Fits(e, FrozenAll(ns), b)
  {
    var fz := FrozenAll(ns);
    forall i | 0 <= i < |ns|
      ensures Collides(e, ns, b, i) <==> Collides(e, fz, b, i)
    {
      assert BodyOf(fz[i]) == BodyOf(ns[i]) && fz[i].prntIdx == ns[i].prntIdx;
    }
    if b.prntIdx != -1 {
      assert fz[b.prntIdx].edgeDists == ns[b.prntIdx].edgeDists;
    }
    forall k | 0 <= k < |e.container.edges|
      ensures EdgeClear(e, ns, b, k) <==> EdgeClear(e, fz, b, k)
    {
    }
  }

  /** A leaf keeps fitting among the spirals before it when the arena grows. */
  lemma ExtendsKeepsFit(e: Env, ns: seq<Node>, r: seq<Node>, i: int)
    requires Extends(ns, r) && 0 <= i < |ns|
    ensures BodyOf(r[i]) == BodyOf(ns[i]) && (IsRoot(r[i]) <==> IsRoot(ns[i]))
    ensures FitAmong(e, r, i) <==> FitAmong(e, ns, i)
  {
    assert Frozen(ns[i]) == Frozen(r[i]);
    assert FrozenAll(r[..i]) == FrozenAll(ns[..i]) by {
      forall j | 0 <= j < i
        ensures FrozenAll(r[..i])[j] == FrozenAll(ns[..i])[j]
      {
        assert Grown(ns[j], r[j]);
      }
    }
  }

  /** Growth that only changes flags and leaf lists keeps every leaf fitting. */
  lemma ExtendsKeepsPlaced(e: Env, ns: seq<Node>, r: seq<Node>)
    requires Extends(ns, r) && |r| == |ns| && PlacedFit(e, ns)
    ensures PlacedFit(e, r)
  {
    forall i | 0 <= i < |r| && !IsRoot(r[i])
      ensures FitAmong(e, r, i)
    {
      ExtendsKeepsFit(e, ns, r, i);
    }
  }

  /** Only spiral p grew: every other node is as it was, and every new node is a leaf
      of p. */
  predicate GrewOnly(ns: seq<Node>, r: seq<Node>, p: int)
  {
    |ns| <= |r| &&
    (forall j :: 0 <= j < |ns| && j != p ==> r[j] == ns[j]) &&
    (forall j :: |ns| <= j < |r| ==> r[j].prntIdx == p)
  }

  /** Growing only p twice grows only p. */
  lemma GrewOnlyTrans(a: seq<Node>, b: seq<Node>, c: seq<Node>, p: int)
    requires 0 <= p < |a| && GrewOnly(a, b, p) && GrewOnly(b, c, p)
    ensures GrewOnly(a, c, p)
  {
    forall j | |a| <= j < |c|
      ensures c[j].prntIdx == p
    {
      if j < |b| {
        assert c[j] == b[j];
      }
    }
  }

  /** Replacing a node by a grown version of it with the same links keeps the arena
      healthy and only grows it. */
  lemma ReplaceKeepsHealthy(e: Env, ns: seq<Node>, i: nat, n: Node)
    requires Healthy(e, ns) && i < |ns| && SameLinks(ns[i], n) && Grown(ns[i], n)
    ensures Healthy(e, ns[i := n]) && Extends(ns, ns[i := n])
  {
    var r := ns[i := n];
    ReplaceKeepsValid(e, ns, i, n);
    assert Extends(ns, r) by {
      forall j | 0 <= j < |ns|
        ensures Grown(ns[j], r[j])
      {
      }
    }
    ExtendsKeepsPlaced(e, ns, r);
  }

  /** Marking a node full keeps the arena healthy and only grows it. */
  lemma SetFullKeeps(e: Env, ns: seq<Node>, i: nat)
    requires Healthy(e, ns) && i < |ns|
    ensures Healthy(e, SetFull(ns, i)) && Extends(ns, SetFull(ns, i))
  {
    ReplaceKeepsHealthy(e, ns, i, ns[i].(full := true));
  }

  /** Setting whether a node is blocked keeps the arena healthy and only grows it. */
  lemma SetBlockedKeeps(e: Env, ns: seq<Node>, i: nat, b: bool)
    requires Healthy(e, ns) && i < |ns|
    ensures Healthy(e, SetBlocked(ns, i, b)) && Extends(ns, SetBlocked(ns, i, b))
  {
    ReplaceKeepsHealthy(e, ns, i, ns[i].(blocked := b));
  }

  // ---------------------------------------------------------------------------------
  // Appending a leaf (the end of SpiralTree.GrowLeaf)

  /** The arena after a leaf is added: the leaf goes last and its parent records it
      (SpiralNode.MarkParent). */
  function AppendLeaf(ns: seq<Node>, p: int, leaf: Node): (r: seq<Node>)
    requires 0 <= p < |ns|
    ensures |r| == |ns| + 1 && r[|ns|] == leaf
  {
    ns[p := MarkParent(ns[p], leaf, |ns|)] + [leaf]
  }

  /** After an append, every node is consistent with the longer arena. */
  lemma AppendNodesOk(e: Env, ns: seq<Node>, p: int, leaf: Node)
    requires (forall j :: 0 <= j < |ns| ==> NodeOk(e, ns[j], |ns|)) && Candidate(e, ns, leaf, p)
    ensures forall j :: 0 <= j < |ns| + 1 ==> NodeOk(e, AppendLeaf(ns, p, leaf)[j], |ns| + 1)
  {
    var r := AppendLeaf(ns, p, leaf);
    forall j | 0 <= j < |r|
      ensures NodeOk(e, r[j], |r|)
    {
      if j < |ns| {
        assert NodeOk(e, ns[j], |ns|);
      }
    }
  }

  /** After an append, every recorded leaf still names its parent, the new one included. */
  lemma AppendBackLinks(e: Env, ns: seq<Node>, p: int, leaf: Node)
    requires 0 <= p < |ns| && leaf.prntIdx == p && leaf.leafIdxs == []
    requires forall i, k :: 0 <= i < |ns| && 0 <= k < |ns[i].leafIdxs| ==> 0 <= ns[i].leafIdxs[k] < |ns| && ns[ns[i].leafIdxs[k]].prntIdx == i
    ensures var r := AppendLeaf(ns, p, leaf);
      forall i, k :: 0 <= i < |r| && 0 <= k < |r[i].leafIdxs| ==> r[r[i].leafIdxs[k]].prntIdx == i
  {
    var r := AppendLeaf(ns, p, leaf);
    assert r[p].leafIdxs == ns[p].leafIdxs + [|ns|];
    assert forall i :: 0 <= i < |ns| && i != p ==> r[i] == ns[i];
    forall i, k | 0 <= i < |r| && 0 <= k < |r[i].leafIdxs|
      ensures r[r[i].leafIdxs[k]].prntIdx == i
    {
      if i == p && k == |ns[p].leafIdxs| {
        assert r[i].leafIdxs[k] == |ns|;
      } else {
        assert i < |ns| && r[i].leafIdxs[k] == ns[i].leafIdxs[k];
      }
    }
  }

  /** After an append, parents still come first and leaves still turn against them. */
  lemma AppendParents(ns: seq<Node>, p: int, leaf: Node)
    requires 0 <= p < |ns| && leaf.prntIdx == p && leaf.clock == -ns[p].clock
    requires forall i :: 0 <= i < |ns| ==> ns[i].prntIdx == -1 || 0 <= ns[i].prntIdx < i
    requires forall i :: 0 <= i < |ns| && ns[i].prntIdx != -1 ==> ns[i].clock == -ns[ns[i].prntIdx].clock
    ensures var r := AppendLeaf(ns, p, leaf);
      (forall i :: 0 <= i < |r| ==> r[i].prntIdx == -1 || 0 <= r[i].prntIdx < i) &&
      (forall i :: 0 <= i < |r| && r[i].prntIdx != -1 ==> r[i].clock == -r[r[i].prntIdx].clock)
  {
    var r := AppendLeaf(ns, p, leaf);
    assert r[p] == MarkParent(ns[p], leaf, |ns|);
    assert forall i :: 0 <= i < |ns| ==> r[i].prntIdx == ns[i].prntIdx && r[i].clock == ns[i].clock;
  }

  /** Appending a candidate keeps the arena valid and only grows it. */
  lemma AppendKeepsValid(e: Env, ns: seq<Node>, p: int, leaf: Node)
    requires ValidTree(e, ns) && Candidate(e, ns, leaf, p)
    ensures ValidTree(e, AppendLeaf(ns, p, leaf)) && Extends(ns, AppendLeaf(ns, p, leaf))
    ensures LastLeafIdx(AppendLeaf(ns, p, leaf)[p]) == |ns|
  {
    AppendNodesOk(e, ns, p, leaf);
    assert forall i, k :: 0 <= i < |ns| && 0 <= k < |ns[i].leafIdxs| ==> 0 <= ns[i].leafIdxs[k] < |ns| by {
      forall i, k | 0 <= i < |ns| && 0 <= k < |ns[i].leafIdxs|
        ensures 0 <= ns[i].leafIdxs[k] < |ns|
      {
        assert NodeOk(e, ns[i], |ns|);
      }
    }
    AppendBackLinks(e, ns, p, leaf);
    AppendParents(ns, p, leaf);
    AppendGrows(ns, p, leaf);
  }

  /** An append only grows the arena. */
  lemma AppendGrows(ns: seq<Node>, p: int, leaf: Node)
    requires 0 <= p < |ns|
    ensures Extends(ns, AppendLeaf(ns, p, leaf))
  {
    var r := AppendLeaf(ns, p, leaf);
    var marked := MarkParent(ns[p], leaf, |ns|);
    assert r[p] == marked;
    forall j | 0 <= j < |ns|
      ensures Grown(ns[j], r[j])
    {
      if j == p {
        assert ns[p].leafAngls <= marked.leafAngls;
      }
    }
  }

  /** Appending an accepted candidate keeps every leaf fitting, the new one included. */
  lemma AppendKeepsPlaced(e: Env, ns: seq<Node>, p: int, leaf: Node)
    requires ValidTree(e, ns) && PlacedFit(e, ns) && Candidate(e, ns, leaf, p) && Accepted(e, ns, leaf)
    ensures PlacedFit(e, AppendLeaf(ns, p, leaf))
  {
    var r := AppendLeaf(ns, p, leaf);
    AppendKeepsValid(e, ns, p, leaf);
    forall i | 0 <= i < |r| && !IsRoot(r[i])
      ensures FitAmong(e, r, i)
    {
      if i < |ns| {
        ExtendsKeepsFit(e, ns, r, i);
      } else {
        FitsFrozen(e, ns, BodyOf(leaf));
        assert FrozenAll(r[..i]) == FrozenAll(ns) by {
          forall j | 0 <= j < |ns|
            ensures FrozenAll(r[..i])[j] == FrozenAll(ns)[j]
          {
            assert Grown(ns[j], r[j]);
          }
        }
      }
    }
  }

  /** Appending an accepted candidate keeps the arena healthy and only grows it. */
  lemma AppendKeepsHealthy(e: Env, ns: seq<Node>, p: int, leaf: Node)
    requires Healthy(e, ns) && Candidate(e, ns, leaf, p) && Accepted(e, ns, leaf)
    ensures Healthy(e, AppendLeaf(ns, p, leaf)) && Extends(ns, AppendLeaf(ns, p, leaf))
    ensures LastLeafIdx(AppendLeaf(ns, p, leaf)[p]) == |ns|
  {
    AppendKeepsValid(e, ns, p, leaf);
    AppendKeepsPlaced(e, ns, p, leaf);
  }

  // ---------------------------------------------------------------------------------
  // Growing one leaf (SpiralTree.GrowLeaf)

  /**
   * The leaf GrowLeaf sprouts: it faces back along the start angle, sits in that
   * direction just outside the parent (the parent's radius, its own and the lift
   * apart), turns against the parent, and inherits the parent's edge data.
   */
  function SproutLeaf(e: Env, ns: seq<Node>, p: int, leafRad: real, startAngle: real, leafSlot: int): (r: Node)
    requires 0 <= p < |ns|
    ensures r.prntIdx == p && r.rad == leafRad && r.slot == leafSlot && r.clock == -ns[p].clock
    ensures r.strtAngl == ComplementAngle(startAngle)
    ensures r.lift == e.sh.nodeLift(BodyOf(ns[p]), leafRad, startAngle)
    ensures TrigSound(e.o) ==>
              SqDist(r.ctr, ns[p].ctr) == (ns[p].rad + leafRad + r.lift) * (ns[p].rad + leafRad + r.lift)
    ensures r.nhbrIdxs == [] && r.edgeDists == ns[p].edgeDists && r.edgePoints == ns[p].edgePoints
    ensures NodeOk(e, ns[p], |ns|) && SlotOk(e.c, leafSlot) ==> Candidate(e, ns, r, p)
  {
    var prnt := ns[p];
    var lift := e.sh.nodeLift(BodyOf(prnt), leafRad, startAngle);
    var ctr := Polar(e.o, prnt.ctr, startAngle, prnt.rad + leafRad + lift);
    var leaf := NewLeaf(e.c, p, prnt.clock, ctr, leafRad, ComplementAngle(startAngle), leafSlot, lift);
    leaf.(edgeDists := prnt.edgeDists, edgePoints := prnt.edgePoints)
  }

  /** The check of a new leaf, and TryToFit when it fails. A leaf that fits where it
      sprouted is kept there without a draw. */
  method FitNewLeaf(e: Env, ns: seq<Node>, a: Aux, leaf: Node, p: int, noRslt: bool)
    returns (ok: bool, r: Node, a': Aux)
    requires Setting(e, ns, leaf, p)
    ensures Candidate(e, ns, r, p)
    ensures ok ==> Accepted(e, ns, r)
    ensures a.tick <= a'.tick
    ensures leaf.nhbrIdxs == [] && Fits(e, ns, BodyOf(leaf)) ==> ok && BodyOf(r) == BodyOf(leaf) && a' == a
  {
    assert NodeOk(e, ns[p], |ns|);
    ok, r := CheckFit(e, ns, leaf);
    CheckedCandidate(e, ns, leaf, p);
    a' := a;
    if !ok {
      ok, r, a' := TryToFit(e, ns, a, r, p, noRslt);
    }
  }

  /** The end of GrowLeaf: the candidate is checked (and fitted when the check fails),
      and joins the arena when it fits and its radius is not too small. */
  method PlaceLeaf(e: Env, ns: seq<Node>, a: Aux, p: int, leaf: Node, noRslt: bool)
    returns (ok: bool, ns': seq<Node>, a': Aux)
    requires Healthy(e, ns) && Candidate(e, ns, leaf, p)
    ensures Healthy(e, ns') && Extends(ns, ns')
    ensures a.tick <= a'.tick
    ensures !ok ==> ns' == ns
    ensures ok ==> |ns'| == |ns| + 1 && ns'[|ns|].prntIdx == p && ns'[p] == MarkParent(ns[p], ns'[|ns|], |ns|)
    ensures ok ==> !RadTooSmall(e.c, ns'[|ns|].rad)
    ensures GrewOnly(ns, ns', p)
    ensures leaf.nhbrIdxs == [] && !RadTooSmall(e.c, leaf.rad) && Fits(e, ns, BodyOf(leaf)) ==>
              ok && BodyOf(ns'[|ns|]) == BodyOf(leaf)
  {
    var fitted;
    ok, fitted, a' := FitNewLeaf(e, ns, a, leaf, p, noRslt);
    if ok && !RadTooSmall(e.c, fitted.rad) {
      AppendKeepsHealthy(e, ns, p, fitted);
      return true, AppendLeaf(ns, p, fitted), a';
    }
    return false, ns, a';
  }

  /**
   * SpiralTree.GrowLeaf: a radius too small to grow marks the parent full; otherwise
   * the sprouted leaf is placed. Nothing else changes.
   */
  method GrowLeaf(e: Env, ns: seq<Node>, a: Aux, p: int, leafRad: real, startAngle: real, leafSlot: int,
                  noRslt: bool)
    returns (ok: bool, ns': seq<Node>, a': Aux)
    requires Healthy(e, ns) && 0 <= p < |ns| && SlotOk(e.c, leafSlot)
    ensures Healthy(e, ns') && Extends(ns, ns')
    ensures a.tick <= a'.tick
    ensures !BigEnoughToGrow(e.c, leafRad) ==> !ok && ns' == SetFull(ns, p)
    ensures BigEnoughToGrow(e.c, leafRad) && !ok ==> ns' == ns
    ensures ok ==> |ns'| == |ns| + 1 && ns'[|ns|].prntIdx == p && ns'[p] == MarkParent(ns[p], ns'[|ns|], |ns|)
    ensures ok ==> !RadTooSmall(e.c, ns'[|ns|].rad)
    ensures GrewOnly(ns, ns', p)
    ensures BigEnoughToGrow(e.c, leafRad) && !RadTooSmall(e.c, leafRad) &&
            Fits(e, ns, BodyOf(SproutLeaf(e, ns, p, leafRad, startAngle, leafSlot))) ==>
              ok && BodyOf(ns'[|ns|]) == BodyOf(SproutLeaf(e, ns, p, leafRad, startAngle, leafSlot))
  {
    if !BigEnoughToGrow(e.c, leafRad) {
      SetFullKeeps(e, ns, p);
      return false, SetFull(ns, p), a;
    }
    assert NodeOk(e, ns[p], |ns|);
    ok, ns', a' := PlaceLeaf(e, ns, a, p, SproutLeaf(e, ns, p, leafRad, startAngle, leafSlot), noRslt);
  }

  // ---------------------------------------------------------------------------------
  // Promoting a tiny leaf (SpiralTree.TryPromotingTinyLeaf)

  /** Where promotion stops: the slot, the radius drawn for it, and the draws used. */
  datatype Promotion = Promotion(slot: int, rad: real, tick: nat)

  /**
   * The loop of TryPromotingTinyLeaf: while the radius is too small and a lower slot
   * remains, step down a slot and draw a radius for it.
   */
  function PromoteTiny(e: Env, parentRad: real, slot: int, rad: real, tick: nat): (r: Promotion)
    requires 0 <= slot < |e.c.slotRadMults|
    ensures 0 <= r.slot <= slot && r.tick == tick + (slot - r.slot)
    ensures RadTooSmall(e.c, r.rad) ==> r.slot == 0
    ensures !RadTooSmall(e.c, rad) ==> r == Promotion(slot, rad, tick)
    ensures RadTooSmall(e.c, rad) && slot > 0 ==> r.slot < slot
    decreases slot
  {
    if RadTooSmall(e.c, rad) && slot > 0 then
      PromoteTiny(e, parentRad, slot - 1, NextLeafRad(e.c, parentRad, slot - 1, e.draws(tick)), tick + 1)
    else Promotion(slot, rad, tick)
  }

  /** A promotion that moved took one step first: the radius was too small, and the
      rest is the promotion from the slot below with the radius drawn for it. */
  lemma PromoteTinyStep(e: Env, parentRad: real, slot: int, rad: real, tick: nat)
    requires 0 <= slot < |e.c.slotRadMults|
    requires PromoteTiny(e, parentRad, slot, rad, tick).slot < slot
    ensures RadTooSmall(e.c, rad) && slot > 0
    ensures PromoteTiny(e, parentRad, slot, rad, tick) ==
            PromoteTiny(e, parentRad, slot - 1, NextLeafRad(e.c, parentRad, slot - 1, e.draws(tick)), tick + 1)
  {
  }

  /** Where promotion stops, the radius is the one it started with, or else the one
      drawn for that slot by the last draw. */
  lemma {:induction false} PromoteTinyRadius(e: Env, parentRad: real, slot: int, rad: real, tick: nat)
    requires 0 <= slot < |e.c.slotRadMults|
    ensures var r := PromoteTiny(e, parentRad, slot, rad, tick);
      (r.slot == slot ==> r.rad == rad) &&
      (r.slot < slot ==> r.rad == NextLeafRad(e.c, parentRad, r.slot, e.draws(r.tick - 1)))
    decreases slot
  {
    var r := PromoteTiny(e, parentRad, slot, rad, tick);
    if r.slot < slot {
      PromoteTinyStep(e, parentRad, slot, rad, tick);
      var next := NextLeafRad(e.c, parentRad, slot - 1, e.draws(tick));
      PromoteTinyRadius(e, parentRad, slot - 1, next, tick + 1);
    }
  }

  /** Promotion steps down only past radii that are too small: the starting one, and
      the one drawn for every slot it passes on the way. */
  lemma {:induction false} PromoteTinyPassesTiny(e: Env, parentRad: real, slot: int, rad: real, tick: nat, s: int)
    requires 0 <= slot < |e.c.slotRadMults|
    requires PromoteTiny(e, parentRad, slot, rad, tick).slot < s < slot
    ensures RadTooSmall(e.c, rad)
    ensures RadTooSmall(e.c, NextLeafRad(e.c, parentRad, s, e.draws(tick + (slot - s) - 1)))
    decreases slot
  {
    PromoteTinyStep(e, parentRad, slot, rad, tick);
    var next := NextLeafRad(e.c, parentRad, slot - 1, e.draws(tick));
    if s < slot - 1 {
      PromoteTinyPassesTiny(e, parentRad, slot - 1, next, tick + 1, s);
    } else {
      PromoteTinyStep(e, parentRad, slot - 1, next, tick + 1);
    }
  }

  /**
   * TryPromotingTinyLeaf as written: after the loop has stepped down to the new slot,
   * the angle comes from ReslotAngl with its default decrement, which is the angle of
   * the slot below. Fails, keeping the angle, when the radius stays too small.
   */
  function PromoteTinyLeafAsWritten(e: Env, n: Node, slot: int, rad: real, angl: real, tick: nat)
    : (r: (bool, Promotion, real))
    requires Tables(e.c) && 0 <= slot < |e.c.slotRadMults|
    ensures r.1 == PromoteTiny(e, n.rad, slot, rad, tick)
    ensures r.0 <==> !RadTooSmall(e.c, r.1.rad)
    ensures !r.0 ==> r.2 == angl
    ensures r.0 ==> (r.2 == NoAngle <==> r.1.slot == 0)
  {
    var pr := PromoteTiny(e, n.rad, slot, rad, tick);
    if !RadTooSmall(e.c, pr.rad) then (true, pr, ReslotAngl(e.c, n, pr.slot, true))
    else (false, pr, angl)
  }

  /** The discrepancy: a tiny leaf in slot 1 whose redrawn slot-0 radius is large
      enough is promoted, and handed no angle at all. */
  lemma PromotedToSlotZeroHasNoAngle(e: Env, n: Node, rad: real, angl: real, tick: nat)
    requires Tables(e.c) && 1 < |e.c.slotRadMults|
    requires RadTooSmall(e.c, rad) && !RadTooSmall(e.c, NextLeafRad(e.c, n.rad, 0, e.draws(tick)))
    ensures PromoteTinyLeafAsWritten(e, n, 1, rad, angl, tick).0
    ensures PromoteTinyLeafAsWritten(e, n, 1, rad, angl, tick).2 == NoAngle
  {
    assert PromoteTiny(e, n.rad, 1, rad, tick) == PromoteTiny(e, n.rad, 0, NextLeafRad(e.c, n.rad, 0, e.draws(tick)), tick + 1);
  }

  /**
   * TryPromotingTinyLeaf as intended: the angle of the slot the leaf was promoted to
   * (ReslotAngl without the decrement, as TryToFit calls it for a slot it has already
   * lowered). A promoted leaf always has an angle, that slot's angle (with the shift)
   * seen from the spiral.
   */
  function PromoteTinyLeaf(e: Env, n: Node, slot: int, rad: real, angl: real, tick: nat)
    : (r: (bool, Promotion, real))
    requires Tables(e.c) && 0 <= slot < |e.c.slotRadMults|
    requires n.clock == 1 || n.clock == -1
    ensures r.1 == PromoteTiny(e, n.rad, slot, rad, tick)
    ensures r.0 <==> !RadTooSmall(e.c, r.1.rad)
    ensures !r.0 ==> r.2 == angl && r.1.slot == 0
    ensures r.0 ==> r.2 != NoAngle && 0.0 <= r.2 <= Tau
    ensures r.0 ==> Congruent(ToRelativeAngle(n, r.2), e.c.slotAngles[r.1.slot] + e.c.shiftFactor)
  {
    var pr := PromoteTiny(e, n.rad, slot, rad, tick);
    if !RadTooSmall(e.c, pr.rad) then
      ReslotAnglRelative(e.c, n, pr.slot, false);
      (true, pr, ReslotAngl(e.c, n, pr.slot, false))
    else (false, pr, angl)
  }

  // ---------------------------------------------------------------------------------
  // Slots stay in range while a spiral develops

  /** The leaf count a spiral develops with: under random leaf numbers, a count
      NumLeaves can draw. */
  predicate LeafNumOk(c: Config, m: nat)
  {
    c.RANDNUM ==> 2 <= m < Max(FractionCount(c), 3)
  }

  /** NumLeaves draws counts the slot lists are defined for. */
  lemma NumLeavesOk(c: Config, k: nat)
    ensures LeafNumOk(c, NumLeaves(c, k))
  {
  }

  /** The list NextSlotFromList steps through names no negative slot. */
  lemma StepListNonneg(c: Config, m: nat)
    requires EngineConfig(c) && LeafNumOk(c, m)
    ensures forall k :: 0 <= k < |StepList(c, m)| ==> StepList(c, m)[k] >= 0
  {
    if c.RANDNUM {
      var lst := GetSlotList(c, m);
      forall k | 0 <= k < |StepList(c, m)|
        ensures StepList(c, m)[k] >= 0
      {
        assert StepList(c, m)[k] == lst[|lst| - 1 - k];
      }
    }
  }

  /** SpiralNode.NextLeafSlot(float, int) lands on a slot of the tables. */
  lemma SlotAtInRange(c: Config, n: Node, atAngl: real, m: nat)
    requires EngineConfig(c) && LeafNumOk(c, m)
    ensures SlotOk(c, NextLeafSlotAt(c, n, atAngl, m))
  {
    var r := NextLeafSlotAt(c, n, atAngl, m);
    if atAngl != NoAngle && c.RANDNUM {
      StepListNonneg(c, m);
      var lst := StepList(c, m);
      if r != |c.slotSizes| - 1 {
        var k :| 0 <= k < |lst| && lst[k] == r;
      }
    } else if atAngl != NoAngle && c.maxLeaves < |c.slotSizes| {
      assert MaxInt(c.useSlots) in c.useSlots;
    }
  }

  /** SpiralNode.NextLeafSlot(int, int) from a slot of the tables lands on one. */
  lemma SlotAfterInRange(c: Config, n: Node, currSlot: int, m: nat)
    requires EngineConfig(c) && LeafNumOk(c, m) && SlotOk(c, currSlot)
    ensures SlotOk(c, NextLeafSlotAfter(c, n, currSlot, m))
  {
    var r := NextLeafSlotAfter(c, n, currSlot, m);
    if (c.maxLeaves < |c.slotSizes| || c.RANDNUM) && currSlot != 0 {
      if FirstLeafJump(c, n, currSlot) && LeafCount(n) == 0 && !c.RANDNUM {
        assert MaxInt(c.useSlots) in c.useSlots;
      } else {
        StepListNonneg(c, m);
        var lst := StepList(c, m);
        if r != currSlot - 1 {
          var k :| 0 <= k < |lst| && lst[k] == r;
        }
      }
    }
  }

  // ---------------------------------------------------------------------------------
  // Developing a spiral (SpiralTree.Develop)

  /** The next leaf Develop tries: its slot, radius and absolute start angle. */
  datatype Next = Next(slot: int, rad: real, angl: real)

  /** How a step of Develop ends: go on, leave the loop, or leave Develop at once. */
  datatype Flow = Continue | Break | Return

  /**
   * The block Develop repeats to line up the next leaf: the next slot down from the
   * given one, a radius drawn for it and the arc it needs; without room for 1.75 of
   * that arc the spiral is marked full, else the leaf's angle is worked out.
   */
  method LineUpNext(e: Env, ns: seq<Node>, a: Aux, p: int, m: nat, currSlot: int, baseAngl: real)
    returns (room: bool, ns': seq<Node>, a': Aux, nx: Next)
    requires Healthy(e, ns) && 0 <= p < |ns| && LeafNumOk(e.c, m) && SlotOk(e.c, currSlot)
    ensures Healthy(e, ns') && Extends(ns, ns') && GrewOnly(ns, ns', p) && |ns'| == |ns|
    ensures a' == a.(tick := a.tick + 1) && SlotOk(e.c, nx.slot)
    ensures room ==> ns' == ns
    ensures !room ==> ns' == SetFull(ns, p) && !HasRoomFor(e.c, ns[p], 1.75 * CalcLeafArcSpan(e.o, ns[p].rad, nx.rad))
    ensures HasLeaves(ns[p]) ==> (currSlot > 0 ==> nx.slot < currSlot) && (currSlot == 0 ==> nx.slot == 0)
  {
    var n := ns[p];
    assert NodeOk(e, n, |ns|);
    var slot := NextLeafSlotAfter(e.c, n, currSlot, m);
    SlotAfterInRange(e.c, n, currSlot, m);
    var d;
    d, a' := Draw(e, a).0, Draw(e, a).1;
    var rad := NextLeafRad(e.c, n.rad, slot, d);
    var arc := CalcLeafArcSpan(e.o, n.rad, rad);
    if !HasRoomFor(e.c, n, arc * 1.75) {
      SetFullKeeps(e, ns, p);
      return false, SetFull(ns, p), a', Next(slot, rad, NoAngle);
    }
    var angl := NextLeafAngle(e.c, n, arc, baseAngl, slot, a.minRootBase);
    assert Extends(ns, ns);
    return true, ns, a', Next(slot, rad, angl);
  }

  /**
   * The start of a step of Develop with a start angle: a radius too small is promoted
   * when leaves grow larger from here, and the spiral is marked full when that fails,
   * or at once when leaves grow smaller from here.
   */
  method PromoteOrStop(e: Env, ns: seq<Node>, a: Aux, p: int, nx: Next)
    returns (go: bool, ns': seq<Node>, a': Aux, nx': Next)
    requires Healthy(e, ns) && 0 <= p < |ns| && SlotOk(e.c, nx.slot)
    ensures Healthy(e, ns') && Extends(ns, ns') && GrewOnly(ns, ns', p) && |ns'| == |ns|
    ensures a.tick <= a'.tick && SlotOk(e.c, nx'.slot)
    ensures go ==> ns' == ns && !RadTooSmall(e.c, nx'.rad)
    ensures !go ==> ns' == SetFull(ns, p)
    ensures !RadTooSmall(e.c, nx.rad) ==> go && nx' == nx && a' == a
  {
    if !RadTooSmall(e.c, nx.rad) {
      assert Extends(ns, ns);
      return true, ns, a, nx;
    }
    if e.c.GRAD && e.c.SMTOLG {
      assert NodeOk(e, ns[p], |ns|);
      var (ok, pr, promoted) := PromoteTinyLeaf(e, ns[p], nx.slot, nx.rad, nx.angl, a.tick);
      a' := a.(tick := pr.tick);
      if ok {
        assert Extends(ns, ns);
        return true, ns, a', Next(pr.slot, pr.rad, promoted);
      }
    } else {
      a' := a;
    }
    SetFullKeeps(e, ns, p);
    return false, SetFull(ns, p), a', nx;
  }

  /**
   * The first half of a step of Develop with a start angle: the radius is promoted or
   * the spiral stops, then the leaf is grown. A leaf that does not grow blocks the
   * spiral, unless it is being resprouted, in which case its blocked flag is cleared;
   * noFit tells that break from the one a too small radius causes. A grown leaf counts
   * against the node budget, and Develop returns when the budget is spent.
   */
  method GrowNext(e: Env, ns: seq<Node>, a: Aux, p: int, resprouted: bool, nodesLeft: int, nx: Next)
    returns (flow: Flow, ns': seq<Node>, a': Aux, nodesLeft': int, noFit: bool)
    requires Healthy(e, ns) && 0 <= p < |ns| && SlotOk(e.c, nx.slot)
    requires nodesLeft == e.c.maxNodes - |ns|
    ensures Healthy(e, ns') && Extends(ns, ns') && GrewOnly(ns, ns', p) && a.tick <= a'.tick
    ensures nodesLeft' == e.c.maxNodes - |ns'| && |ns| <= |ns'| <= |ns| + 1
    ensures flow == Continue <==> |ns'| == |ns| + 1 && nodesLeft' != 0
    ensures flow == Return ==> nodesLeft' == 0
    ensures flow == Break ==> |ns'| == |ns| && (!resprouted ==> ns'[p].blocked || ns'[p].full)
    ensures noFit ==> flow == Break && ns'[p].blocked == !resprouted
    ensures flow == Break && !noFit ==> RadTooSmall(e.c, nx.rad) && ns' == SetFull(ns, p)
    ensures |ns'| == |ns| + 1 ==> !RadTooSmall(e.c, ns'[|ns|].rad)
  {
    noFit := false;
    var go, ns1, a1, nx1 := PromoteOrStop(e, ns, a, p, nx);
    if !go {
      return Break, ns1, a1, nodesLeft, false;
    }
    var ok;
    ok, ns', a' := GrowLeaf(e, ns, a1, p, nx1.rad, nx1.angl, nx1.slot, false);
    if !ok {
      SetBlockedKeeps(e, ns', p, !resprouted);
      ExtendsTrans(ns, ns', SetBlocked(ns', p, !resprouted));
      GrewOnlyTrans(ns, ns', SetBlocked(ns', p, !resprouted), p);
      return Break, SetBlocked(ns', p, !resprouted), a', nodesLeft, true;
    }
    nodesLeft' := nodesLeft - 1;
    if nodesLeft' == 0 {
      return Return, ns', a', nodesLeft', false;
    }
    flow := Continue;
  }

  /**
   * The second half of a step of Develop after a leaf grew: the next base angle; a
   * spiral whose new leaf took slot 0 is full and Develop returns; otherwise the next
   * leaf is lined up from the new leaf's actual slot (which fitting may have changed).
   */
  method FollowUp(e: Env, ns: seq<Node>, a: Aux, p: int, m: nat)
    returns (flow: Flow, ns': seq<Node>, a': Aux, nx: Next, baseAngl: real)
    requires Healthy(e, ns) && 0 <= p < |ns| - 1 && LeafNumOk(e.c, m)
    ensures Healthy(e, ns') && Extends(ns, ns') && GrewOnly(ns, ns', p) && |ns'| == |ns|
    ensures a.tick <= a'.tick && SlotOk(e.c, nx.slot)
    ensures flow == Return <==> HasLeaves(ns[p]) && ns[|ns| - 1].slot == 0
    ensures flow == Continue ==> ns' == ns
    ensures flow != Continue ==> ns' == SetFull(ns, p)
  {
    var (b, mrb) := FirstOpenAngl(e, ns, a.minRootBase, p);
    baseAngl := b;
    a' := a.(minRootBase := mrb);
    var last := ns[|ns| - 1];
    if HasLeaves(ns[p]) && last.slot == 0 {
      SetFullKeeps(e, ns, p);
      return Return, SetFull(ns, p), a', Next(0, last.rad, NoAngle), baseAngl;
    }
    assert NodeOk(e, last, |ns|);
    var room;
    room, ns', a', nx := LineUpNext(e, ns, a', p, m, last.slot, baseAngl);
    flow := if room then Continue else Break;
  }

  /** A pass of the loop of Develop that has a start angle: grow the leaf, then line up
      the next one. */
  method StepWithAngle(e: Env, ns: seq<Node>, a: Aux, p: int, m: nat, resprouted: bool, nodesLeft: int,
                       nx: Next, baseAngl: real)
    returns (flow: Flow, ns': seq<Node>, a': Aux, nodesLeft': int, nx': Next, baseAngl': real)
    requires Healthy(e, ns) && 0 <= p < |ns| && LeafNumOk(e.c, m) && SlotOk(e.c, nx.slot)
    requires nodesLeft == e.c.maxNodes - |ns|
    ensures Healthy(e, ns') && Extends(ns, ns') && GrewOnly(ns, ns', p) && a.tick <= a'.tick
    ensures nodesLeft' == e.c.maxNodes - |ns'| && |ns'| <= |ns| + 1 && SlotOk(e.c, nx'.slot)
    ensures flow != Return && nodesLeft > 0 ==> nodesLeft' > 0
    ensures nodesLeft > 0 ==> nodesLeft' >= 0
  {
    var ns1, a1, noFit;
    flow, ns1, a1, nodesLeft', noFit := GrowNext(e, ns, a, p, resprouted, nodesLeft, nx);
    if flow != Continue {
      return flow, ns1, a1, nodesLeft', nx, baseAngl;
    }
    flow, ns', a', nx', baseAngl' := FollowUp(e, ns1, a1, p, m);
    ExtendsTrans(ns, ns1, ns');
    GrewOnlyTrans(ns, ns1, ns', p);
  }

  /** The end of a pass of the loop of Develop: a spiral with all its leaves is full,
      and Develop returns. */
  method CheckLeafCount(e: Env, ns: seq<Node>, p: int, m: nat) returns (done: bool, ns': seq<Node>)
    requires Healthy(e, ns) && 0 <= p < |ns|
    ensures Healthy(e, ns') && Extends(ns, ns') && GrewOnly(ns, ns', p) && |ns'| == |ns|
    ensures done <==> HasLeaves(ns[p]) && |ns[p].leafIdxs| == m
    ensures done ==> ns'[p].full
  {
    if HasLeaves(ns[p]) && |ns[p].leafIdxs| == m {
      SetFullKeeps(e, ns, p);
      return true, SetFull(ns, p);
    }
    assert Extends(ns, ns);
    return false, ns;
  }

  /** One pass of the loop of Develop. */
  method DevelopStep(e: Env, ns: seq<Node>, a: Aux, p: int, m: nat, resprouted: bool, nodesLeft: int,
                     nx: Next, baseAngl: real)
    returns (flow: Flow, ns': seq<Node>, a': Aux, nodesLeft': int, nx': Next, baseAngl': real)
    requires Healthy(e, ns) && 0 <= p < |ns| && LeafNumOk(e.c, m) && SlotOk(e.c, nx.slot)
    requires nodesLeft == e.c.maxNodes - |ns|
    ensures Healthy(e, ns') && Extends(ns, ns') && GrewOnly(ns, ns', p) && a.tick <= a'.tick
    ensures nodesLeft' == e.c.maxNodes - |ns'| && |ns'| <= |ns| + 1 && SlotOk(e.c, nx'.slot)
    ensures flow != Return && nodesLeft > 0 ==> nodesLeft' > 0
    ensures nodesLeft > 0 ==> nodesLeft' >= 0
  {
    var ns1;
    if nx.angl != NoAngle {
      flow, ns1, a', nodesLeft', nx', baseAngl' := StepWithAngle(e, ns, a, p, m, resprouted, nodesLeft, nx, baseAngl);
    } else {
      var room;
      room, ns1, a', nx' := LineUpNext(e, ns, a, p, m, nx.slot, baseAngl);
      flow, nodesLeft', baseAngl' := if room then Continue else Break, nodesLeft, baseAngl;
    }
    if flow != Continue {
      return flow, ns1, a', nodesLeft', nx', baseAngl';
    }
    var done;
    done, ns' := CheckLeafCount(e, ns1, p, m);
    ExtendsTrans(ns, ns1, ns');
    GrewOnlyTrans(ns, ns1, ns', p);
    flow := if done then Return else Continue;
  }

  /** The start of Develop: the first open angle (which may move the minimum root
      base), the slot there, a radius drawn for it, its arc, and the leaf's angle. */
  method FirstLeaf(e: Env, ns: seq<Node>, a: Aux, p: int, m: nat) returns (a': Aux, nx: Next, baseAngl: real)
    requires Healthy(e, ns) && 0 <= p < |ns| && LeafNumOk(e.c, m)
    ensures a'.tick == a.tick + 1 && SlotOk(e.c, nx.slot)
    ensures a'.minRootBase == FirstOpenAngl(e, ns, a.minRootBase, p).1
    ensures baseAngl == FirstOpenAngl(e, ns, a.minRootBase, p).0
  {
    var n := ns[p];
    assert NodeOk(e, n, |ns|);
    var open := FirstOpenAngl(e, ns, a.minRootBase, p);
    baseAngl := open.0;
    a' := a.(minRootBase := open.1);
    var slot := NextLeafSlotAt(e.c, n, baseAngl, m);
    SlotAtInRange(e.c, n, baseAngl, m);
    var d;
    d, a' := Draw(e, a').0, Draw(e, a').1;
    var rad := NextLeafRad(e.c, n.rad, slot, d);
    var arc := CalcLeafArcSpan(e.o, n.rad, rad);
    nx := Next(slot, rad, NextLeafAngle(e.c, n, arc, baseAngl, slot, a'.minRootBase));
  }

  /**
   * SpiralTree.Develop: grows up to the spiral's leaf count (drawn under random leaf
   * numbers) of leaves on spiral p, from its first open angle and the slot there,
   * stepping down a slot per leaf. It stops when the node budget is spent, when a leaf
   * took slot 0 or the last leaf was grown, when a leaf does not fit or is too small,
   * or when there is no room left; a spiral with leaves ends up full.
   */
  method Develop(e: Env, ns: seq<Node>, a: Aux, p: int, resprouted: bool) returns (ns': seq<Node>, a': Aux)
    requires Healthy(e, ns) && 0 <= p < |ns|
    ensures Healthy(e, ns') && Extends(ns, ns') && GrewOnly(ns, ns', p) && a.tick <= a'.tick
    ensures |ns| < e.c.maxNodes ==> |ns'| <= e.c.maxNodes
    ensures !e.c.RANDNUM ==> |ns'| <= |ns| + Max(e.c.maxLeaves, 0)
    ensures e.c.RANDNUM ==> |ns'| < |ns| + Max(FractionCount(e.c), 3)
  {
    var nodesLeft := e.c.maxNodes - |ns|;
    var m: nat := Max(e.c.maxLeaves, 0);
    a' := a;
    if e.c.RANDNUM {
      m := NumLeaves(e.c, e.leafNums(a.tick));
      a' := a.(tick := a.tick + 1);
    }
    assert LeafNumOk(e.c, m);
    var nx, baseAngl;
    a', nx, baseAngl := FirstLeaf(e, ns, a', p, m);
    ns' := ns;
    assert Extends(ns, ns);
    var lf := 0;
    while lf < m
      invariant 0 <= lf <= m
      invariant Healthy(e, ns') && Extends(ns, ns') && GrewOnly(ns, ns', p) && a.tick <= a'.tick
      invariant |ns'| <= |ns| + lf && nodesLeft == e.c.maxNodes - |ns'|
      invariant |ns| < e.c.maxNodes ==> nodesLeft > 0
      invariant SlotOk(e.c, nx.slot)
    {
      var flow, ns1, a1, nodesLeft1, nx1, baseAngl1 := DevelopStep(e, ns', a', p, m, resprouted, nodesLeft, nx, baseAngl);
      ExtendsTrans(ns, ns', ns1);
      GrewOnlyTrans(ns, ns', ns1, p);
      ns', a', nodesLeft, nx, baseAngl := ns1, a1, nodesLeft1, nx1, baseAngl1;
      if flow == Return {
        return;
      }
      if flow == Break {
        break;
      }
      lf := lf + 1;
    }
    if HasLeaves(ns'[p]) {
      SetFullKeeps(e, ns', p);
      ExtendsTrans(ns, ns', SetFull(ns', p));
      GrewOnlyTrans(ns, ns', SetFull(ns', p), p);
      ns' := SetFull(ns', p);
    }
  }

  // ---------------------------------------------------------------------------------
  // Resprouting stumps (SpiralTree.SproutStumps)

  /** A stump: a spiral too small to grow, without leaves, and not blocked. */
  predicate IsStump(c: Config, n: Node)
  {
    TooSmall(c, n) && !HasLeaves(n) && !n.blocked
  }

  /** The stumps among the first k nodes that sit in the given slot, with their radii,
      in index order. */
  function StumpsIn(c: Config, ns: seq<Node>, slot: int, k: nat): (r: seq<(int, real)>)
    requires k <= |ns|
    ensures forall x :: x in r ==> 0 <= x.0 < k && IsStump(c, ns[x.0]) && ns[x.0].slot == slot && x.1 == ns[x.0].rad
    ensures forall i :: 0 <= i < k && IsStump(c, ns[i]) && ns[i].slot == slot ==> (i, ns[i].rad) in r
  {
    if k == 0 then []
    else
      var i := k - 1;
      StumpsIn(c, ns, slot, i) + (if IsStump(c, ns[i]) && ns[i].slot == slot then [(i, ns[i].rad)] else [])
  }

  /** SpiralTree.Grow counts the stumps; none are left exactly when the count is 0. */
  function StumpCount(c: Config, ns: seq<Node>): (r: nat)
    ensures r == 0 <==> forall i :: 0 <= i < |ns| ==> !IsStump(c, ns[i])
    ensures r <= |ns|
  {
    if |ns| == 0 then 0
    else StumpCount(c, ns[..|ns| - 1]) + (if IsStump(c, ns[|ns| - 1]) then 1 else 0)
  }

  /** Every node of ns that is not a stump is unchanged in r. */
  predicate KeptNonStumps(c: Config, ns: seq<Node>, r: seq<Node>)
  {
    |ns| <= |r| && forall j :: 0 <= j < |ns| && !IsStump(c, ns[j]) ==> r[j] == ns[j]
  }

  /** The radius a stump's new leaf gets: the child proportion (a twentieth more for a
      stump under half the minimum radius) of the stump's radius scaled from the
      minimum radius up to the initial one. */
  function StumpLeafRad(c: Config, rad: real): (r: real)
    ensures c.minRadius != 0.0 && rad < c.minRadius / 2.0 ==> r * c.minRadius == 0.8 * rad * c.initRadius
    ensures c.minRadius != 0.0 && rad >= c.minRadius / 2.0 ==> r * c.minRadius == 0.75 * rad * c.initRadius
  {
    var mult := if rad < c.minRadius / 2.0 then ChildProportion + 0.05 else ChildProportion;
    Quot(mult * (rad * c.initRadius), c.minRadius)
  }

  /**
   * One stump of SproutStumps: a leaf of the stump's scaled radius sprouts at the
   * sprout angle (turned by a tenth per grow slot) in the grow slot; a leaf that grows
   * is developed when it can grow, and a stump whose leaf does not grow is blocked.
   * Done when the node budget is spent.
   */
  method SproutStump(e: Env, ns: seq<Node>, a: Aux, idx: int, rad: real, growSlot: int)
    returns (done: bool, ns': seq<Node>, a': Aux)
    requires Healthy(e, ns) && 0 <= idx < |ns| && SlotOk(e.c, growSlot)
    ensures Healthy(e, ns') && Extends(ns, ns') && a.tick <= a'.tick
    ensures forall j :: 0 <= j < |ns| && j != idx ==> ns'[j] == ns[j]
    ensures |ns| < e.c.maxNodes ==> |ns'| <= e.c.maxNodes
    ensures done ==> |ns'| == e.c.maxNodes
    ensures |ns| < |ns'| == e.c.maxNodes ==> done
    ensures |ns'| == |ns| ==> ns'[idx].blocked && !done
  {
    var lfRad := StumpLeafRad(e.c, rad);
    var strtAngl := ToAbsoluteAngle(ns[idx], e.c.sproutAngle + 0.1 * (growSlot as real));
    var ok;
    ok, ns', a' := GrowLeaf(e, ns, a, idx, lfRad, strtAngl, growSlot, true);
    if !ok {
      SetBlockedKeeps(e, ns', idx, true);
      ExtendsTrans(ns, ns', SetBlocked(ns', idx, true));
      return false, SetBlocked(ns', idx, true), a';
    }
    if |ns'| == e.c.maxNodes {
      return true, ns', a';
    }
    var leafIdx := |ns'| - 1;
    if !CanGrow(e.c, ns'[leafIdx]) {
      return false, ns', a';
    }
    var ns2;
    ns2, a' := Develop(e, ns', a', leafIdx, true);
    ExtendsTrans(ns, ns', ns2);
    ns' := ns2;
    done := |ns'| == e.c.maxNodes;
  }

  /** The stumps of one slot, largest first, each resprouted in turn until the node
      budget is spent. */
  method SproutSlot(e: Env, ns0: seq<Node>, ns: seq<Node>, a: Aux, stumps: seq<(int, real)>, growSlot: int)
    returns (done: bool, ns': seq<Node>, a': Aux)
    requires Healthy(e, ns) && Extends(ns0, ns) && KeptNonStumps(e.c, ns0, ns) && SlotOk(e.c, growSlot)
    requires forall x :: x in stumps ==> 0 <= x.0 < |ns0| && IsStump(e.c, ns0[x.0])
    requires |ns0| < e.c.maxNodes ==> |ns| < e.c.maxNodes
    ensures Healthy(e, ns') && Extends(ns0, ns') && KeptNonStumps(e.c, ns0, ns') && a.tick <= a'.tick
    ensures |ns0| < e.c.maxNodes ==> |ns'| <= e.c.maxNodes
    ensures !done && |ns0| < e.c.maxNodes ==> |ns'| < e.c.maxNodes
  {
    ns', a' := ns, a;
    var k := 0;
    while k < |stumps|
      invariant 0 <= k <= |stumps|
      invariant Healthy(e, ns') && Extends(ns0, ns') && KeptNonStumps(e.c, ns0, ns') && a.tick <= a'.tick
      invariant |ns0| < e.c.maxNodes ==> |ns'| < e.c.maxNodes
    {
      var (idx, rad) := stumps[k];
      assert stumps[k] in stumps;
      var ns1;
      done, ns1, a' := SproutStump(e, ns', a', idx, rad, growSlot);
      ExtendsTrans(ns0, ns', ns1);
      ns' := ns1;
      if done {
        return;
      }
      k := k + 1;
    }
    done := false;
  }

  /**
   * SpiralTree.SproutStumps: with nodes left to grow, the stumps of the tree as it
   * stands are resprouted slot by slot, from the lowest slot in use to the highest,
   * the larger stumps of a slot first, every new leaf in the lowest slot in use.
   * Only stumps change; the rest of the tree only gains nodes.
   */
  method SproutStumps(e: Env, ns: seq<Node>, a: Aux) returns (ns': seq<Node>, a': Aux)
    requires Healthy(e, ns)
    ensures Healthy(e, ns') && Extends(ns, ns') && KeptNonStumps(e.c, ns, ns') && a.tick <= a'.tick
    ensures |ns| < e.c.maxNodes ==> |ns'| <= e.c.maxNodes
    ensures |ns| == e.c.maxNodes ==> ns' == ns
  {
    ns', a' := ns, a;
    assert Extends(ns, ns);
    if e.c.maxNodes - |ns| == 0 {
      return;
    }
    var minSlot, maxSlot := MinInt(e.c.useSlots), MaxInt(e.c.useSlots);
    var growSlot := minSlot;
    var targetSlot := minSlot;
    while targetSlot <= maxSlot
      invariant Healthy(e, ns') && Extends(ns, ns') && KeptNonStumps(e.c, ns, ns') && a.tick <= a'.tick
      invariant |ns| < e.c.maxNodes ==> |ns'| < e.c.maxNodes
      decreases maxSlot - targetSlot
    {
      var stumps := SortRankedDesc(StumpsIn(e.c, ns, targetSlot, |ns|));
      assert forall x :: x in stumps ==> x in StumpsIn(e.c, ns, targetSlot, |ns|) by {
        forall x | x in stumps
          ensures x in StumpsIn(e.c, ns, targetSlot, |ns|)
        {
          assert x in multiset(stumps);
        }
      }
      targetSlot := targetSlot + 1;
      var done;
      done, ns', a' := SproutSlot(e, ns, ns', a', stumps, growSlot);
      if done {
        return;
      }
    }
  }

  // ---------------------------------------------------------------------------------
  // Growing the tree (SpiralTree.Grow)

  /** One pass of Grow over the tree, new nodes included: every spiral that can grow is
      developed, the others are counted as sterile. Done when the node budget is spent. */
  method GrowPass(e: Env, ns: seq<Node>, a: Aux) returns (done: bool, ns': seq<Node>, a': Aux, sterile: nat)
    requires Healthy(e, ns) && |ns| < e.c.maxNodes
    ensures Healthy(e, ns') && Extends(ns, ns') && a.tick <= a'.tick
    ensures |ns'| <= e.c.maxNodes && (done <==> |ns'| == e.c.maxNodes)
    ensures sterile <= |ns'|
  {
    ns', a', sterile := ns, a, 0;
    assert Extends(ns, ns);
    var idx := 0;
    while idx < |ns'|
      invariant Healthy(e, ns') && Extends(ns, ns') && a.tick <= a'.tick
      invariant |ns'| < e.c.maxNodes && sterile <= idx <= |ns'|
      decreases e.c.maxNodes - idx
    {
      if CanGrow(e.c, ns'[idx]) {
        var ns1;
        ns1, a' := Develop(e, ns', a', idx, false);
        ExtendsTrans(ns, ns', ns1);
        ns' := ns1;
        if |ns'| == e.c.maxNodes {
          return true, ns', a', sterile;
        }
      } else {
        sterile := sterile + 1;
      }
      idx := idx + 1;
    }
    done := false;
  }

  /**
   * SpiralTree.Grow: passes over the tree, at most 100 of them, while nodes are left
   * to grow. When every spiral but one was sterile in the last pass and tiny spirals
   * may grow, the stumps are resprouted first, and Grow stops if that added nothing.
   * A pass that starts with as many nodes as the one before stops Grow, unless tiny
   * spirals may grow and stumps remain. The tree never exceeds the node budget it
   * started within, and every leaf fits where it was placed.
   */
  method Grow(e: Env, ns: seq<Node>, a: Aux) returns (ns': seq<Node>, a': Aux)
    requires Healthy(e, ns)
    ensures Healthy(e, ns') && Extends(ns, ns') && a.tick <= a'.tick
    ensures |ns| <= e.c.maxNodes ==> |ns'| <= e.c.maxNodes
    ensures |ns| >= e.c.maxNodes ==> ns' == ns
  {
    ns', a' := ns, a;
    assert Extends(ns, ns);
    var loopCount, sterileCount, prevNodeCount := 0, 0, 0;
    var nodesLeft := e.c.maxNodes - |ns|;
    while nodesLeft > 0 && loopCount < 100
      invariant Healthy(e, ns') && Extends(ns, ns') && a.tick <= a'.tick
      invariant nodesLeft == e.c.maxNodes - |ns'| && 0 <= loopCount <= 100
      invariant |ns| <= e.c.maxNodes ==> |ns'| <= e.c.maxNodes
      invariant |ns| >= e.c.maxNodes ==> ns' == ns
      decreases 100 - loopCount
    {
      loopCount := loopCount + 1;
      if sterileCount > 0 && sterileCount >= |ns'| - 1 && e.c.GROWTINY {
        var ns1;
        ns1, a' := SproutStumps(e, ns', a');
        ExtendsTrans(ns, ns', ns1);
        var before := nodesLeft;
        ns', nodesLeft := ns1, e.c.maxNodes - |ns1|;
        if before == nodesLeft || nodesLeft == 0 {
          break;
        }
      }
      sterileCount := 0;
      if prevNodeCount == |ns'| {
        if !e.c.GROWTINY || StumpCount(e.c, ns') == 0 {
          break;
        }
      } else {
        prevNodeCount := |ns'|;
      }
      var done, ns1, sterile;
      done, ns1, a', sterile := GrowPass(e, ns', a');
      ExtendsTrans(ns, ns', ns1);
      ns', sterileCount := ns1, sterile;
      if done {
        return;
      }
      nodesLeft := e.c.maxNodes - |ns'|;
    }
  }

  /** A tree of roots alone is healthy: there are no leaves to fit. */
  lemma RootsHealthy(e: Env, ns: seq<Node>)
    requires EngineConfig(e.c) && ValidTree(e, ns)
    requires forall i :: 0 <= i < |ns| ==> IsRoot(ns[i])
    ensures Healthy(e, ns)
  {
  }

  /**
   * The whole engine: the roots are planted (a twin pair or a single root at the
   * container's centroid), then the tree is grown. The result is a valid tree whose
   * roots come first, within the node budget (or the roots alone), in which every leaf
   * fits among the spirals placed before it.
   */
  method GrowTree(e: Env, a: Aux, rootAngle: real, initRad: real) returns (ns: seq<Node>, a': Aux)
    requires EngineConfig(e.c)
    ensures Healthy(e, ns) && 1 <= |ns| && IsRoot(ns[0])
    ensures |ns| <= Max(e.c.maxNodes, 2)
    ensures forall i :: 0 <= i < |ns| && !IsRoot(ns[i]) ==> FitAmong(e, ns, i)
  {
    var roots := PlantRoots(e, rootAngle, initRad);
    RootsHealthy(e, roots);
    ns, a' := Grow(e, roots, a);
    assert Grown(roots[0], ns[0]);
  }
}
