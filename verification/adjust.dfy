/**
 * The attempts SpiralTree.cs makes to move a leaf that does not fit: small nudges
 * around the parent, turning to clear an edge, turning past a neighbour, and moving to
 * other slots. Every attempt keeps the leaf a candidate of its parent, and a reported
 * success means the leaf as returned passed the fit check.
 */
module Adjusting {
  import opened Angles
  import opened Plane
  import opened Seqs
  import opened Configs
  import opened Nodes
  import opened Trees

  /** What every attempt needs: a working configuration, a valid arena and a candidate
      leaf of parent p. */
  predicate Setting(e: Env, ns: seq<Node>, leaf: Node, p: int)
  {
    EngineConfig(e.c) && ValidTree(e, ns) && Candidate(e, ns, leaf, p)
  }

  /** SpiralNode.AdjustLeaf keeps a candidate a candidate when the new slot exists. */
  lemma AdjustedCandidate(e: Env, ns: seq<Node>, leaf: Node, p: int, angle: real, slot: int, d: LeafDraw)
    requires Setting(e, ns, leaf, p) && SlotOk(e.c, slot)
    ensures Candidate(e, ns, AdjustLeaf(e.c, e.o, e.sh, leaf, ns[p], angle, slot, d), p)
    ensures EdgeArgs(e, ns, BodyOf(AdjustLeaf(e.c, e.o, e.sh, leaf, ns[p], angle, slot, d)))
  {
    assert NodeOk(e, ns[p], |ns|);
  }

  /** A copy of a candidate is a candidate. */
  lemma CopiedCandidate(e: Env, ns: seq<Node>, leaf: Node, p: int)
    requires Candidate(e, ns, leaf, p)
    ensures Candidate(e, ns, CopyNode(leaf), p) && BodyOf(CopyNode(leaf)) == BodyOf(leaf)
  {
  }

  /**
   * The step every attempt repeats: AdjustLeaf to an angle and slot (one draw), then
   * CheckFit. The moved leaf has no neighbours before the check, so it fits exactly
   * when the check finds no collision and every edge clear.
   */
  method Refit(e: Env, ns: seq<Node>, a: Aux, leaf: Node, p: int, angle: real, slot: int)
    returns (ok: bool, r: Node, a': Aux)
    requires Setting(e, ns, leaf, p) && SlotOk(e.c, slot)
    ensures Candidate(e, ns, r, p) && r.slot == slot && EdgeArgs(e, ns, BodyOf(r))
    ensures ok <==> Fits(e, ns, BodyOf(r))
    ensures ok ==> Accepted(e, ns, r)
    ensures angle != NoAngle ==> r.strtAngl == ComplementAngle(angle)
    ensures a' == a.(tick := a.tick + 1)
  {
    var d: LeafDraw;
    d, a' := Draw(e, a).0, Draw(e, a).1;
    var moved := AdjustLeaf(e.c, e.o, e.sh, leaf, ns[p], angle, slot, d);
    AdjustedCandidate(e, ns, leaf, p, angle, slot, d);
    CheckedCandidate(e, ns, moved, p);
    ok, r := CheckFit(e, ns, moved);
  }

  // ---------------------------------------------------------------------------------
  // SpiralTree.TryMinAdjustment

  /** The angle a minimal adjustment tries in a direction (-1 or 1): the leaf's current
      direction from the parent turned by the radius ratio (at least 2) times the halo. */
  function MinTryAngle(e: Env, ns: seq<Node>, leaf: Node, nhbrIdx: int, direction: int): (r: real)
    requires 0 <= nhbrIdx < |ns|
    ensures 0.0 <= r <= Tau
  {
    var ratioMult := MaxR(RadRatioMult(leaf.rad, ns[nhbrIdx].rad), 2.0);
    Mod2Pi(ComplementAngle(leaf.strtAngl) + (direction as real) * ratioMult * e.c.nodeHalo)
  }

  /** One nudge of a minimal adjustment: a copy of the leaf moved to MinTryAngle in the
      same slot, then checked. */
  method MinNudge(e: Env, ns: seq<Node>, a: Aux, leaf: Node, p: int, nhbrIdx: int, direction: int)
    returns (fits: bool, copy: Node, a': Aux)
    requires Setting(e, ns, leaf, p) && 0 <= nhbrIdx < |ns|
    ensures Candidate(e, ns, copy, p) && copy.slot == leaf.slot
    ensures fits ==> Accepted(e, ns, copy)
    ensures copy.strtAngl == ComplementAngle(MinTryAngle(e, ns, leaf, nhbrIdx, direction))
    ensures a'.minRootBase == a.minRootBase && a.tick <= a'.tick
  {
    CopiedCandidate(e, ns, leaf, p);
    fits, copy, a' := Refit(e, ns, a, CopyNode(leaf), p, MinTryAngle(e, ns, leaf, nhbrIdx, direction), leaf.slot);
  }

  /**
   * SpiralTree.TryMinAdjustment: for a leaf with neighbour conflicts, nudges a copy by
   * the radius ratio (at least 2) times the halo about the closest neighbour's side,
   * first against and then with the turn, keeping the slot, and keeps the first copy
   * that fits; otherwise the leaf is left as it was. (The source's bail-out for a
   * missing closest neighbour, and its early return for a leaf without conflicts,
   * cannot happen to a leaf with conflicts.)
   */
  method TryMinAdjustment(e: Env, ns: seq<Node>, a: Aux, leaf: Node, p: int) returns (ok: bool, r: Node, a': Aux)
    requires Setting(e, ns, leaf, p) && |leaf.nhbrDists| > 0
    ensures Candidate(e, ns, r, p)
    ensures ok ==> Accepted(e, ns, r) && r.slot == leaf.slot
    ensures ok ==> r.strtAngl == ComplementAngle(MinTryAngle(e, ns, leaf, ClosestNhbrIdx(leaf), -1)) ||
                   r.strtAngl == ComplementAngle(MinTryAngle(e, ns, leaf, ClosestNhbrIdx(leaf), 1))
    ensures !ok ==> r == leaf
    ensures a'.minRootBase == a.minRootBase && a.tick <= a'.tick
  {
    var nhbrIdx := ClosestNhbrIdx(leaf);
    assert 0 <= nhbrIdx < |ns|;
    var copy;
    ok, copy, a' := MinNudge(e, ns, a, leaf, p, nhbrIdx, -1);
    if ok {
      return ok, copy, a';
    }
    ok, copy, a' := MinNudge(e, ns, a', leaf, p, nhbrIdx, 1);
    r := if ok then copy else leaf;
  }

  // ---------------------------------------------------------------------------------
  // SpiralTree.GetNeighborFitAngle

  /** The neighbour GetNeighborFitAngle turns past: the only one, or the closest. */
  function WorstNhbr(leaf: Node): (r: int)
    requires |leaf.nhbrIdxs| == |leaf.nhbrDists| > 0
    ensures r in leaf.nhbrIdxs
  {
    if |leaf.nhbrIdxs| == 1 then leaf.nhbrIdxs[0] else ClosestNhbrIdx(leaf)
  }

  /** The node quantities Trig.ClosestFitAngle reads, handed to ClosestFitArc. */
  function NhbrFitArc(e: Env, prnt: Node, leaf: Node, nhbr: Node): real
  {
    var prntNhbrDist := PointDist(e.o, nhbr.ctr, prnt.ctr);
    var nhbrPrntSkinDist := SurfaceDist(e.o, e.sh, BodyOf(nhbr), BodyOf(prnt));
    var nhbrSurfTowardPrnt := e.sh.radAtAngle(BodyOf(nhbr), AngleToPoint(e.o, nhbr.ctr, prnt.ctr));
    ClosestFitArc(e.o, prntNhbrDist, nhbrPrntSkinDist, nhbrSurfTowardPrnt, nhbr.rad, leaf.rad, leaf.lift, e.c.nodeBuffer)
  }

  /** The angle, seen from the parent, a fit arc away from the neighbour: with the
      parent's turn for dir 1 (backing up), against it for dir -1 (moving forward). */
  function PastNhbr(e: Env, prnt: Node, nhbr: Node, fitArc: real, dir: int): (r: real)
    ensures 0.0 <= r <= Tau && r != NoAngle
  {
    Mod2Pi(AngleToPoint(e.o, prnt.ctr, nhbr.ctr) + (dir * prnt.clock) as real * fitArc)
  }

  /**
   * SpiralTree.GetNeighborFitAngle: the parent's first open angle is found first (it may
   * move the minimum root base). Past the worst neighbour by the closest fit angle:
   * backing up (with the turn) first when asked and in the growth range, else forward
   * (against the turn) when in the growth range and the arc left there covers half the
   * leaf's arc; no angle otherwise.
   */
  function GetNeighborFitAngle(e: Env, ns: seq<Node>, minRootBase: real, leaf: Node, p: int, aftrRslt: bool): (r: (real, real))
    requires Setting(e, ns, leaf, p) && |leaf.nhbrIdxs| > 0
    ensures r.1 == FirstOpenAngl(e, ns, minRootBase, p).1
    ensures r.0 != NoAngle ==> 0.0 <= r.0 <= Tau && AngleInGrowthRange(e.c, ns[p], FirstOpenAngl(e, ns, minRootBase, p).0, r.0)
    ensures var fitArc := NhbrFitArc(e, ns[p], leaf, ns[WorstNhbr(leaf)]);
            (fitArc == NoAngle ==> r.0 == NoAngle) &&
            (r.0 != NoAngle ==> r.0 == PastNhbr(e, ns[p], ns[WorstNhbr(leaf)], fitArc, -1) ||
                                (aftrRslt && r.0 == PastNhbr(e, ns[p], ns[WorstNhbr(leaf)], fitArc, 1)))
    ensures var fitArc := NhbrFitArc(e, ns[p], leaf, ns[WorstNhbr(leaf)]);
            var back := PastNhbr(e, ns[p], ns[WorstNhbr(leaf)], fitArc, 1);
            aftrRslt && fitArc != NoAngle && AngleInGrowthRange(e.c, ns[p], FirstOpenAngl(e, ns, minRootBase, p).0, back) ==>
              r.0 == back
  {
    var (firstOpenAngl, mrb) := FirstOpenAngl(e, ns, minRootBase, p);
    var prnt := ns[p];
    var leafArc := CalcLeafArcSpan(e.o, prnt.rad, leaf.rad);
    var nhbr := ns[WorstNhbr(leaf)];
    var fitArc := NhbrFitArc(e, prnt, leaf, nhbr);
    if fitArc == NoAngle then (NoAngle, mrb)
    else
      var angl0 := PastNhbr(e, prnt, nhbr, fitArc, 1);
      if aftrRslt && AngleInGrowthRange(e.c, prnt, firstOpenAngl, angl0) then (angl0, mrb)
      else
        var angl1 := PastNhbr(e, prnt, nhbr, fitArc, -1);
        var remainingArc := Mod2Pi((prnt.clock as real) * (fitArc - prnt.endAngl));
        if AngleInGrowthRange(e.c, prnt, firstOpenAngl, angl1) && remainingArc >= 0.5 * leafArc then (angl1, mrb)
        else (NoAngle, mrb)
  }

  // ---------------------------------------------------------------------------------
  // SpiralTree.TryAdjustToNhbrs

  /** How a round of an adjustment loop ends: go round again, or stop with a verdict. */
  datatype Round = Again | Done(ok: bool)

  /** Setting a candidate's slot to an existing slot keeps it a candidate. */
  lemma ReslottedCandidate(e: Env, ns: seq<Node>, leaf: Node, p: int, slot: int)
    requires Candidate(e, ns, leaf, p) && SlotOk(e.c, slot)
    ensures Candidate(e, ns, leaf.(slot := slot), p)
  {
  }

  /**
   * The special cases that open a round of SpiralTree.TryAdjustToNhbrs: a very small
   * conflict (every neighbour gap above a fifth of the buffer) gets a minimal
   * adjustment; a conflict only with the sibling placed last moves the leaf past the
   * parent's first open angle by the halo and its own arc. A round goes on only while
   * neighbour conflicts remain.
   */
  method NhbrSpecialCases(e: Env, ns: seq<Node>, a: Aux, leaf: Node, p: int) returns (st: Round, r: Node, a': Aux)
    requires Setting(e, ns, leaf, p) && |leaf.nhbrIdxs| > 0
    ensures Candidate(e, ns, r, p)
    ensures st == Done(true) ==> Accepted(e, ns, r)
    ensures st == Again ==> |r.nhbrIdxs| > 0
    ensures a.tick <= a'.tick
  {
    r, a' := leaf, a;
    if MinOf(leaf.nhbrDists) > 0.2 * e.c.nodeBuffer {
      var fits;
      fits, r, a' := TryMinAdjustment(e, ns, a, leaf, p);
      if fits || |r.nhbrIdxs| == 0 {
        return Done(fits), r, a';
      }
    }
    if |r.nhbrIdxs| == 1 && r.nhbrIdxs[0] == |ns| - 1 && ns[|ns| - 1].prntIdx == r.prntIdx {
      var (firstOpenAngl, mrb) := FirstOpenAngl(e, ns, a'.minRootBase, p);
      var leafArc := CalcLeafArcSpan(e.o, ns[p].rad, r.rad);
      var nextLeafAngl := Mod2Pi(firstOpenAngl - (ns[p].clock as real) * (e.c.nodeHalo + leafArc));
      var fits;
      fits, r, a' := Refit(e, ns, a'.(minRootBase := mrb), r, p, nextLeafAngl, r.slot);
      if fits {
        return Done(true), r, a';
      } else if |r.nhbrIdxs| == 0 {
        return Done(false), r, a';
      }
    }
    st := Again;
  }

  /**
   * The main step of a round of SpiralTree.TryAdjustToNhbrs: turn past the worst
   * neighbour. It gives up when no angle is offered, when the angle was tried before,
   * when a limited (resprouted) leaf would leave the sprout range, or when the slot the
   * angle calls for is more than two slots away. The first backing-up attempt works on a
   * copy (pre-slotted under gradual sizes growing large to small) and leaves the leaf
   * alone when it fails; later attempts move the leaf itself.
   */
  method NhbrTurn(e: Env, ns: seq<Node>, a: Aux, leaf: Node, p: int, aftrRslt: bool, limited: bool,
                  origSlot: int, tried: seq<real>)
    returns (st: Round, r: Node, aftrRslt': bool, tried': seq<real>, a': Aux)
    requires Setting(e, ns, leaf, p) && |leaf.nhbrIdxs| > 0 && SlotOk(e.c, origSlot)
    ensures Candidate(e, ns, r, p)
    ensures st == Done(true) ==> Accepted(e, ns, r)
    ensures st == Again ==> |tried'| == |tried| + 1 && tried'[..|tried|] == tried && tried'[|tried|] !in tried
    ensures a.tick <= a'.tick
  {
    var (nhbrFitAngl, mrb) := GetNeighborFitAngle(e, ns, a.minRootBase, leaf, p, aftrRslt);
    r, aftrRslt', tried', a' := leaf, aftrRslt, tried, a.(minRootBase := mrb);
    var prnt := ns[p];
    if limited && !aftrRslt && !AngleInSproutRange(e.c, prnt, nhbrFitAngl) {
      return Done(false), r, aftrRslt', tried', a';
    }
    if nhbrFitAngl == NoAngle || nhbrFitAngl in tried {
      return Done(false), r, aftrRslt', tried', a';
    }
    var newSlot := CorrectedSlot(e.c, prnt, nhbrFitAngl, origSlot);
    if leaf.slot - newSlot > 2 || newSlot - leaf.slot > 2 {
      return Done(false), r, aftrRslt', tried', a';
    }
    tried' := tried + [nhbrFitAngl];
    var fits;
    if !aftrRslt {
      fits, r, a' := Refit(e, ns, a', leaf, p, nhbrFitAngl, newSlot);
    } else {
      aftrRslt' := false;
      CopiedCandidate(e, ns, leaf, p);
      var copy := CopyNode(leaf);
      if e.c.GRAD && !e.c.SMTOLG {
        ReslottedCandidate(e, ns, copy, p, newSlot);
        copy := copy.(slot := newSlot);
      }
      var moved;
      fits, moved, a' := Refit(e, ns, a', copy, p, nhbrFitAngl, newSlot);
      if fits {
        r := moved;
      }
    }
    st := if fits then Done(true) else Again;
  }

  /**
   * SpiralTree.TryAdjustToNhbrs: up to one round per slot in use while neighbour
   * conflicts remain. A round stops the loop on success or on any give-up, and after
   * more than three tried angles when the last one lowered the summed neighbour
   * distance while leaving fewer conflicts than at the start. The leaf is returned as
   * the rounds left it; it is accepted whenever the answer is yes.
   */
  method TryAdjustToNhbrs(e: Env, ns: seq<Node>, a: Aux, leaf: Node, p: int, aftrRslt: bool, limited: bool)
    returns (ok: bool, r: Node, a': Aux)
    requires Setting(e, ns, leaf, p)
    ensures Candidate(e, ns, r, p)
    ensures ok ==> Accepted(e, ns, r)
    ensures |leaf.nhbrIdxs| == 0 ==> !ok && r == leaf
    ensures a.tick <= a'.tick
  {
    var origSlot := leaf.slot;
    var maxTries := |e.c.useSlots|;
    var prevConflictCount := |leaf.nhbrIdxs|;
    var alreadyTried: seq<real> := [];
    var aftr := aftrRslt;
    r, a' := leaf, a;
    while |r.nhbrIdxs| > 0 && maxTries > 0
      decreases maxTries
      invariant Candidate(e, ns, r, p) && a.tick <= a'.tick
      invariant |leaf.nhbrIdxs| == 0 ==> r == leaf
    {
      maxTries := maxTries - 1;
      var prevDistSum := Sum(r.nhbrDists);
      var st;
      st, r, a' := NhbrSpecialCases(e, ns, a', r, p);
      if st.Done? {
        return st.ok, r, a';
      }
      st, r, aftr, alreadyTried, a' := NhbrTurn(e, ns, a', r, p, aftr, limited, origSlot, alreadyTried);
      if st.Done? {
        return st.ok, r, a';
      }
      if |alreadyTried| > 3 && Sum(r.nhbrDists) < prevDistSum && prevConflictCount > |r.nhbrIdxs| {
        return false, r, a';
      }
    }
    ok := false;
  }

  // ---------------------------------------------------------------------------------
  // SpiralTree.TryAdjustToEdges

  /**
   * The edge TryAdjustToEdges turns away from: the first conflicting edge when only one
   * conflicts; otherwise the edge whose nearest point lies closest to the leaf centre
   * (the first such edge among equals).
   */
  function ProblemEdge(e: Env, leaf: Node): (r: int)
    requires 0.0 in leaf.edgeDists && |leaf.edgePoints| == |leaf.edgeDists|
    ensures 0 <= r < |leaf.edgeDists|
    ensures multiset(leaf.edgeDists)[0.0] == 1 ==>
              leaf.edgeDists[r] == 0.0 && forall k :: 0 <= k < r ==> leaf.edgeDists[k] != 0.0
    ensures multiset(leaf.edgeDists)[0.0] > 1 ==>
              forall k :: 0 <= k < |leaf.edgePoints| ==>
                PointDist(e.o, leaf.edgePoints[r], leaf.ctr) <= PointDist(e.o, leaf.edgePoints[k], leaf.ctr)
  {
    if multiset(leaf.edgeDists)[0.0] == 1 then FindIndex(leaf.edgeDists, (x: real) => x == 0.0)
    else NearestPoint(e.o, leaf.edgePoints, leaf.ctr)
  }

  /** The first of the points lying closest to a centre. */
  function NearestPoint(o: Oracle, pts: seq<Point>, ctr: Point): (r: nat)
    requires |pts| > 0
    ensures r < |pts| && forall k :: 0 <= k < |pts| ==> PointDist(o, pts[r], ctr) <= PointDist(o, pts[k], ctr)
  {
    var dists := seq(|pts|, i requires 0 <= i < |pts| => PointDist(o, pts[i], ctr));
    var r := FirstLeast(dists);
    assert forall k :: 0 <= k < |pts| ==> dists[k] == PointDist(o, pts[k], ctr);
    r
  }

  /**
   * The two start angles that bring a leaf within the buffer of an edge point: the
   * parent-to-edge direction turned by the fit arc either way, the larger sum first
   * unless the parent turns clockwise, in which case the smaller comes first.
   */
  function EdgeFitAngles(o: Oracle, prnt: Node, edgePt: Point, edgeArc: real): (r: (real, real))
    ensures 0.0 <= r.0 <= Tau && 0.0 <= r.1 <= Tau
    ensures var toEdge := AngleToPoint(o, prnt.ctr, edgePt);
            multiset{r.0, r.1} == multiset{Mod2Pi(toEdge + edgeArc), Mod2Pi(toEdge - edgeArc)}
    ensures 0.0 <= edgeArc && prnt.clock < 0 ==> r.0 == Mod2Pi(AngleToPoint(o, prnt.ctr, edgePt) - edgeArc)
    ensures prnt.clock >= 0 ==> r.0 == Mod2Pi(AngleToPoint(o, prnt.ctr, edgePt) + edgeArc)
  {
    var anglFromPrnt := AngleToPoint(o, prnt.ctr, edgePt);
    var first := anglFromPrnt + edgeArc;
    var second := anglFromPrnt - edgeArc;
    if prnt.clock < 0 && second < first then (Mod2Pi(second), Mod2Pi(first))
    else (Mod2Pi(first), Mod2Pi(second))
  }

  /** No rotation about the parent brings the leaf within reach of the problem edge. */
  predicate NoEdgeArc(e: Env, ns: seq<Node>, leaf: Node, p: int)
    requires Candidate(e, ns, leaf, p) && 0.0 in leaf.edgeDists && |ns[p].edgePoints| == |leaf.edgeDists|
  {
    EdgeFitArc(e.o, ns[p].edgePoints[ProblemEdge(e, leaf)], ns[p].ctr, ns[p].rad, leaf.rad, leaf.lift,
               e.c.nodeBuffer) == NoAngle
  }

  /** One of TryAdjustToEdges' two attempts: move the leaf to the angle in the slot that
      angle calls for (pre-slotted under gradual sizes growing small to large). */
  method EdgeRefit(e: Env, ns: seq<Node>, a: Aux, leaf: Node, p: int, angle: real, origSlot: int)
    returns (ok: bool, r: Node, a': Aux)
    requires Setting(e, ns, leaf, p) && SlotOk(e.c, origSlot)
    ensures Candidate(e, ns, r, p)
    ensures ok <==> Fits(e, ns, BodyOf(r))
    ensures ok ==> Accepted(e, ns, r)
    ensures r.slot == CorrectedSlot(e.c, ns[p], angle, origSlot)
    ensures a.tick <= a'.tick
  {
    var newSlot := CorrectedSlot(e.c, ns[p], angle, origSlot);
    var moving := leaf;
    if e.c.GRAD && e.c.SMTOLG {
      ReslottedCandidate(e, ns, leaf, p, newSlot);
      moving := leaf.(slot := newSlot);
    }
    ok, r, a' := Refit(e, ns, a, moving, p, angle, newSlot);
  }

  /**
   * SpiralTree.TryAdjustToEdges: turns the leaf about its parent so that it clears the
   * problem edge, trying the two fit angles in order among those in range (the sprout
   * range for a limited leaf, else the growth range from the parent's first open
   * angle). When the first angle clears the edges but not the neighbours and the second
   * is in range, the neighbour adjustment gets a go before the second angle is tried.
   * No fit arc, or neither angle in range, gives up with the leaf untouched.
   */
  method TryAdjustToEdges(e: Env, ns: seq<Node>, a: Aux, leaf: Node, p: int, limited: bool)
    returns (ok: bool, r: Node, a': Aux)
    requires Setting(e, ns, leaf, p) && 0.0 in leaf.edgeDists
    ensures Candidate(e, ns, r, p)
    ensures ok ==> Accepted(e, ns, r)
    ensures NoEdgeArc(e, ns, leaf, p) ==> !ok && r == leaf
    ensures a.tick <= a'.tick
  {
    var (initStartAngl, mrb) := FirstOpenAngl(e, ns, a.minRootBase, p);
    r, a' := leaf, a.(minRootBase := mrb);
    var prnt := ns[p];
    assert NodeOk(e, prnt, |ns|);
    var edgePt := prnt.edgePoints[ProblemEdge(e, leaf)];
    var edgeArc := EdgeFitArc(e.o, edgePt, prnt.ctr, prnt.rad, leaf.rad, leaf.lift, e.c.nodeBuffer);
    if edgeArc == NoAngle {
      return false, r, a';
    }
    var (angleToFit1, angleToFit2) := EdgeFitAngles(e.o, prnt, edgePt, edgeArc);
    var inRange1 := if limited then AngleInSproutRange(e.c, prnt, angleToFit1)
                    else AngleInGrowthRange(e.c, prnt, initStartAngl, angleToFit1);
    var inRange2 := if limited then AngleInSproutRange(e.c, prnt, angleToFit2)
                    else AngleInGrowthRange(e.c, prnt, initStartAngl, angleToFit2);
    if !inRange1 && !inRange2 {
      return false, r, a';
    }
    var origSlot := leaf.slot;
    if inRange1 {
      ok, r, a' := EdgeRefit(e, ns, a', r, p, angleToFit1, origSlot);
      if ok || !inRange2 {
        return;
      }
      if !(0.0 in r.edgeDists) && |r.nhbrIdxs| > 0 {
        ok, r, a' := TryAdjustToNhbrs(e, ns, a', r, p, false, limited);
        if ok {
          return;
        }
      }
    }
    ok, r, a' := EdgeRefit(e, ns, a', r, p, angleToFit2, origSlot);
  }

  // ---------------------------------------------------------------------------------
  // SpiralTree.TryAdjust and SpiralTree.TryToFit

  /**
   * SpiralTree.TryAdjust: an edge-only conflict is met by turning away from the edge; if
   * that leaves no edge conflict but neighbour conflicts, or there were neighbour
   * conflicts from the start, the neighbour adjustment follows. A leaf with no recorded
   * conflict is returned as it is, with no.
   */
  method TryAdjust(e: Env, ns: seq<Node>, a: Aux, leaf: Node, p: int, canBackUp: bool, limited: bool)
    returns (ok: bool, r: Node, a': Aux)
    requires Setting(e, ns, leaf, p)
    ensures Candidate(e, ns, r, p)
    ensures ok ==> Accepted(e, ns, r)
    ensures |leaf.nhbrIdxs| == 0 && 0.0 !in leaf.edgeDists ==> !ok && r == leaf
    ensures a.tick <= a'.tick
  {
    r, a' := leaf, a;
    if 0.0 in leaf.edgeDists && |leaf.nhbrIdxs| == 0 {
      ok, r, a' := TryAdjustToEdges(e, ns, a, leaf, p, limited);
      if ok {
        return;
      }
      if 0.0 in r.edgeDists {
        return false, r, a';
      }
    }
    if |r.nhbrIdxs| > 0 {
      ok, r, a' := TryAdjustToNhbrs(e, ns, a', r, p, canBackUp, limited);
      if ok {
        return;
      }
    }
    ok := false;
  }

  /**
   * One slot of SpiralTree.TryToFit's reslotting: the working copy moves to the slot's
   * start angle and slot; a radius grown too small under gradual sizes from large to
   * small gives up; a copy that does not fit gets one more adjustment on a copy of its
   * own. The working copy keeps the move either way.
   */
  method ReslotStep(e: Env, ns: seq<Node>, a: Aux, work: Node, p: int, slt: int, newStart: real)
    returns (st: Round, r: Node, work': Node, a': Aux)
    requires Setting(e, ns, work, p) && SlotOk(e.c, slt)
    ensures Candidate(e, ns, work', p) && Candidate(e, ns, r, p)
    ensures st == Done(true) ==> Accepted(e, ns, r)
    ensures a.tick <= a'.tick
  {
    var d: LeafDraw;
    d, a' := Draw(e, a).0, Draw(e, a).1;
    AdjustedCandidate(e, ns, work, p, newStart, slt, d);
    work' := AdjustLeaf(e.c, e.o, e.sh, work, ns[p], newStart, slt, d);
    r := work';
    if e.c.GRAD && !e.c.SMTOLG && RadTooSmall(e.c, work'.rad) {
      return Done(false), r, work', a';
    }
    CheckedCandidate(e, ns, work', p);
    var fits;
    fits, work' := CheckFit(e, ns, work');
    r := work';
    if fits {
      return Done(true), r, work', a';
    }
    CopiedCandidate(e, ns, work', p);
    fits, r, a' := TryAdjust(e, ns, a', CopyNode(work'), p, true, false);
    st := if fits then Done(true) else Again;
  }

  /**
   * SpiralTree.TryToFit: adjusts a copy of the leaf (backing up allowed when at most
   * three leaves are wanted); failing that, and unless reslotting is off, moves a fresh
   * copy through the slots in use after the leaf's own, each at its slot's start angle
   * when that lies in the growth range from the leaf's start. The answer is yes only
   * with an accepted leaf; on no the leaf is handed back untouched.
   */
  method TryToFit(e: Env, ns: seq<Node>, a: Aux, leaf: Node, p: int, noRslt: bool)
    returns (ok: bool, r: Node, a': Aux)
    requires Setting(e, ns, leaf, p)
    ensures Candidate(e, ns, r, p)
    ensures ok ==> Accepted(e, ns, r)
    ensures !ok ==> r == leaf
    ensures a.tick <= a'.tick
  {
    var initStartAngl := ComplementAngle(leaf.strtAngl);
    var canBackUp := e.c.maxLeaves <= 3;
    CopiedCandidate(e, ns, leaf, p);
    var adjusted;
    ok, adjusted, a' := TryAdjust(e, ns, a, CopyNode(leaf), p, canBackUp, noRslt);
    if ok {
      return true, adjusted, a';
    }
    r := leaf;
    if noRslt {
      return false, r, a';
    }
    var copy1 := CopyNode(leaf);
    var sltIdx := FindIndex(e.c.useSlots, (x: int) => x == copy1.slot);
    var i := sltIdx + 1;
    while i < |e.c.useSlots|
      invariant 0 <= i && Candidate(e, ns, copy1, p) && r == leaf && a.tick <= a'.tick
    {
      var slt := e.c.useSlots[i];
      var newStart := ReslotAngl(e.c, ns[p], slt, false);
      if AngleInGrowthRange(e.c, ns[p], initStartAngl, newStart) {
        var st, found;
        st, found, copy1, a' := ReslotStep(e, ns, a', copy1, p, slt, newStart);
        if st.Done? {
          return st.ok, if st.ok then found else leaf, a';
        }
      }
      i := i + 1;
    }
    ok := false;
  }
}
