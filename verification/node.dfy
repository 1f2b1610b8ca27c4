/**
 * A spiral of the tree (SpiralNode.cs): its place, size and direction of turn, the
 * indices and angles of the leaves grown on it, and the neighbour and edge data of the
 * last fit check. The spiral drawing itself (spiral centre, envelope centre, start
 * point) only feeds plotting and the envelope radius, which a Shape supplies.
 */
module Nodes {
  import opened Angles
  import opened Plane
  import opened Seqs
  import opened Configs

  datatype Node = Node(
    prntIdx: int,
    ctr: Point,
    rad: real,
    strtAngl: real,
    endAngl: real,
    clock: int,
    full: bool,
    blocked: bool,
    isTwin: bool,
    slot: int,
    lift: real,
    leafIdxs: seq<int>,
    leafAngls: seq<real>,
    nhbrIdxs: seq<int>,
    nhbrDists: seq<real>,
    edgeDists: seq<real>,
    edgePoints: seq<Point>)

  /** The placement of a spiral, everything its outline and fit depend on. */
  datatype Body = Body(ctr: Point, rad: real, strtAngl: real, clock: int, prntIdx: int, lift: real)

  function BodyOf(n: Node): Body
  {
    Body(n.ctr, n.rad, n.strtAngl, n.clock, n.prntIdx, n.lift)
  }

  /** The spiral's fitted outline: SpiralNode.RadAtAngle (the distance from the centre to
      the outline in a direction) and SpiralNode.CalcNodeLift (the gap a leaf of a given
      radius at a given angle keeps from the parent's circle). */
  datatype Shape = Shape(
    radAtAngle: (Body, real) -> real,
    nodeLift: (Body, real, real) -> real)

  /** Math.Round: to the nearest integer, halves to the even neighbour. */
  function RoundHalfEven(x: real): (r: int)
    ensures -0.5 <= r as real - x <= 0.5
    ensures (r as real - x == 0.5 || x - r as real == 0.5) ==> r % 2 == 0
  {
    var f := x.Floor;
    var d := x - f as real;
    if d < 0.5 then f
    else if d > 0.5 then f + 1
    else if f % 2 == 0 then f
    else f + 1
  }

  /** SpiralNode.TooSmall: the rounded radius does not exceed the minimum radius. */
  predicate TooSmall(c: Config, n: Node)
  {
    RoundHalfEven(n.rad) as real <= c.minRadius
  }

  /** A radius half a unit below the minimum is too small; one more than half a unit
      above it is not. */
  lemma TooSmallBounds(c: Config, n: Node)
    ensures n.rad <= c.minRadius - 0.5 ==> TooSmall(c, n)
    ensures n.rad > c.minRadius + 0.5 ==> !TooSmall(c, n)
  {
  }

  /** SpiralNode.CanGrow. */
  predicate CanGrow(c: Config, n: Node)
  {
    !n.full && !n.blocked && !TooSmall(c, n)
  }

  predicate IsRoot(n: Node)
  {
    n.prntIdx == -1
  }

  /** SpiralNode.LeafCount: the number of leaf angles recorded. */
  function LeafCount(n: Node): nat
  {
    |n.leafAngls|
  }

  predicate HasLeaves(n: Node)
  {
    LeafCount(n) > 0
  }

  /** The leaf lists grow together, one index and one angle per leaf. */
  predicate Lockstep(n: Node)
  {
    |n.leafIdxs| == |n.leafAngls| && |n.nhbrIdxs| == |n.nhbrDists|
  }

  /** The spiral's end angle: the start turned by the end arc in the spiral's direction. */
  function EndAngle(c: Config, strtAngl: real, clock: int): (r: real)
    ensures 0.0 <= r <= Tau
    ensures Congruent(r, strtAngl + (clock as real) * c.endAt)
  {
    Mod2Pi(strtAngl + (clock as real) * c.endAt)
  }

  /** The root constructor of SpiralNode: turning counter-clockwise, slot 0, the root lift. */
  function NewRoot(c: Config, ctr: Point, radius: real, angle: real, isTwin: bool): (n: Node)
    ensures IsRoot(n) && n.clock == 1 && n.slot == 0 && n.lift == RootLift
    ensures n.ctr == ctr && n.rad == radius && n.strtAngl == angle && n.isTwin == isTwin
    ensures !n.full && !n.blocked && LeafCount(n) == 0 && Lockstep(n)
    ensures Congruent(n.endAngl, angle + c.endAt)
  {
    Node(-1, ctr, radius, angle, EndAngle(c, angle, 1), 1, false, false, isTwin, 0, RootLift,
         [], [], [], [], [], [])
  }

  /** The leaf constructor of SpiralNode: a leaf turns against its parent; a parent index
      of -1 makes a root instead. */
  function NewLeaf(c: Config, prntIdx: int, prntClock: int, ctr: Point, radius: real, angle: real,
                   slot: int, lift: real): (n: Node)
    ensures n.prntIdx == prntIdx && n.ctr == ctr && n.rad == radius && n.strtAngl == angle
    ensures prntIdx != -1 ==> n.clock == -prntClock && n.slot == slot && n.lift == lift
    ensures prntIdx == -1 ==> n.clock == 1 && n.slot == 0 && n.lift == RootLift
    ensures !n.full && !n.blocked && !n.isTwin && LeafCount(n) == 0 && Lockstep(n)
    ensures n.edgeDists == [] && n.edgePoints == []
  {
    var clock := if prntIdx == -1 then 1 else -prntClock;
    Node(prntIdx, ctr, radius, angle, EndAngle(c, angle, clock), clock, false, false, false,
         if prntIdx == -1 then 0 else slot, if prntIdx == -1 then RootLift else lift,
         [], [], [], [], [], [])
  }

  /** The copy constructor of SpiralNode: the same place, size and slot, with the flags
      cleared, no leaves, and the neighbour and edge data carried over. */
  function CopyNode(orig: Node): (n: Node)
    ensures n.prntIdx == orig.prntIdx && n.ctr == orig.ctr && n.rad == orig.rad
    ensures n.strtAngl == orig.strtAngl && n.endAngl == orig.endAngl && n.clock == orig.clock
    ensures n.slot == orig.slot && n.lift == orig.lift
    ensures !n.full && !n.blocked && !n.isTwin && n.leafIdxs == [] && n.leafAngls == []
    ensures n.nhbrIdxs == orig.nhbrIdxs && n.nhbrDists == orig.nhbrDists
    ensures n.edgeDists == orig.edgeDists && n.edgePoints == orig.edgePoints
  {
    orig.(full := false, blocked := false, isTwin := false, leafIdxs := [], leafAngls := [])
  }

  /** SpiralNode.LastLeafIdx: the last leaf's index, or -1. */
  function LastLeafIdx(n: Node): (r: int)
    ensures |n.leafIdxs| == 0 ==> r == -1
    ensures |n.leafIdxs| > 0 ==> r == n.leafIdxs[|n.leafIdxs| - 1]
  {
    if |n.leafIdxs| > 0 then n.leafIdxs[|n.leafIdxs| - 1] else -1
  }

  /** SpiralNode.ToRelativeAngle: an absolute angle measured from the start angle in the
      spiral's direction of turn. */
  function ToRelativeAngle(n: Node, a: real): (r: real)
    ensures 0.0 <= r <= Tau
  {
    Mod2Pi((n.clock as real) * a - (n.clock as real) * n.strtAngl)
  }

  /** SpiralNode.ToAbsoluteAngle: the absolute direction of a relative angle. */
  function ToAbsoluteAngle(n: Node, a: real): (r: real)
    ensures 0.0 <= r <= Tau
  {
    Mod2Pi(n.strtAngl + (n.clock as real) * a)
  }

  /** SpiralNode.ToAbsRemainingAngle: the absolute direction of a relative angle taken
      against the spiral's turn. */
  function ToAbsRemainingAngle(n: Node, a: real): (r: real)
    ensures 0.0 <= r <= Tau
  {
    Mod2Pi(n.strtAngl - (n.clock as real) * a)
  }

  /** Taking an angle against the turn is taking its negation with the turn. */
  lemma RemainingIsNegatedAbsolute(n: Node, a: real)
    ensures ToAbsRemainingAngle(n, a) == ToAbsoluteAngle(n, -a)
  {
    assert n.strtAngl - (n.clock as real) * a == n.strtAngl + (n.clock as real) * -a;
  }

  /** Converting a relative angle to absolute and back gives an angle congruent to it. */
  lemma FrameRoundTrip(n: Node, a: real)
    requires n.clock == 1 || n.clock == -1
    ensures Congruent(ToRelativeAngle(n, ToAbsoluteAngle(n, a)), a)
  {
    if n.clock == 1 {
      FrameRoundTripForward(n, a);
    } else {
      FrameRoundTripAgainst(n, a);
    }
  }

  lemma FrameRoundTripForward(n: Node, a: real)
    requires n.clock == 1
    ensures Congruent(ToRelativeAngle(n, ToAbsoluteAngle(n, a)), a)
  {
    var abs := ToAbsoluteAngle(n, a);
    assert abs == Mod2Pi(n.strtAngl + a);
    assert ToRelativeAngle(n, abs) == Mod2Pi(abs - n.strtAngl);
    TurnBackForward(n.strtAngl, a, abs, ToRelativeAngle(n, abs));
  }

  lemma FrameRoundTripAgainst(n: Node, a: real)
    requires n.clock == -1
    ensures Congruent(ToRelativeAngle(n, ToAbsoluteAngle(n, a)), a)
  {
    var abs := ToAbsoluteAngle(n, a);
    assert abs == Mod2Pi(n.strtAngl - a);
    assert ToRelativeAngle(n, abs) == Mod2Pi(n.strtAngl - abs);
    TurnBackAgainst(n.strtAngl, a, abs, ToRelativeAngle(n, abs));
  }

  /** Turning forward by a from s and measuring back from s gives a, up to whole turns. */
  lemma TurnBackForward(s: real, a: real, abs: real, rel: real)
    requires Congruent(abs, s + a) && Congruent(rel, abs - s)
    ensures Congruent(rel, a)
  {
    var k1 := CongruentTurns(abs, s + a);
    var k2 := CongruentTurns(rel, abs - s);
    TurnsCongruent(rel, a, k1 + k2);
  }

  /** The same for turning backward and measuring backward. */
  lemma TurnBackAgainst(s: real, a: real, abs: real, rel: real)
    requires Congruent(abs, s - a) && Congruent(rel, s - abs)
    ensures Congruent(rel, a)
  {
    var k1 := CongruentTurns(abs, s - a);
    var k2 := CongruentTurns(rel, s - abs);
    TurnsCongruent(rel, a, k2 - k1);
  }

  /** An angle already in [0, Tau) comes back unchanged from the round trip. */
  lemma FrameRoundTripExact(n: Node, a: real)
    requires n.clock == 1 || n.clock == -1
    requires 0.0 <= a < Tau
    ensures ToRelativeAngle(n, ToAbsoluteAngle(n, a)) == a || ToRelativeAngle(n, ToAbsoluteAngle(n, a)) == Tau
  {
    var rel := ToRelativeAngle(n, ToAbsoluteAngle(n, a));
    FrameRoundTrip(n, a);
    if rel != Tau {
      Mod2PiCanonical(rel, a);
    }
  }

  /** SpiralNode.LastLeafAngle: the last leaf's absolute angle, or for a leafless spiral
      the start arc taken against the turn. */
  function LastLeafAngle(c: Config, n: Node): (r: real)
    ensures |n.leafAngls| > 0 ==> r == n.leafAngls[|n.leafAngls| - 1]
    ensures |n.leafAngls| == 0 ==> 0.0 <= r <= Tau
  {
    if |n.leafAngls| > 0 then n.leafAngls[|n.leafAngls| - 1] else ToAbsRemainingAngle(n, c.startAt)
  }

  /** SpiralNode.RemainingArcAfter: the arc left between an angle and the end arc. */
  function RemainingArcAfter(c: Config, n: Node, a: real): (r: real)
    ensures r + c.endAt <= Tau
  {
    ToRelativeAngle(n, a) - c.endAt
  }

  /**
   * SpiralNode.HasRoomFor: a spiral that cannot grow has no room; a growing spiral
   * without leaves has room for anything; otherwise the arc after the last leaf must
   * cover the leaf's arc.
   */
  function HasRoomFor(c: Config, n: Node, leafArc: real): (b: bool)
    ensures !CanGrow(c, n) ==> !b
    ensures CanGrow(c, n) && LeafCount(n) == 0 ==> b
    ensures CanGrow(c, n) && LeafCount(n) > 0 ==> (b <==> leafArc <= RemainingArcAfter(c, n, n.leafAngls[LeafCount(n) - 1]))
  {
    if !CanGrow(c, n) then false
    else if LeafCount(n) == 0 then true
    else RemainingArcAfter(c, n, LastLeafAngle(c, n)) >= leafArc
  }

  /** Room for an arc is room for every smaller arc. */
  lemma HasRoomForSmaller(c: Config, n: Node, big: real, small: real)
    requires small <= big && HasRoomFor(c, n, big)
    ensures HasRoomFor(c, n, small)
  {
  }

  /** SpiralNode.DoubleTheGap: at most two sevenths of Pi remain after the last leaf. */
  predicate DoubleTheGap(c: Config, n: Node)
  {
    RemainingArcAfter(c, n, LastLeafAngle(c, n)) <= 2.0 / 7.0 * Pi
  }

  /** SpiralNode.AngleInArc: the relative angle lies strictly between the bounds. */
  predicate AngleInArc(n: Node, testAngl: real, scanFrom: real, scanTo: real)
  {
    scanFrom < ToRelativeAngle(n, testAngl) < scanTo
  }

  /** SpiralNode.AngleInSproutRange. */
  predicate AngleInSproutRange(c: Config, n: Node, testAngl: real)
  {
    AngleInArc(n, testAngl, c.sproutMaxAngle, c.sproutAngle)
  }

  /** SpiralNode.AngleInGrowthRange: after the end arc and before scanFrom. */
  predicate AngleInGrowthRange(c: Config, n: Node, scanFrom: real, testAngl: real)
  {
    c.endAt < ToRelativeAngle(n, testAngl) < ToRelativeAngle(n, scanFrom)
  }

  /** The bounds of a slot: from the previous slot's angle (the end arc for slot 0) to
      the slot's angle plus half its size, both moved by the shift factor when it is set. */
  function SlotFrom(c: Config, slot: int): (r: real)
    requires 0 <= slot < |c.slotAngles|
    ensures c.shiftFactor == 0.0 ==> r == (if slot > 0 then c.slotAngles[slot - 1] else c.endAt)
    ensures c.shiftFactor != 0.0 ==> 0.0 <= r <= Tau
  {
    var from := if slot > 0 then c.slotAngles[slot - 1] else c.endAt;
    if c.shiftFactor != 0.0 then Mod2Pi(from + c.shiftFactor) else from
  }

  function SlotTo(c: Config, slot: int): (r: real)
    requires 0 <= slot < |c.slotAngles| && slot < |c.slotSizes|
    ensures c.shiftFactor == 0.0 ==> r == c.slotAngles[slot] + 0.5 * c.slotSizes[slot]
    ensures c.shiftFactor != 0.0 ==> 0.0 <= r <= Tau
  {
    var to := c.slotAngles[slot] + 0.5 * c.slotSizes[slot];
    if c.shiftFactor != 0.0 then Mod2Pi(to + c.shiftFactor) else to
  }

  /** SpiralNode.AngleInSlotRange. */
  predicate AngleInSlotRange(c: Config, n: Node, testAngl: real, slot: int)
    requires 0 <= slot < |c.slotAngles| && slot < |c.slotSizes|
  {
    AngleInArc(n, testAngl, SlotFrom(c, slot), SlotTo(c, slot))
  }

  /**
   * SpiralNode.CorrectedSlot: the original slot when the angle lies in its range, else
   * the lowest slot whose range holds the angle, else the original slot.
   */
  function CorrectedSlot(c: Config, n: Node, atAngl: real, origSlot: int): (r: int)
    requires 0 <= origSlot < |c.slotAngles| && |c.slotAngles| <= |c.slotSizes|
    ensures 0 <= r < |c.slotAngles|
    ensures AngleInSlotRange(c, n, atAngl, origSlot) ==> r == origSlot
    ensures !AngleInSlotRange(c, n, atAngl, origSlot) ==>
              (AngleInSlotRange(c, n, atAngl, r) && forall s :: 0 <= s < r ==> !AngleInSlotRange(c, n, atAngl, s)) ||
              (r == origSlot && forall s :: 0 <= s < |c.slotAngles| ==> !AngleInSlotRange(c, n, atAngl, s))
  {
    if AngleInSlotRange(c, n, atAngl, origSlot) then origSlot
    else
      var s := FirstSlotFrom(c, n, atAngl, 0);
      if s == -1 then origSlot else s
  }

  /** The lowest slot from `from` on whose range holds the angle, or -1. */
  function FirstSlotFrom(c: Config, n: Node, atAngl: real, from: nat): (r: int)
    requires |c.slotAngles| <= |c.slotSizes|
    ensures r == -1 || (from <= r < |c.slotAngles| && AngleInSlotRange(c, n, atAngl, r))
    ensures forall s :: from <= s < |c.slotAngles| && (r == -1 || s < r) ==> !AngleInSlotRange(c, n, atAngl, s)
    decreases |c.slotAngles| - from
  {
    if from >= |c.slotAngles| then -1
    else if AngleInSlotRange(c, n, atAngl, from) then from
    else FirstSlotFrom(c, n, atAngl, from + 1)
  }

  /** The list NextSlotFromList steps through: the slots in use, or under random leaf
      numbers the slot list for maxNumLeaves leaves (every slot for 0), largest first. */
  function StepList(c: Config, maxNumLeaves: nat): seq<int>
  {
    if !c.RANDNUM then c.useSlots
    else Reverse(GetSlotList(c, if maxNumLeaves == 0 then |c.slotSizes| else maxNumLeaves))
  }

  /** A spiral's first leaf jumps straight to the largest slot in use. */
  predicate FirstLeafJump(c: Config, n: Node, currSlot: int)
    requires |c.useSlots| > 0
  {
    LeafCount(n) == 0 && !c.RANDNUM && currSlot != MaxInt(c.useSlots)
  }

  /**
   * SpiralNode.NextSlotFromList: for a first leaf the largest slot in use; slot 0 stays;
   * otherwise the first listed slot below the current one, or the next lower slot when
   * the list has none.
   */
  function NextSlotFromList(c: Config, n: Node, maxNumLeaves: nat, currSlot: int): (r: int)
    requires LeafCount(n) == 0 && !c.RANDNUM ==> |c.useSlots| > 0
    ensures LeafCount(n) == 0 && !c.RANDNUM && FirstLeafJump(c, n, currSlot) ==> r == MaxInt(c.useSlots)
    ensures !(LeafCount(n) == 0 && !c.RANDNUM && FirstLeafJump(c, n, currSlot)) ==>
              (currSlot == 0 ==> r == 0) && (currSlot != 0 ==> r < currSlot)
    ensures !(LeafCount(n) == 0 && !c.RANDNUM && FirstLeafJump(c, n, currSlot)) && currSlot != 0 ==>
              var lst := StepList(c, maxNumLeaves);
              (exists k :: 0 <= k < |lst| && lst[k] == r && forall j :: 0 <= j < k ==> lst[j] >= currSlot) ||
              (r == currSlot - 1 && forall k :: 0 <= k < |lst| ==> lst[k] >= currSlot)
  {
    if LeafCount(n) == 0 && !c.RANDNUM && FirstLeafJump(c, n, currSlot) then MaxInt(c.useSlots)
    else if currSlot == 0 then 0
    else
      var lst := StepList(c, maxNumLeaves);
      var k := FindIndex(lst, x => x < currSlot);
      if k == -1 then currSlot - 1 else lst[k]
  }

  /** When the list runs from the largest slot down, the step lands on the largest
      listed slot below the current one. */
  lemma NextSlotIsLargestBelow(c: Config, n: Node, maxNumLeaves: nat, currSlot: int, k: nat)
    requires LeafCount(n) > 0 || c.RANDNUM
    requires currSlot != 0
    requires StrictlyDescending(StepList(c, maxNumLeaves))
    requires k < |StepList(c, maxNumLeaves)| && StepList(c, maxNumLeaves)[k] < currSlot
    ensures StepList(c, maxNumLeaves)[k] <= NextSlotFromList(c, n, maxNumLeaves, currSlot) < currSlot
  {
    var lst := StepList(c, maxNumLeaves);
    var j := FindIndex(lst, x => x < currSlot);
    assert j != -1 && j <= k;
    assert NextSlotFromList(c, n, maxNumLeaves, currSlot) == lst[j];
  }

  /**
   * SpiralNode.NextLeafSlot(int, int): with slot lists in play (fewer leaves than
   * slots, or random leaf numbers) the list step; otherwise the next lower slot,
   * stopping at 0.
   */
  function NextLeafSlotAfter(c: Config, n: Node, currSlot: int, maxNumLeaves: nat): (r: int)
    requires LeafCount(n) == 0 && !c.RANDNUM ==> |c.useSlots| > 0
    ensures !(c.maxLeaves < |c.slotSizes| || c.RANDNUM) ==> r == Max(currSlot - 1, 0)
    ensures LeafCount(n) > 0 || c.RANDNUM || !(c.maxLeaves < |c.slotSizes|) ==>
              (currSlot == 0 ==> r == 0) && (currSlot > 0 ==> r < currSlot)
  {
    if c.maxLeaves < |c.slotSizes| || c.RANDNUM then NextSlotFromList(c, n, maxNumLeaves, currSlot)
    else if currSlot > 0 then currSlot - 1 else 0
  }

  /**
   * SpiralNode.NextLeafSlot(float, int): no angle gives the last slot; random leaf
   * numbers step through the list from the last slot; otherwise the slot the relative
   * angle falls in, capped by the largest slot in use when fewer leaves than slots grow.
   */
  function NextLeafSlotAt(c: Config, n: Node, atAngl: real, maxNumLeaves: nat): (r: int)
    requires !c.RANDNUM && c.maxLeaves < |c.slotSizes| ==> |c.useSlots| > 0
    requires LeafCount(n) == 0 && !c.RANDNUM ==> |c.useSlots| > 0
    ensures atAngl == NoAngle ==> r == |c.slotSizes| - 1
    ensures atAngl != NoAngle && c.RANDNUM && |c.slotSizes| > 0 ==> r < |c.slotSizes|
    ensures atAngl != NoAngle && !c.RANDNUM ==>
              var found := FindNextSlot(c.slotAngles, ToRelativeAngle(n, atAngl));
              r <= found && (r == found || (c.maxLeaves < |c.slotSizes| && r == MaxInt(c.useSlots))) &&
              (c.maxLeaves < |c.slotSizes| ==> r <= MaxInt(c.useSlots))
  {
    if atAngl == NoAngle then |c.slotSizes| - 1
    else if c.RANDNUM then NextSlotFromList(c, n, maxNumLeaves, |c.slotSizes|)
    else
      var nextSlot := FindNextSlot(c.slotAngles, ToRelativeAngle(n, atAngl));
      if c.maxLeaves < |c.slotSizes| && MaxInt(c.useSlots) < nextSlot then MaxInt(c.useSlots)
      else nextSlot
  }

  /**
   * SpiralNode.ReslotAngl: the absolute angle of a slot (the one below currSlot when
   * decrementing), moved by the shift factor; no angle below slot 0.
   */
  function ReslotAngl(c: Config, n: Node, currSlot: int, decrement: bool): (r: real)
    requires (if decrement then currSlot - 1 else currSlot) < |c.slotAngles|
    ensures r == NoAngle <==> (if decrement then currSlot - 1 else currSlot) < 0
    ensures r != NoAngle ==> 0.0 <= r <= Tau
  {
    var nextSlot := if decrement then currSlot - 1 else currSlot;
    if nextSlot < 0 then NoAngle
    else
      var slotAngl := if c.shiftFactor != 0.0 then c.slotAngles[nextSlot] + c.shiftFactor else c.slotAngles[nextSlot];
      ToAbsoluteAngle(n, slotAngl)
  }

  /** Seen from the spiral, the reslotted angle is the slot's angle (plus the shift). */
  lemma ReslotAnglRelative(c: Config, n: Node, currSlot: int, decrement: bool)
    requires n.clock == 1 || n.clock == -1
    requires 0 <= (if decrement then currSlot - 1 else currSlot) < |c.slotAngles|
    ensures Congruent(ToRelativeAngle(n, ReslotAngl(c, n, currSlot, decrement)),
                      c.slotAngles[if decrement then currSlot - 1 else currSlot] + c.shiftFactor)
  {
    var nextSlot := if decrement then currSlot - 1 else currSlot;
    FrameRoundTrip(n, c.slotAngles[nextSlot] + c.shiftFactor);
    if c.shiftFactor == 0.0 {
      assert c.slotAngles[nextSlot] + c.shiftFactor == c.slotAngles[nextSlot];
    }
  }

  /** SpiralNode.BaseAngle: for a leaf, half the parent's projection onto it taken
      against the turn; no angle for a root. */
  function BaseAngle(o: Oracle, n: Node, prntRad: real): (r: real)
    ensures IsRoot(n) <==> r == NoAngle
    ensures !IsRoot(n) ==> 0.0 <= r <= Tau
  {
    if !IsRoot(n) then ToAbsRemainingAngle(n, o.asin(Quot(prntRad, prntRad + n.rad)))
    else NoAngle
  }

  /** SpiralNode.RootBaseAngle, with the minimum root base that RootBaseArc updates for
      twin roots (minRootBase is the current value, kept for single roots). */
  function RootBaseAngle(c: Config, o: Oracle, n: Node, rootIdx: int, rootDist: real,
                         minRootBase: real): (r: (real, real))
    requires c.TWIN && c.GRAD && !c.RANDSZ ==> |c.slotRadMults| > 0
    ensures 0.0 <= r.0 <= Tau
    ensures !c.TWIN ==> r == (ToAbsRemainingAngle(n, c.startAt), minRootBase)
    ensures c.TWIN ==> r.1 == RootBaseArc(c, o, rootIdx, rootDist).1
  {
    if c.TWIN then
      var (arc, minBase) := RootBaseArc(c, o, rootIdx, rootDist);
      (ToAbsRemainingAngle(n, arc), minBase)
    else (ToAbsRemainingAngle(n, c.startAt), minRootBase)
  }

  /** SpiralNode.ObstructingSibIdx: the node after idx when both are leaves of this one. */
  function ObstructingSibIdx(n: Node, idx: int): (r: int)
    ensures r == -1 || r == idx + 1
    ensures idx in n.leafIdxs && idx + 1 in n.leafIdxs ==> r == idx + 1
    ensures !(idx in n.leafIdxs && idx + 1 in n.leafIdxs) ==> r == -1
  {
    if idx in n.leafIdxs && idx + 1 in n.leafIdxs then idx + 1 else -1
  }

  /**
   * SpiralNode.ClosestNhbrIdx: the neighbour at the first smallest surface distance,
   * or -1 when there are none.
   */
  function ClosestNhbrIdx(n: Node): (r: int)
    requires |n.nhbrIdxs| == |n.nhbrDists|
    ensures |n.nhbrDists| == 0 ==> r == -1
    ensures |n.nhbrDists| > 0 ==>
              exists k :: 0 <= k < |n.nhbrDists| && r == n.nhbrIdxs[k] && ClosestAt(n.nhbrDists, k)
  {
    if |n.nhbrDists| == 0 then -1
    else
      var m := MinOf(n.nhbrDists);
      var k := FindIndex(n.nhbrDists, x => x == m);
      n.nhbrIdxs[k]
  }

  /** Position k holds the smallest distance, and no earlier position does. */
  predicate ClosestAt(dists: seq<real>, k: nat)
    requires k < |dists|
  {
    (forall j :: 0 <= j < |dists| ==> dists[k] <= dists[j]) &&
    (forall j :: 0 <= j < k ==> dists[k] < dists[j])
  }

  /** SpiralNode.SibConflictAngle: when a sibling is close (within two and a half radii
      of this spiral plus its own radius), the direction to it turned back by its
      projection and the halo; no angle otherwise. */
  function SibConflictAngle(c: Config, o: Oracle, idxNode: Node, sib: Node): (r: real)
    ensures PointDist(o, idxNode.ctr, sib.ctr) >= 2.5 * idxNode.rad + sib.rad ==> r == NoAngle
  {
    var sibDist := PointDist(o, idxNode.ctr, sib.ctr);
    var anglToSib := AngleToPoint(o, idxNode.ctr, sib.ctr);
    if sibDist < 2.5 * idxNode.rad + sib.rad then
      var lastSibArc := c.nodeHalo + o.asin(Quot(sib.rad, sibDist));
      anglToSib - (idxNode.clock as real) * lastSibArc
    else NoAngle
  }

  /** SpiralNode.GetSurfaceDist: the gap between the outlines of two spirals along the
      line joining their centres. */
  function SurfaceDist(o: Oracle, sh: Shape, leaf: Body, other: Body): real
  {
    var anglToLeaf := AngleToPoint(o, leaf.ctr, other.ctr);
    PointDist(o, leaf.ctr, other.ctr) -
      (sh.radAtAngle(other, ComplementAngle(anglToLeaf)) + sh.radAtAngle(leaf, anglToLeaf))
  }

  /** SpiralNode.GetSkinDistToPt: the gap between a spiral's outline and a point. */
  function SkinDistToPt(o: Oracle, sh: Shape, leaf: Body, pt: Point): real
  {
    PointDist(o, leaf.ctr, pt) - sh.radAtAngle(leaf, AngleToPoint(o, leaf.ctr, pt))
  }

  /**
   * SpiralNode.MarkParent: the new leaf's index and the angle from this spiral to it
   * (the complement of the leaf's start angle) are appended together.
   */
  function MarkParent(n: Node, leaf: Node, leafIdx: int): (r: Node)
    ensures r == n.(leafIdxs := r.leafIdxs, leafAngls := r.leafAngls)
    ensures r.leafIdxs == n.leafIdxs + [leafIdx]
    ensures |r.leafAngls| == |n.leafAngls| + 1 && r.leafAngls[..|n.leafAngls|] == n.leafAngls
    ensures LeafCount(r) == LeafCount(n) + 1 && LastLeafIdx(r) == leafIdx
    ensures Lockstep(n) ==> Lockstep(r)
    ensures Congruent(r.leafAngls[|n.leafAngls|] + Pi, leaf.strtAngl)
  {
    var leafAngl := ComplementAngle(leaf.strtAngl);
    n.(leafIdxs := n.leafIdxs + [leafIdx], leafAngls := n.leafAngls + [leafAngl])
  }

  /** The recorded leaf angle points back along the leaf's start angle: complementing it
      gives the start angle again whenever that lies in [0, Tau). */
  lemma MarkParentRoundTrip(n: Node, leaf: Node, leafIdx: int)
    requires 0.0 <= leaf.strtAngl < Tau
    ensures ComplementAngle(MarkParent(n, leaf, leafIdx).leafAngls[LeafCount(n)]) == leaf.strtAngl
  {
    ComplementInvolution(leaf.strtAngl);
  }

  /**
   * SpiralNode.Recenter: a positive new radius replaces the old one and clears the
   * flags; an angle turns the spiral to face away from the parent; the centre is placed
   * in that direction at the parent's radius plus the spiral's radius and lift.
   */
  function Recenter(c: Config, o: Oracle, n: Node, prntCtr: Point, prntRad: real, newAngle: real,
                    newRad: real): (r: Node)
    ensures newRad > 0.0 ==> r.rad == newRad && !r.full && !r.blocked
    ensures newRad <= 0.0 ==> r.rad == n.rad && r.full == n.full && r.blocked == n.blocked
    ensures newAngle != NoAngle ==> r.strtAngl == ComplementAngle(newAngle) && r.endAngl == EndAngle(c, r.strtAngl, n.clock)
    ensures newAngle == NoAngle ==> r.strtAngl == n.strtAngl && r.endAngl == n.endAngl
    ensures TrigSound(o) ==> SqDist(r.ctr, prntCtr) == (prntRad + r.rad + n.lift) * (prntRad + r.rad + n.lift)
    ensures r.prntIdx == n.prntIdx && r.clock == n.clock && r.slot == n.slot && r.lift == n.lift
    ensures r.leafIdxs == n.leafIdxs && r.leafAngls == n.leafAngls && r.nhbrIdxs == n.nhbrIdxs
    ensures r.edgeDists == n.edgeDists && r.edgePoints == n.edgePoints && r.isTwin == n.isTwin
  {
    var n1 := if newRad > 0.0 then n.(rad := newRad, full := false, blocked := false) else n;
    var n2 := if newAngle != NoAngle then
                var s := ComplementAngle(newAngle);
                n1.(strtAngl := s, endAngl := EndAngle(c, s, n1.clock))
              else n1;
    n2.(ctr := Polar(o, prntCtr, newAngle, prntRad + n2.rad + n2.lift))
  }

  /**
   * SpiralNode.AdjustLeaf: the leaf moved to a new angle around its parent. With
   * graduated sizes a change of slot draws the radius of the new slot; the slot is
   * always updated, the lift recomputed, and the neighbour data dropped while the edge
   * data is copied from the parent.
   */
  function AdjustLeaf(c: Config, o: Oracle, sh: Shape, leaf: Node, prnt: Node, tryAngle: real,
                      newSlot: int, d: LeafDraw): (r: Node)
    requires c.GRAD && leaf.slot != newSlot ==> newSlot == -1 || 0 <= newSlot < |c.slotRadMults|
    ensures r.slot == newSlot && r.prntIdx == leaf.prntIdx && r.clock == leaf.clock
    ensures r.nhbrIdxs == [] && r.nhbrDists == []
    ensures r.edgeDists == prnt.edgeDists && r.edgePoints == prnt.edgePoints
    ensures !c.GRAD || leaf.slot == newSlot ==> r.rad == leaf.rad
    ensures c.GRAD && leaf.slot != newSlot && NextLeafRad(c, prnt.rad, newSlot, d) > 0.0 ==>
              r.rad == NextLeafRad(c, prnt.rad, newSlot, d)
    ensures r.leafIdxs == leaf.leafIdxs && r.leafAngls == leaf.leafAngls
    ensures tryAngle != NoAngle ==> r.strtAngl == ComplementAngle(tryAngle)
  {
    if c.GRAD then
      var updatedRad := if leaf.slot != newSlot then NextLeafRad(c, prnt.rad, newSlot, d) else leaf.rad;
      var lift := sh.nodeLift(BodyOf(prnt), updatedRad, tryAngle);
      var moved := Recenter(c, o, leaf.(slot := newSlot, lift := lift), prnt.ctr, prnt.rad, tryAngle, updatedRad);
      moved.(nhbrIdxs := [], nhbrDists := [], edgeDists := prnt.edgeDists, edgePoints := prnt.edgePoints)
    else
      var lift := sh.nodeLift(BodyOf(prnt), leaf.rad, tryAngle);
      var moved := Recenter(c, o, leaf.(slot := newSlot, lift := lift), prnt.ctr, prnt.rad, tryAngle, 0.0);
      moved.(nhbrIdxs := [], nhbrDists := [], edgeDists := prnt.edgeDists, edgePoints := prnt.edgePoints)
  }

  /**
   * SpiralNode.NextLeafAngle: the absolute angle of the next leaf, one leaf arc past the
   * base angle against the spiral's turn. When slot bases are in use and the base lies
   * outside the slot's range, the slot's own angle replaces it if that falls between
   * the end arc and a bound (no angle at all when a shift factor is set and it does
   * not). The arc is widened by two halos for tight large-to-small gaps and by one for
   * a leaf's first leaf, and narrowed to nine tenths for a root's first leaf when
   * CanDecreaseLeafArc allows.
   */
  function NextLeafAngle(c: Config, n: Node, leafArc: real, baseAngl: real, inSlot: int,
                         minRootBase: real): (r: real)
    requires (c.maxLeaves < |c.slotSizes| || c.RANDNUM || c.shiftFactor != 0.0) ==>
               Max(inSlot, 0) < |c.slotAngles| && |c.slotAngles| <= |c.slotSizes|
    requires CanDecreaseDefined(c, n.isTwin)
    ensures r == NoAngle ==> c.shiftFactor != 0.0
    ensures r != NoAngle ==> 0.0 <= r <= Tau
    ensures !(c.maxLeaves < |c.slotSizes| || c.RANDNUM) && c.shiftFactor == 0.0 ==>
              r == Mod2Pi(baseAngl - (n.clock as real) * LeafArcFor(c, n, leafArc))
  {
    var slot := Max(inSlot, 0);
    var useSlotBase := c.maxLeaves < |c.slotSizes| || c.RANDNUM;
    var base :=
      if (useSlotBase || c.shiftFactor != 0.0) && !AngleInSlotRange(c, n, Mod2Pi(baseAngl), slot) then
        SlotBase(c, n, leafArc, baseAngl, slot, minRootBase)
      else Ok(baseAngl);
    match base
    case Fail(_) => NoAngle
    case Ok(b) => Mod2Pi(b - (n.clock as real) * LeafArcFor(c, n, leafArc))
  }

  /** The slot's angle as a new base when it lies between the end arc and the bound
      (the base plus the larger of 0.15 and the leaf arc, at most a turn less the minimum
      root base; the full bound for a leafless root under a shift factor). Outside that
      range the base stays when there is no shift factor, and there is no angle when
      there is one. */
  function SlotBase(c: Config, n: Node, leafArc: real, baseAngl: real, slot: nat,
                    minRootBase: real): (r: Result<real>)
    requires slot < |c.slotAngles|
    ensures r.Fail? ==> c.shiftFactor != 0.0
    ensures c.shiftFactor == 0.0 ==> r.Ok? && (r.value == baseAngl || r.value == ToAbsoluteAngle(n, c.slotAngles[slot]))
  {
    var maxEndRange := Tau - minRootBase;
    var endRange := MinR(ToRelativeAngle(n, baseAngl) + MaxR(0.15, leafArc), maxEndRange);
    var slotBase := if c.shiftFactor != 0.0 then Mod2Pi(c.slotAngles[slot] + c.shiftFactor) else c.slotAngles[slot];
    var endRange' := if c.shiftFactor != 0.0 && IsRoot(n) && !HasLeaves(n) then maxEndRange else endRange;
    if c.endAt < slotBase < endRange' then Ok(ToAbsoluteAngle(n, slotBase))
    else if c.shiftFactor != 0.0 then Fail("slot angle out of range")
    else Ok(baseAngl)
  }

  /** The leaf arc NextLeafAngle turns by: two halos wider for a tight large-to-small gap,
      then a halo wider for a leaf's first leaf or nine tenths for a root's first leaf
      when the arc may shrink. */
  function LeafArcFor(c: Config, n: Node, leafArc: real): (r: real)
    requires CanDecreaseDefined(c, n.isTwin)
    ensures LeafCount(n) > 0 && !(c.GRAD && !c.SMTOLG) ==> r == leafArc
    ensures LeafCount(n) == 0 && !IsRoot(n) && !(c.GRAD && !c.SMTOLG) ==> r == leafArc + c.nodeHalo
    ensures LeafCount(n) == 0 && IsRoot(n) && CanDecreaseLeafArc(c, n.isTwin) ==> r == 0.9 * leafArc
  {
    var arc := if c.GRAD && !c.SMTOLG && DoubleTheGap(c, n) then 2.0 * c.nodeHalo + leafArc else leafArc;
    if LeafCount(n) == 0 then
      if !IsRoot(n) then c.nodeHalo + arc
      else if CanDecreaseLeafArc(c, n.isTwin) then 0.9 * arc
      else arc
    else arc
  }
}
