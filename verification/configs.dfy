/**
 * The generator's configuration (Configs.cs): the option flags and sizes the interface
 * sets, and the slot tables InitSegments derives from them. The source keeps these in
 * mutable static fields; here they are one immutable Config value, and every helper
 * that read a static field takes the Config as a parameter.
 */
module Configs {
  import opened Angles
  import opened Plane
  import opened Seqs

  datatype Config = Config(
    maxNodes: int,
    twinRatio: real,
    scale: real,
    minRadius: real,
    initRadius: real,
    nodeBuffer: real,
    rootBuffer: real,
    nodeHalo: real,
    maxLeaves: int,
    startAt: real,
    endAt: real,
    rootAngle: real,
    availSlotSpaces: int,
    sproutAngle: real,
    sproutMaxAngle: real,
    sproutAdjustment: real,
    spreadFactor: real,
    shiftFactor: real,
    LGMAX: bool,
    DIVOPTION: int,
    TWIN: bool,
    RANDTWIN: bool,
    RANDANG: bool,
    RANDLRG: bool,
    RANDSZ: bool,
    RANDNUM: bool,
    GRAD: bool,
    SMTOLG: bool,
    GROWTINY: bool,
    useSlots: seq<int>,
    slotSizes: seq<real>,
    slotAngles: seq<real>,
    slotRadMults: seq<real>)

  /** The fixed constants of the class. */
  const RootLift: real := 12.0
  const ChildProportion: real := 0.75
  const UnscaledMinRadius: real := 20.0
  const UnscaledInitRadius: real := 50.0
  const UnscaledNodeBuffer: real := 5.0
  const UnscaledRootBuffer: real := 12.0
  const UpperLim: int := 100
  const LowerLim: int := 20

  /** C# integer division: the quotient is truncated toward zero. */
  function CsDiv(a: int, b: int): (q: int)
    requires b > 0
    ensures 0 <= a ==> q * b <= a < q * b + b
    ensures a < 0 ==> q * b - b < a <= q * b
  {
    if a >= 0 then a / b else -((-a) / b)
  }

  /** Configs.BigEnoughToGrow. The bound is written 2 / 5 * minRadius, and 2 / 5 is an
      integer division, so the bound is zero. */
  function BigEnoughToGrow(c: Config, rad: real): (b: bool)
    ensures b <==> rad >= 0.0 || (c.GRAD && c.SMTOLG)
  {
    rad >= (CsDiv(2, 5) as real) * c.minRadius || (c.GRAD && c.SMTOLG)
  }

  /** Configs.RadTooSmall: at most a third of the minimum radius. */
  function RadTooSmall(c: Config, rad: real): (b: bool)
    ensures b <==> 3.0 * rad <= c.minRadius
  {
    rad <= c.minRadius / 3.0
  }

  /** Configs.CanDecreaseLeafArc: only for graduated small-to-large sizes without random
      sizes, a non-twin root or equal twins, and a smallest multiplier below 0.3. */
  function CanDecreaseLeafArc(c: Config, isTwin: bool): (b: bool)
    requires CanDecreaseDefined(c, isTwin)
    ensures b ==> c.GRAD && c.SMTOLG && !c.RANDSZ
    ensures b ==> exists i :: 0 <= i < |c.slotRadMults| && c.slotRadMults[i] < 0.3
    ensures b ==> !isTwin || c.twinRatio == 1.0
    ensures (c.GRAD && c.SMTOLG && !c.RANDSZ && (!isTwin || c.twinRatio == 1.0) &&
             exists i :: 0 <= i < |c.slotRadMults| && c.slotRadMults[i] < 0.3) ==> b
  {
    (!isTwin || c.twinRatio == 1.0) && !c.RANDSZ && c.GRAD && c.SMTOLG && MinOf(c.slotRadMults) < 0.3
  }

  /** CanDecreaseLeafArc reaches the smallest multiplier only when there is one. */
  predicate CanDecreaseDefined(c: Config, isTwin: bool)
  {
    (!isTwin || c.twinRatio == 1.0) && !c.RANDSZ && c.GRAD && c.SMTOLG ==> |c.slotRadMults| > 0
  }

  /** The three slot tables describe the same slots, and the slots in use are among them. */
  predicate Tables(c: Config)
  {
    |c.slotAngles| == |c.slotSizes| == |c.slotRadMults| &&
    forall k :: 0 <= k < |c.useSlots| ==> 0 <= c.useSlots[k] < |c.slotSizes|
  }

  /** The number of fractions CreateFractions produces: one more under division option 1. */
  function FractionCount(c: Config): int
  {
    if c.DIVOPTION == 1 then c.availSlotSpaces + 1 else c.availSlotSpaces
  }

  /**
   * Configs.CreateFractions: (nums[i] - numAdd) / denoms[i] for the first FractionCount
   * positions, with numAdd dropped when it reaches the smallest numerator. Lists of
   * different lengths or shorter than two give no fractions; a count beyond the lists
   * is the index error the source would throw.
   */
  function CreateFractions(c: Config, nums: seq<real>, denoms: seq<int>, numAdd: real): (r: Result<seq<real>>)
    ensures |nums| != |denoms| || |nums| < 2 ==> r == Ok([])
    ensures |nums| == |denoms| && |nums| >= 2 && FractionCount(c) > |nums| ==> r.Fail?
    ensures r.Ok? && |nums| == |denoms| && |nums| >= 2 ==>
              |r.value| == Max(FractionCount(c), 0) &&
              RecoversNumerators(r.value, nums, denoms, EffectiveAdd(nums, numAdd))
  {
    if |nums| != |denoms| || |nums| < 2 then Ok([])
    else if FractionCount(c) > |nums| then Fail("index out of range")
    else Ok(Fractions(nums, denoms, EffectiveAdd(nums, numAdd), Max(FractionCount(c), 0)))
  }

  /** Each fraction times its (non-zero) denominator gives back its numerator less add. */
  predicate RecoversNumerators(fracts: seq<real>, nums: seq<real>, denoms: seq<int>, add: real)
    requires |fracts| <= |nums| && |fracts| <= |denoms|
  {
    forall i :: 0 <= i < |fracts| && denoms[i] != 0 ==> fracts[i] * (denoms[i] as real) == nums[i] - add
  }

  /** The first n quotients (nums[i] - add) / denoms[i]. */
  function Fractions(nums: seq<real>, denoms: seq<int>, add: real, n: nat): (r: seq<real>)
    requires n <= |nums| && n <= |denoms|
    ensures |r| == n
    ensures RecoversNumerators(r, nums, denoms, add)
  {
    seq(n, i requires 0 <= i < n => Quot(nums[i] - add, denoms[i] as real))
  }

  /** The amount CreateFractions subtracts: numAdd, or 0 when it reaches the smallest numerator. */
  function EffectiveAdd(nums: seq<real>, numAdd: real): (a: real)
    requires |nums| > 0
    ensures a == 0.0 || (a == numAdd && forall i :: 0 <= i < |nums| ==> a < nums[i])
    ensures numAdd == 0.0 ==> a == 0.0
    ensures (forall i :: 0 <= i < |nums| ==> numAdd < nums[i]) ==> a == numAdd
    ensures (exists i :: 0 <= i < |nums| && numAdd >= nums[i]) ==> a == 0.0
  {
    if numAdd >= MinOf(nums) then 0.0 else numAdd
  }

  /** n values starting at start, each step larger than the one before. */
  function Progression(n: nat, start: real, step: real): (r: seq<real>)
    ensures |r| == n
    ensures n > 0 ==> r[0] == start
    ensures forall i :: 0 <= i < n - 1 ==> r[i + 1] == r[i] + step
  {
    if n == 0 then [] else [start] + Progression(n - 1, start + step, step)
  }

  /** With a positive step the progression strictly increases. */
  lemma {:induction false} ProgressionIncreasing(n: nat, start: real, step: real)
    requires step > 0.0
    ensures forall i, j :: 0 <= i < j < n ==> Progression(n, start, step)[i] < Progression(n, start, step)[j]
  {
    if n > 0 {
      var r := Progression(n, start, step);
      ProgressionIncreasing(n - 1, start + step, step);
      assert r[1..] == Progression(n - 1, start + step, step);
      forall i, j | 0 <= i < j < n
        ensures r[i] < r[j]
      {
        if i > 0 {
          assert r[i] == r[1..][i - 1] && r[j] == r[1..][j - 1];
        } else {
          ProgressionAbove(n - 1, start + step, step, j - 1);
        }
      }
    }
  }

  lemma {:induction false} ProgressionAbove(n: nat, start: real, step: real, k: nat)
    requires step > 0.0 && k < n
    ensures Progression(n, start, step)[k] >= start
  {
    if k > 0 {
      ProgressionAbove(n - 1, start + step, step, k - 1);
      assert Progression(n, start, step)[k] == Progression(n - 1, start + step, step)[k - 1];
    }
  }

  /**
   * Configs.ModeratedFractions: availSlotSpaces fractions growing by a fixed step, the
   * first one the share of a turn less one and a half end arcs, the step one percent
   * of the distance between the growth limits, shared by the slots.
   */
  function ModeratedFractions(c: Config): (r: seq<real>)
    requires c.availSlotSpaces > 0
    ensures |r| == c.availSlotSpaces
    ensures r[0] * (c.availSlotSpaces as real) == Tau - 1.5 * c.endAt
    ensures forall i :: 0 <= i < |r| - 1 ==> (r[i + 1] - r[i]) * (c.availSlotSpaces as real) == 0.8
  {
    var n := c.availSlotSpaces as real;
    var growth := 0.01 * (AbsR((UpperLim - LowerLim) as real)) / n;
    Progression(c.availSlotSpaces, (Tau - 1.5 * c.endAt) / n, growth)
  }

  /** The moderated fractions strictly increase. */
  lemma ModeratedIncreasing(c: Config)
    requires c.availSlotSpaces > 0
    ensures StrictlyIncreasingReals(ModeratedFractions(c))
  {
    var n := c.availSlotSpaces as real;
    ProgressionIncreasing(c.availSlotSpaces, (Tau - 1.5 * c.endAt) / n, 0.8 / n);
  }

  predicate StrictlyIncreasingReals(s: seq<real>)
  {
    forall i, j :: 0 <= i < j < |s| ==> s[i] < s[j]
  }

  /** The arc ProportionFractions shares out: a turn less the end arc and a sixth of Pi,
      tuned per division option and size order, plus the spread factor. */
  function DesiredTotal(c: Config): real
  {
    var base := Tau - c.endAt - Pi / 6.0;
    var tuned :=
      if c.SMTOLG then
        if c.DIVOPTION == 1 then base - 0.15
        else if c.DIVOPTION == 2 then base - 0.25
        else if c.DIVOPTION == 3 && !c.LGMAX then base - 0.35
        else if c.DIVOPTION == 4 then (if !c.LGMAX then base - 0.2 else base - 0.1)
        else if c.DIVOPTION == 5 then base - 0.075
        else base
      else
        if c.DIVOPTION == 1 then (if !c.LGMAX then base + 0.1 else base + 0.225)
        else if c.DIVOPTION == 2 then (if !c.LGMAX then base + 0.03 else base - 0.17)
        else if c.DIVOPTION == 3 then (if !c.LGMAX then base - 0.23 else base - 0.17)
        else if c.DIVOPTION >= 4 then base - 0.125
        else base;
    tuned + c.spreadFactor
  }

  /** The halo gaps ProportionFractions leaves between n slots: one per slot, two under LGMAX. */
  function HaloTotal(c: Config, n: nat): real
  {
    (n as real) * (if c.LGMAX then 2.0 else 1.0) * c.nodeHalo
  }

  /**
   * Configs.ProportionFractions: every fraction multiplied by one common factor chosen
   * so that the fractions add up to the desired total less the halo gaps. A zero total
   * makes the float factor infinite; the model's factor is then 0.
   */
  function ProportionFractions(c: Config, fracts: seq<real>): (r: seq<real>)
    ensures |r| == |fracts|
    ensures Sum(fracts) != 0.0 ==> Sum(r) == DesiredTotal(c) - HaloTotal(c, |fracts|)
    ensures exists k :: r == Scale(fracts, k)
  {
    var frTotl := Sum(fracts);
    var adjustment := Quot(DesiredTotal(c) - HaloTotal(c, |fracts|), frTotl);
    SumScale(fracts, adjustment);
    Scale(fracts, adjustment)
  }

  /** The three slot tables: radius multipliers, slot sizes and slot angles. */
  datatype Split = Split(radMults: seq<real>, sizes: seq<real>, angles: seq<real>)

  /** The radius multiplier of a slot of arc a: a leaf of that arc touching its parent
      has radius sin(a/2) / (1 - sin(a/2)) times the parent's. */
  function RadMultOf(o: Oracle, a: real): real
  {
    Quot(o.sin(a / 2.0), 1.0 - o.sin(a / 2.0))
  }

  /** A list in the order UnevenSplit lays it out: ascending, or descending for
      small-to-large growth. */
  function Ordered(p: seq<real>, smToLg: bool): (r: seq<real>)
    ensures |r| == |p| && multiset(r) == multiset(p)
    ensures Sum(r) == Sum(p)
    ensures smToLg ==> SortedDesc(r)
    ensures !smToLg ==> SortedAsc(r)
  {
    var sorted := SortAsc(p);
    SumSortAsc(p);
    if smToLg then
      SumReverse(sorted);
      ReverseSortedAsc(sorted);
      ReverseMultiset(sorted);
      Reverse(sorted)
    else sorted
  }

  /** The proportioned fractions in the order UnevenSplit lays them out. */
  function OrderedFractions(c: Config, fracts: seq<real>): seq<real>
  {
    Ordered(ProportionFractions(c, fracts), c.SMTOLG)
  }

  /** The slot sizes UnevenSplit derives: each ordered fraction widened by the halo. The
      source sorts the widened list once more, which leaves it as it is. */
  function SpreadSizes(p: seq<real>, halo: real, smToLg: bool): (r: seq<real>)
    ensures |r| == |p|
    ensures forall i :: 0 <= i < |p| ==> r[i] == Ordered(p, smToLg)[i] + halo
  {
    var adj := SortAsc(p);
    ShiftSorted(adj, halo);
    SortOfSorted(Shift(adj, halo));
    var spread := SortAsc(Shift(adj, halo));
    if smToLg then Reverse(spread) else spread
  }

  /** The radius multiplier of every slot arc of a list. */
  function RadMults(o: Oracle, arcs: seq<real>): (r: seq<real>)
    ensures |r| == |arcs| && forall i :: 0 <= i < |arcs| ==> r[i] == RadMultOf(o, arcs[i])
  {
    seq(|arcs|, i requires 0 <= i < |arcs| => RadMultOf(o, arcs[i]))
  }

  /**
   * Configs.UnevenSplit: fewer than two fractions give three empty tables. Otherwise
   * the proportioned fractions are sorted; each gets a radius multiplier and a slot
   * size of the fraction plus the halo, and the slot angles are the running totals of
   * the fractions, so the last angle is the whole proportioned arc.
   */
  function UnevenSplit(c: Config, o: Oracle, fracts: seq<real>): (r: Split)
    ensures |fracts| < 2 ==> r == Split([], [], [])
    ensures |fracts| >= 2 ==>
              |r.radMults| == |fracts| && |r.sizes| == |fracts| && |r.angles| == |fracts|
    ensures |fracts| >= 2 ==> forall i :: 0 <= i < |fracts| ==>
              r.sizes[i] == OrderedFractions(c, fracts)[i] + c.nodeHalo &&
              r.angles[i] == Sum(OrderedFractions(c, fracts)[..i + 1])
    ensures |fracts| >= 2 ==> r.angles[|fracts| - 1] == Sum(ProportionFractions(c, fracts))
  {
    if |fracts| < 2 then Split([], [], [])
    else
      var p := ProportionFractions(c, fracts);
      var adj := Ordered(p, c.SMTOLG);
      assert OrderedFractions(c, fracts) == adj;
      var angles := RunningSums(adj, 0.0);
      assert adj[..|adj|] == adj;
      assert angles[|fracts| - 1] == Sum(p);
      Split(RadMults(o, SortAsc(p)), SpreadSizes(p, c.nodeHalo, c.SMTOLG), angles)
  }

  /** The last slot angle of UnevenSplit is the desired total less the halo gaps. */
  lemma UnevenSplitTotal(c: Config, o: Oracle, fracts: seq<real>)
    requires |fracts| >= 2 && Sum(fracts) != 0.0
    ensures UnevenSplit(c, o, fracts).angles[|fracts| - 1] == DesiredTotal(c) - HaloTotal(c, |fracts|)
  {
    assert UnevenSplit(c, o, fracts).angles[|fracts| - 1] == Sum(ProportionFractions(c, fracts));
  }

  /**
   * Configs.EvenSplit, for uniform sizes: one radius multiplier per slot gap and the
   * experimentally fixed slot sizes and angles (four slots under LGMAX, five otherwise),
   * all stretched by one factor when a spread factor is set so that the angles gain
   * exactly the spread factor in total.
   */
  function EvenSplit(c: Config, o: Oracle): (r: Split)
    ensures |r.radMults| == Max(c.availSlotSpaces - 1, 0)
    ensures |r.sizes| == |r.angles| == (if c.LGMAX then 4 else 5)
    ensures c.spreadFactor == 0.0 ==>
              r.angles == (if c.LGMAX then LargerMaxAngles else DefaultAngles)
    ensures c.spreadFactor != 0.0 ==>
              Sum(r.angles) == Sum(if c.LGMAX then LargerMaxAngles else DefaultAngles) + c.spreadFactor
  {
    var baseFract := Quot(Tau - c.endAt - Pi / 8.0 - c.nodeHalo + c.spreadFactor, c.availSlotSpaces as real);
    var radMults := Repeat(RadMultOf(o, baseFract), Max(c.availSlotSpaces - 1, 0));
    var sizes := if c.LGMAX then Repeat(1.071, 4) else Repeat(0.897, 5);
    var angles := if c.LGMAX then LargerMaxAngles else DefaultAngles;
    if c.spreadFactor != 0.0 then
      var sltTotl := Sum(angles);
      var adjustment := (sltTotl + c.spreadFactor) / sltTotl;
      SumScale(angles, adjustment);
      Split(radMults, Scale(sizes, adjustment), Scale(angles, adjustment))
    else
      Split(radMults, sizes, angles)
  }

  const DefaultAngles: seq<real> := [1.153, 2.051, 2.948, 3.846, 4.744]
  const LargerMaxAngles: seq<real> := [1.262, 2.333, 3.404, 4.475]

  /**
   * Configs.FindNextSlot: the highest slot, searching down to slot 1, whose angle the
   * test angle exceeds; slot 0 when there is none.
   */
  function FindNextSlot(slotAngles: seq<real>, tstAngl: real): (r: int)
    ensures 0 <= r && (r == 0 || r < |slotAngles|)
    ensures r > 0 ==> tstAngl > slotAngles[r]
    ensures forall j :: Max(r, 0) < j < |slotAngles| ==> !(tstAngl > slotAngles[j])
    ensures r == 0 ==> forall j :: 1 <= j < |slotAngles| ==> !(tstAngl > slotAngles[j])
    decreases |slotAngles|
  {
    if |slotAngles| <= 1 then 0
    else if tstAngl > slotAngles[|slotAngles| - 1] then |slotAngles| - 1
    else FindNextSlot(slotAngles[..|slotAngles| - 1], tstAngl)
  }

  /** The slot count GetSlotList centres its window in, for graduated sizes. */
  function WindowSlots(c: Config): int
  {
    var n := |c.slotSizes| + (if c.LGMAX then 1 else 0) + (if !c.SMTOLG then 1 else 0);
    if c.DIVOPTION == 1 then (if !c.SMTOLG then n + 1 else n - 1) else n
  }

  /**
   * Configs.GetSlotList: the slots to use when only take leaves grow. Two leaves get a
   * fixed pair; uniform sizes use slots 1 to take; graduated sizes use take consecutive
   * slots centred in the window (truncating the halved difference, as C# does).
   */
  function GetSlotList(c: Config, take: nat): (r: seq<int>)
    ensures |r| == take
    ensures StrictlyAscending(r)
    ensures take != 2 && !c.GRAD ==> r == Range(1, take)
    ensures take != 2 && c.GRAD ==> r == Range(CsDiv(WindowSlots(c) - take, 2), take)
  {
    if take == 2 then
      if !c.GRAD then (if c.LGMAX then [2, 3] else [2, 4])
      else if c.LGMAX then (if c.SMTOLG then [1, 2] else [2, 3])
      else if c.SMTOLG then [1, 3]
      else if c.DIVOPTION == 1 then [3, 5] else [2, 4]
    else if !c.GRAD then Range(1, take)
    else Range(CsDiv(WindowSlots(c) - take, 2), take)
  }

  /** The number of slots InitSegments produces: the uniform tables have four or five,
      the graduated ones one per fraction. */
  function SlotCount(c: Config): int
  {
    if !c.GRAD && !c.RANDSZ then (if c.LGMAX then 4 else 5) else FractionCount(c)
  }

  /** The options the interface can produce: no LGMAX (the interface never sets it),
      division options 1 to 5, and between 2 and 7 leaves. */
  predicate InterfaceOptions(c: Config)
  {
    !c.LGMAX && c.availSlotSpaces == 6 && 1 <= c.DIVOPTION <= 5 && 2 <= c.maxLeaves <= 7
  }

  /** For every configuration the interface can produce, a slot list requested for fewer
      leaves than there are slots names slots that exist. */
  lemma SlotListInRange(c: Config, take: nat)
    requires InterfaceOptions(c) && |c.slotSizes| == SlotCount(c)
    requires 2 <= take < |c.slotSizes|
    ensures forall k :: 0 <= k < take ==> 0 <= GetSlotList(c, take)[k] < |c.slotSizes|
  {
    if take != 2 && c.GRAD {
      var w := WindowSlots(c);
      assert 0 <= w - take;
      assert CsDiv(w - take, 2) + take <= |c.slotSizes|;
    }
  }

  /** Under LGMAX, which the interface never sets, graduated large-to-small sizes with
      division option 1 and five leaves name slot 6 of a six-slot table. */
  lemma SlotListLargerMax(c: Config)
    requires c.LGMAX && c.GRAD && !c.SMTOLG && c.DIVOPTION == 1 && |c.slotSizes| == 6
    ensures GetSlotList(c, 5)[4] == 6
  {
    assert WindowSlots(c) == 9;
  }

  /**
   * Configs.AdjustSlotAngles: for graduated sizes every slot angle is moved by one
   * amount, so that the largest ends one and a half leaf arcs short of a full turn (the
   * smallest leaf's arc for small-to-large or single roots, else the smallest slot size).
   * The largest or smallest of an empty table is the error the source would throw.
   */
  function AdjustSlotAngles(c: Config, o: Oracle): (r: Result<seq<real>>)
    ensures !c.GRAD ==> r == Ok(c.slotAngles)
    ensures c.GRAD && (|c.slotAngles| == 0 || !GapDefined(c)) ==> r.Fail?
    ensures r.Ok? ==> |r.value| == |c.slotAngles|
    ensures r.Ok? ==> forall i :: 0 <= i < |c.slotAngles| ==> r.value[i] - c.slotAngles[i] == r.value[0] - c.slotAngles[0]
    ensures r.Ok? && c.GRAD ==> MaxOf(r.value) == Tau - 1.5 * EndGap(c, o)
  {
    if !c.GRAD then Ok(c.slotAngles)
    else if |c.slotAngles| == 0 || !GapDefined(c) then Fail("empty slot table")
    else
      var adjstr := Tau - MaxOf(c.slotAngles) - 1.5 * EndGap(c, o);
      MaxOfShift(c.slotAngles, adjstr);
      Ok(Shift(c.slotAngles, adjstr))
  }

  /** The arc AdjustSlotAngles keeps free after the largest slot angle, in units of 1.5. */
  function EndGap(c: Config, o: Oracle): real
    requires GapDefined(c)
  {
    if c.SMTOLG || !c.TWIN then
      var m := MinOf(c.slotRadMults);
      0.1 + o.asin(Quot(m, 1.0 + m))
    else MinOf(c.slotSizes)
  }

  /** The table EndGap takes its minimum of is not empty. */
  predicate GapDefined(c: Config)
  {
    if c.SMTOLG || !c.TWIN then |c.slotRadMults| > 0 else |c.slotSizes| > 0
  }

  const TriangleNums: seq<int> := [10, 15, 21, 28, 36, 45, 55, 66]
  const FibNums: seq<int> := [5, 8, 13, 21, 34, 55, 89, 144]
  const FibNums2: seq<int> := [13, 21, 34, 55, 89, 144, 233, 377]

  /** The fraction list of InitSegments for each division option (none for other values). */
  function SlotFractions(c: Config): (r: Result<seq<real>>)
    requires c.availSlotSpaces > 0
    ensures 1 <= c.DIVOPTION <= 5 && 2 <= FractionCount(c) <= 8 ==> r.Ok? && |r.value| == FractionCount(c)
  {
    if c.DIVOPTION == 1 then CreateFractions(c, AsReals(Range(5, 8)), TriangleNums, 0.0)
    else if c.DIVOPTION == 2 then Ok(ModeratedFractions(c))
    else if c.DIVOPTION == 3 then CreateFractions(c, AsReals(Range(1, 8)), FibNums, 0.0)
    else if c.DIVOPTION == 4 then CreateFractions(c, Repeat(1.0, 8), Range(4, 8), 0.0)
    else if c.DIVOPTION == 5 then
      match CreateFractions(c, AsReals(FibNums), Range(3, 8), 0.0)
      case Fail(e) => Fail(e)
      case Ok(inverses) =>
        CreateFractions(c, inverses, FibNums2[..if |inverses| < 8 then |inverses| else 8], 0.0)
    else Ok([])
  }

  /**
   * Configs.InitSegments: the slot tables from the division option (uniform tables when
   * neither graduated nor random sizes are chosen), each sorted, the angles adjusted,
   * the multipliers and sizes turned to descending order for small-to-large growth, and
   * the slots in use listed from the largest down.
   */
  function InitSegments(c: Config, o: Oracle): (r: Result<Config>)
    requires c.availSlotSpaces > 0 && c.maxLeaves >= 0
    ensures r.Ok? ==> r.value == c.(useSlots := r.value.useSlots, slotSizes := r.value.slotSizes,
                                     slotAngles := r.value.slotAngles, slotRadMults := r.value.slotRadMults)
    ensures r.Ok? ==> StrictlyDescending(r.value.useSlots)
    ensures r.Ok? ==> SortedAsc(r.value.slotAngles)
    ensures r.Ok? && c.GRAD && c.SMTOLG ==> SortedDesc(r.value.slotSizes) && SortedDesc(r.value.slotRadMults)
    ensures r.Ok? && !(c.GRAD && c.SMTOLG) ==> SortedAsc(r.value.slotSizes) && SortedAsc(r.value.slotRadMults)
    ensures r.Ok? && c.maxLeaves >= |r.value.slotSizes| ==> r.value.useSlots == Reverse(Range(0, |r.value.slotSizes|))
    ensures r.Ok? && c.maxLeaves < |r.value.slotSizes| ==> r.value.useSlots == Reverse(GetSlotList(r.value, c.maxLeaves))
  {
    match RawSplit(c, o)
    case Fail(e) => Fail(e)
    case Ok(s) => ArrangeTables(c, o, s)
  }

  /** The unsorted tables of InitSegments: uniform ones when neither graduated nor random
      sizes are chosen, else those of the division option's fractions. */
  function RawSplit(c: Config, o: Oracle): Result<Split>
    requires c.availSlotSpaces > 0
  {
    if !c.GRAD && !c.RANDSZ then Ok(EvenSplit(c, o))
    else match SlotFractions(c)
         case Fail(e) => Fail(e)
         case Ok(fracts) => Ok(UnevenSplit(c, o, fracts))
  }

  /** The second half of InitSegments: the tables sorted, the angles adjusted, the order of
      multipliers and sizes turned for small-to-large growth and the slots in use listed. */
  function ArrangeTables(c: Config, o: Oracle, s: Split): (r: Result<Config>)
    requires c.maxLeaves >= 0
    ensures r.Ok? ==> r.value == c.(useSlots := r.value.useSlots, slotSizes := r.value.slotSizes,
                                     slotAngles := r.value.slotAngles, slotRadMults := r.value.slotRadMults)
    ensures r.Ok? ==> StrictlyDescending(r.value.useSlots)
    ensures r.Ok? ==> SortedAsc(r.value.slotAngles)
    ensures r.Ok? && c.GRAD && c.SMTOLG ==> SortedDesc(r.value.slotSizes) && SortedDesc(r.value.slotRadMults)
    ensures r.Ok? && !(c.GRAD && c.SMTOLG) ==> SortedAsc(r.value.slotSizes) && SortedAsc(r.value.slotRadMults)
    ensures r.Ok? && c.maxLeaves >= |r.value.slotSizes| ==> r.value.useSlots == Reverse(Range(0, |r.value.slotSizes|))
    ensures r.Ok? && c.maxLeaves < |r.value.slotSizes| ==> r.value.useSlots == Reverse(GetSlotList(r.value, c.maxLeaves))
  {
    var sorted := c.(slotRadMults := SortAsc(s.radMults), slotSizes := SortAsc(s.sizes), slotAngles := SortAsc(s.angles));
    match AdjustSlotAngles(sorted, o)
    case Fail(e) => Fail(e)
    case Ok(adjusted) =>
      AdjustKeepsOrder(sorted, o);
      var flip := c.GRAD && c.SMTOLG;
      var radMults := Flipped(sorted.slotRadMults, flip);
      var sizes := Flipped(sorted.slotSizes, flip);
      Ok(Arranged(c, radMults, sizes, adjusted))
  }

  /** An ascending list, reversed when flip is set. */
  function Flipped(s: seq<real>, flip: bool): (r: seq<real>)
    requires SortedAsc(s)
    ensures |r| == |s|
    ensures flip ==> SortedDesc(r)
    ensures !flip ==> SortedAsc(r)
  {
    ReverseSortedAsc(s);
    if flip then Reverse(s) else s
  }

  /** The slots in use for the finished tables of t, largest first: the slot list for the
      leaf count when there are fewer leaves than slots, else every slot. The slot list is
      taken once the new sizes are in place, so its window counts the new slots. */
  function UseSlots(t: Config): (r: seq<int>)
    requires t.maxLeaves >= 0
    ensures StrictlyDescending(r)
    ensures t.maxLeaves >= |t.slotSizes| ==> r == Reverse(Range(0, |t.slotSizes|))
    ensures t.maxLeaves < |t.slotSizes| ==> r == Reverse(GetSlotList(t, t.maxLeaves))
  {
    var n := |t.slotSizes|;
    var inUse := if t.maxLeaves < n then GetSlotList(t, t.maxLeaves) else Range(0, n);
    ReverseStrictlyAscending(inUse);
    Reverse(inUse)
  }

  /** c with the finished tables and the slots in use that follow from them. */
  function Arranged(c: Config, radMults: seq<real>, sizes: seq<real>, angles: seq<real>): (r: Config)
    requires c.maxLeaves >= 0
    ensures r == c.(useSlots := r.useSlots, slotSizes := sizes, slotAngles := angles, slotRadMults := radMults)
    ensures StrictlyDescending(r.useSlots)
    ensures c.maxLeaves >= |sizes| ==> r.useSlots == Reverse(Range(0, |sizes|))
    ensures c.maxLeaves < |sizes| ==> r.useSlots == Reverse(GetSlotList(r, c.maxLeaves))
  {
    var t := c.(slotSizes := sizes, slotAngles := angles, slotRadMults := radMults);
    var u := UseSlots(t);
    SlotListIgnoresUseSlots(t, u, t.maxLeaves);
    t.(useSlots := u)
  }

  /** The slot list depends on the tables and options, not on the slots in use. */
  lemma SlotListIgnoresUseSlots(t: Config, u: seq<int>, take: nat)
    ensures GetSlotList(t.(useSlots := u), take) == GetSlotList(t, take)
  {
  }

  /** Graduated small-to-large sizes with division option 1 give seven slots; three leaves
      then use the middle slots 3, 2 and 1 of a window of six. */
  lemma UseSlotsDivisionOne(t: Config)
    requires t.GRAD && t.SMTOLG && !t.LGMAX && t.DIVOPTION == 1
    requires |t.slotSizes| == 7 && t.maxLeaves == 3
    ensures UseSlots(t) == [3, 2, 1]
  {
    assert WindowSlots(t) == 6;
    assert GetSlotList(t, 3) == [1, 2, 3];
  }

  /** Adjusting the slot angles of a sorted table keeps it sorted. */
  lemma AdjustKeepsOrder(c: Config, o: Oracle)
    requires SortedAsc(c.slotAngles)
    ensures AdjustSlotAngles(c, o).Ok? ==> SortedAsc(AdjustSlotAngles(c, o).value)
  {
    if c.GRAD && |c.slotAngles| > 0 && GapDefined(c) {
      ShiftSorted(c.slotAngles, Tau - MaxOf(c.slotAngles) - 1.5 * EndGap(c, o));
    }
  }

  /** Configs.InitStartAt: the relative angle of a root's first leaf. */
  function InitStartAt(c: Config): (r: real)
    ensures !c.TWIN ==> r == 0.1
    ensures c.TWIN && !c.GRAD ==> r == Tau / 6.0
  {
    if !c.TWIN then 0.1
    else if c.GRAD then
      if c.SMTOLG && !c.LGMAX then 0.1
      else if c.SMTOLG && c.LGMAX then 0.0
      else c.startAt
    else Tau / 6.0
  }

  /**
   * Configs.InitAll: the derived sizes scaled, the slot count fixed by LGMAX, the leaf
   * count forced to 8 under random leaf numbers and raised to at least 2, and the slot
   * tables built. twinDraw is the random twin ratio drawn in [0.6, 1].
   */
  function InitAll(c: Config, o: Oracle, twinDraw: real): (r: Result<Config>)
    ensures r.Ok? ==> r.value.maxLeaves >= 2
    ensures r.Ok? ==> r.value.availSlotSpaces == (if c.LGMAX then 5 else 6)
    ensures r.Ok? && c.RANDNUM ==> r.value.maxLeaves == 8
    ensures r.Ok? && !c.RANDNUM ==> r.value.maxLeaves == Max(c.maxLeaves, 2)
    ensures r.Ok? ==> r.value.minRadius == UnscaledMinRadius * c.scale &&
                      r.value.nodeBuffer == UnscaledNodeBuffer * c.scale &&
                      r.value.initRadius == UnscaledInitRadius * c.scale
    ensures r.Ok? ==> r.value.endAt == Pi / 4.0
    ensures r.Ok? && 0.6 <= twinDraw <= 1.0 && (c.RANDTWIN || c.RANDSZ) ==> 0.6 <= r.value.twinRatio <= 1.0
    ensures r.Ok? && !(c.RANDTWIN || c.RANDSZ) ==> r.value.twinRatio == c.twinRatio
  {
    var leaves := if c.RANDNUM then 8 else c.maxLeaves;
    var c1 := c.(
      twinRatio := if c.RANDTWIN || c.RANDSZ then twinDraw else c.twinRatio,
      availSlotSpaces := if c.LGMAX then 5 else 6,
      sproutAngle := 5.0 / 4.0 * Pi + c.sproutAdjustment,
      sproutMaxAngle := 11.0 / 12.0 * Pi + c.sproutAdjustment,
      minRadius := UnscaledMinRadius * c.scale,
      initRadius := UnscaledInitRadius * c.scale,
      nodeBuffer := UnscaledNodeBuffer * c.scale,
      rootBuffer := UnscaledRootBuffer * c.scale,
      endAt := Pi / 4.0,
      maxLeaves := Max(leaves, 2));
    InitSegments(c1.(startAt := InitStartAt(c1)), o)
  }

  /**
   * Configs.NumLeaves: a random leaf count from 2 up to, not including, the fraction
   * count. With a fraction count of 2 or less the count is 2 (the source's random call
   * gives 2 for an empty range and rejects a reversed one).
   */
  function NumLeaves(c: Config, k: nat): (r: nat)
    ensures 2 <= r
    ensures FractionCount(c) > 2 ==> r < FractionCount(c)
  {
    var maxSlots := FractionCount(c);
    if maxSlots <= 2 then 2 else 2 + k % (maxSlots - 2)
  }

  /** A uniform draw from [0, 1]. */
  type Unit = u: real | 0.0 <= u <= 1.0

  /** A uniform draw u placed between two bounds given in either order (Configs.Random). */
  function RandomIn(lo: real, hi: real, u: Unit): (r: real)
    ensures MinR(lo, hi) <= r <= MaxR(lo, hi)
  {
    var mx, mn := MaxR(lo, hi), MinR(lo, hi);
    MulNonneg(u, mx - mn);
    MulNonneg(1.0 - u, mx - mn);
    u * (mx - mn) + mn
  }

  /** The random draws NextLeafRad may consume: the guessed large slot, the coin (only
      flipped when there are more than three slots), a uniform draw for an extra-large
      leaf and the radius GetGoodRandomRad would draw for random sizes. */
  datatype LeafDraw = LeafDraw(lrgSlot: int, coin: int, u: Unit, randomRad: real)

  /** The coin NextLeafRad uses: heads always with three slots or fewer. */
  predicate LargeCoin(c: Config, d: LeafDraw)
  {
    if |c.slotSizes| > 3 then d.coin > 0 else true
  }

  /**
   * Configs.NextLeafRad: the radius of the next leaf. Without a slot it is the fixed
   * child proportion of the parent (or a random size); with a slot, a lucky guess under
   * RANDLRG gives an extra-large leaf between half and nine tenths of the initial radius,
   * random sizes take the drawn radius, and otherwise the slot's multiplier applies.
   */
  function NextLeafRad(c: Config, parentRad: real, leafSlot: int, d: LeafDraw): (r: real)
    requires leafSlot == -1 || 0 <= leafSlot < |c.slotRadMults|
    ensures leafSlot == -1 && !c.RANDSZ ==> r == parentRad * ChildProportion
    ensures leafSlot != -1 && !c.RANDLRG && !c.RANDSZ ==> r == parentRad * c.slotRadMults[leafSlot]
    ensures leafSlot != -1 && c.RANDLRG && d.lrgSlot == leafSlot && LargeCoin(c, d) && c.initRadius >= 0.0 ==>
              0.5 * c.initRadius <= r <= 0.9 * c.initRadius
    ensures leafSlot != -1 && c.RANDSZ && !(c.RANDLRG && d.lrgSlot == leafSlot && LargeCoin(c, d)) ==> r == d.randomRad
  {
    if leafSlot == -1 then
      if c.RANDSZ then d.randomRad else parentRad * ChildProportion
    else if c.RANDLRG && d.lrgSlot == leafSlot && LargeCoin(c, d) then
      RandomIn(c.initRadius * 0.5, c.initRadius * 0.9, d.u)
    else if c.RANDSZ then d.randomRad
    else parentRad * c.slotRadMults[leafSlot]
  }

  /**
   * Configs.RootBaseArc: the relative arc a root's first leaf starts at, and the new
   * minimum root base. Single roots and non-graduated or random sizes keep startAt; a
   * twin with graduated sizes measures the other root's arc seen from rootDist.
   */
  function RootBaseArc(c: Config, o: Oracle, rootIdx: int, rootDist: real): (r: (real, real))
    requires c.TWIN && c.GRAD && !c.RANDSZ ==> |c.slotRadMults| > 0
    ensures !c.TWIN || !c.GRAD || c.RANDSZ ==> r.0 == c.startAt && r.1 == 0.5 * 0.01 - 2.0 * c.nodeHalo
    ensures c.TWIN && c.GRAD && !c.RANDSZ && c.SMTOLG ==> r.1 == 0.5 * r.0 - 2.0 * c.nodeHalo
  {
    if c.TWIN && c.GRAD && !c.RANDSZ then
      var otherRootRad := if rootIdx == 0 then c.initRadius * c.twinRatio else c.initRadius;
      var minMult := MinOf(c.slotRadMults);
      var minLeaf := otherRootRad * minMult;
      if c.SMTOLG then
        var rootBase := c.startAt + o.asin(Quot(minLeaf, otherRootRad + minLeaf));
        (rootBase, 0.5 * rootBase - 2.0 * c.nodeHalo)
      else
        var minLeaf' := if minMult > 0.33 then minLeaf + c.nodeBuffer else minLeaf;
        var minRootBase := o.asin(Quot(otherRootRad, rootDist));
        (o.asin(Quot(otherRootRad + minLeaf', rootDist)), 0.5 * minRootBase - 2.0 * c.nodeHalo)
    else
      (c.startAt, 0.5 * 0.01 - 2.0 * c.nodeHalo)
  }
}
