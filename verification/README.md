# Scroll generator engine, modelled in Dafny

The scroll generator fills a polygonal container with a tree of spirals. A root spiral,
or a pair of twin roots facing opposite ways, is planted at the container's centroid.
Every spiral then grows leaves: smaller spirals that touch it from outside and turn the
other way. Each leaf sits in a slot of the configured slot tables (its angle, size and
radius multiplier). A candidate leaf has to clear the container's edges and every other
spiral. When it does not, it is turned about its parent: away from the offending edge,
past the worst neighbour, or by a small nudge. Failing that, it is moved to another slot.
Growth runs in passes over the tree until the node budget is spent or a pass adds
nothing. Spirals too small to grow ("stumps") may be resprouted with a larger leaf.

The model covers the engine of the effect:

- the angle and distance helpers of `Trig.cs`;
- the container geometry of `Polygon.cs`;
- the configuration and slot tables of `Configs.cs`;
- the per-spiral bookkeeping of `SpiralNode.cs`;
- fitting, adjusting and growing in `SpiralTree.cs`.

## Modules

One module per file:

| File | Module | Covers |
|---|---|---|
| `angles.dfy` | `Angles` | Pi and Tau, angle folding, complements |
| `seqs.dfy` | `Seqs` | Generic sequence helpers: sums, sorting, extremes, running sums |
| `plane.dfy` | `Plane` | Points, distances, angle to a point, arc fits, orientation and segment crossing, nearest point of a segment |
| `boundary.dfy` | `Boundary` | The container polygon: edge ring, shoelace area and centroid, scaling, the circular form, edge distance and crossing |
| `configs.dfy` | `Configs` | The configuration record and the derivation of the slot tables |
| `node.dfy` | `Nodes` | A spiral (`SpiralNode`): frames of reference, slots, next-leaf angles, moving a leaf |
| `tree.dfy` | `Trees` | The node arena and its invariant, the neighbour and edge fit checks, the first open angle, planting the roots |
| `adjust.dfy` | `Adjusting` | The adjustment strategies and `TryToFit` |
| `growth.dfy` | `Growth` | Growing a leaf, promoting tiny leaves, `Develop`, resprouting stumps, `Grow` |

## How the model represents the program

- **Numbers.** Floats are reals. `Pi` and `Tau` are the exact decimal values of the float
  constants. C# integer division and `Math.Round` (halves to even) are written out.
  A float division by a possible zero becomes `Plane.Quot`, which is 0 for a zero
  divisor.
- **Analysis functions.** Square roots and the trigonometric functions are not
  computable here. They are the fields of an `Oracle`, and the predicates
  `SqrtSound`, `TrigSound` and `InverseSound` state the facts the proofs use.
- **Spiral geometry.** The spiral outline is supplied by a `Shape` value:
  - `RadAtAngle`, the envelope radius in a direction;
  - `CalcNodeLift`, the lift of a leaf off its parent.

  `SpiralTree.CenterPair`, which places the twin centres, is a parameter of the
  environment.
- **Mutable state.** The source mutates nodes in a shared list and keeps static fields.
  - The arena is a `seq<Node>`; every operation returns the new arena.
  - `Configs.minRootBase` and the count of random draws used are carried in `Aux`.
  - A C# `ref` parameter becomes a returned value: the leaf as the call left it.
- **Randomness.** The random generator is replaced by two streams in the environment:
  - `draws`, one `LeafDraw` per radius drawing in `NextLeafRad`/`AdjustLeaf`;
  - `leafNums`, the raw draws behind `NumLeaves`.

  Both are indexed by the draw counter.
- **Invariants.** Growth is proved against three invariants:
  - `Healthy`: the arena is valid, and every leaf fits among the spirals placed before it;
  - `Extends`: the old nodes are kept, with only their flags and leaf lists grown;
  - `GrewOnly`: only the developing spiral changed.

## Model

| member | source | states |
|---|---|---|
| Angles.Ceil | Trig.cs:62 | the integer Math.Ceiling gives: at or above x and less than one above it |
| Angles.CongruentTurns | Trig.cs:58-73 | congruent angles differ by a whole number of turns, the number being returned |
| Angles.TurnsCongruent | Trig.cs:58-73 | angles a whole number of turns apart are congruent |
| Angles.Mod2Pi | Trig.cs:58-73 | the folded angle lies in [0, Tau], differs from the input by whole turns, leaves an angle already in [0, Tau] unchanged, and is Tau only for Tau itself |
| Angles.FoldUp | Trig.cs:60-64 | for a negative angle, adding max(ceil(-a / Tau), 1) turns lands in [0, Tau) on a congruent angle |
| Angles.FoldDown | Trig.cs:66-70 | for an angle above Tau, removing max(floor(a / Tau), 1) turns lands in [0, Tau) on a congruent angle |
| Angles.Mod2PiIdempotent | Trig.cs:58-73 | folding twice is folding once |
| Angles.Mod2PiCanonical | Trig.cs:58-73 | two congruent angles, neither exactly Tau, fold onto the same angle |
| Angles.ComplementAngle | Trig.cs:105-109 | the opposite direction: in [0, Tau] and half a turn from the input |
| Angles.ComplementInvolution | Trig.cs:105-109 | complementing twice gives back any angle of [0, Tau) |
| Angles.SpanThruOrigin | Trig.cs:76-81 | the arc through angle zero is a full turn less the distance between the two angles, whichever order they come in |
| Angles.RadRatioMult | Trig.cs:129-135 | at least 1, and for a positive smaller radius it is the factor that takes the smaller radius to the larger |
| Plane.Quot | Trig.cs:129-135 | for a non-zero divisor the quotient times the divisor gives back the dividend |
| Plane.QuotUnit | Trig.cs:17 | a side over a longer positive side lies in [-1, 1] and is not negative when the side is not |
| Plane.PointDist | Trig.cs:112-126 | with a sound square root the distance is non-negative and its square is the squared Euclidean distance, on or off an axis; it is zero from a point to itself |
| Plane.AxisDistance | Trig.cs:116-119 | on an axis the larger side, squared, is the squared distance, so the shortcut agrees with the hypotenuse |
| Plane.PointDistSymmetric | Trig.cs:112-120 | the distance does not depend on the order of the points |
| Plane.SquareMonotone | Polygon.cs:221-226 | for non-negative values, comparing them is comparing their squares |
| Plane.AngleToPoint | Trig.cs:47-55 | the direction lies in [0, Tau] and is congruent to atan2 of the coordinate differences |
| Plane.Polar | SpiralNode.cs:229-249 | a point placed at a distance in a direction is that distance from the centre |
| Plane.AcosFit | Trig.cs:16-19 | no angle when the adjacent side is longer than the hypotenuse; otherwise an angle of [0, Pi] whose cosine times the hypotenuse is the adjacent side |
| Plane.EdgeFitArc | Trig.cs:9-20 | no arc when the leaf cannot reach the edge or the cosine ratio is below 0.1; otherwise an arc of [0, Pi/2] whose cosine scales the parent-leaf hypotenuse to the edge's adjacent side |
| Plane.ClosestFitArc | Trig.cs:23-44 | the adjacent side is chosen by whether the parent-neighbour gap exceeds the leaf radius; no angle when it exceeds the wanted distance, else an angle whose cosine relates the two |
| Plane.CalcLeafArcSpan | Trig.cs:84-87 | an angle of [0, Pi/2] whose sine is the leaf radius over the sum of both radii |
| Plane.Orientation | Polygon.cs:241-251 | -1, 0 or 1: 0 exactly for collinear points, 1 exactly for a negative cross product |
| Plane.OrientationSwap | Polygon.cs:241-251 | exchanging the first two points reverses the turn |
| Plane.CrossEdge | Polygon.cs:232-255 | segments cross exactly when each one's ends lie on different sides of the other's line; a degenerate segment crosses nothing |
| Plane.CrossEdgeSymmetric | Polygon.cs:232-255 | crossing is symmetric in the two segments and in the ends of each |
| Plane.CrossCircularEdgeSquared | Polygon.cs:221-226 | leaving a circle is a comparison of squared centre distances with the squared radius |
| Plane.CompareSquared | Polygon.cs:221-226 | a non-negative distance reaches the radius exactly when its square reaches the radius squared |
| Plane.FindPoint | Polygon.cs:294-312 | the point found lies on the line through the edge's ends |
| Plane.MinDistance | Polygon.cs:258-291 | beyond b the answer is b and its distance; before a it is a; otherwise a point on the edge's line and the signed perpendicular distance |
| Plane.MinDistancePerpendicular | Polygon.cs:276-290 | the perpendicular distance is never longer than the distance to the edge's start |
| Plane.Lagrange | Polygon.cs:184-199 | the squared cross product plus the squared dot product is the product of the squared lengths |
| Plane.PerpendicularShorter | Polygon.cs:276-290 | the perpendicular distance from e to the line a-b is at most the distance from e to a |
| Plane.PerpendicularArith | Polygon.cs:276-290 | the arithmetic step of PerpendicularShorter, on plain values |
| Plane.ShorterArith | Polygon.cs:276-290 | the cancellation step of PerpendicularShorter |
| Boundary.RingEdges | Polygon.cs:97-109 | one edge per vertex, edge i running from the vertex before i (the last one for i = 0) to vertex i |
| Boundary.ShoelaceTerms | Polygon.cs:21-33 | the shoelace term of every ring edge, position for position |
| Boundary.ScaleVertices | Polygon.cs:122-131 | every vertex scaled, nothing reordered |
| Boundary.ScaledCross | Polygon.cs:122-131 | scaling by k scales an edge's share of the area by k squared |
| Boundary.ScaledRing | Polygon.cs:97-131 | the ring of the scaled vertices is the scaled ring |
| Boundary.RotateLeft | Polygon.cs:97-109 | the same ring started one vertex later |
| Boundary.ShoelaceRotate | Polygon.cs:110-112 | the area does not depend on which vertex the list starts with |
| Boundary.CtrDists | Polygon.cs:134-146 | the distance from the centroid to every vertex |
| Boundary.BecomeCircular | Polygon.cs:134-146 | one circular edge about the centroid whose radius is the distance to some vertex and to no vertex more; vertices, centroid and area kept |
| Boundary.Build | Polygon.cs:88-119 | fewer than three vertices give the empty polygon; otherwise the possibly scaled vertices, the shoelace area and centroid, the ring of edges, and a circle for more than eight |
| Boundary.Ring | Polygon.cs:97-112 | the loop yields exactly the ring of edges and the complete shoelace and centroid sums |
| Boundary.RingStep | Polygon.cs:99-108 | one turn of the loop extends every prefix by the edge ending at vertex i |
| Boundary.RingEdgesSnoc | Polygon.cs:99-108 | one turn of the loop extends the edge prefix by the edge ending at vertex i |
| Boundary.PrefixSnoc | Polygon.cs:110-112 | one more element adds itself to the running sum |
| Boundary.RingComplete | Polygon.cs:110-112 | after the last turn every accumulated prefix is the whole list |
| Boundary.DistToCircumference | Polygon.cs:203-218 | the circumpoint lies on the circle and the distance returned is the distance to it |
| Boundary.DistanceToEdge | Polygon.cs:36-39 | a straight edge measures to its end b beyond b, to a before a, else to a point on its line; a circular edge measures to a point of its circle |
| Boundary.CrossesEdge | Polygon.cs:42-45 | a straight edge is crossed exactly as the segment test says (never by a zero-length step); a circular edge exactly as the circle test says |
| Boundary.CrossesCircle | Polygon.cs:68-71 | a circular edge is crossed exactly when either centre is at least a radius from its centre |
| Configs.CsDiv | Configs.cs:268 | the quotient is truncated toward zero for either sign of the dividend |
| Configs.BigEnoughToGrow | Configs.cs:69-72 | big enough exactly when the radius is not negative, or for graduated small-to-large sizes, since 2 / 5 is an integer 0 |
| Configs.RadTooSmall | Configs.cs:75-78 | too small exactly when three radii do not exceed the minimum radius |
| Configs.CanDecreaseLeafArc | Configs.cs:81-84 | exactly for graduated small-to-large sizes without random sizes, some multiplier below 0.3, and for a twin equal twins: each condition is needed, and together they suffice |
| Configs.CreateFractions | Configs.cs:94-112 | mismatched or short lists give none; a count beyond the lists fails; otherwise the right number of fractions, each recovering its numerator less the amount subtracted |
| Configs.Fractions | Configs.cs:103-111 | n fractions, each times its denominator giving its numerator less the amount |
| Configs.EffectiveAdd | Configs.cs:101 | the amount is kept when it stays below every numerator and dropped (0) when it reaches any of them |
| Configs.Progression | Configs.cs:437-453 | n values from the start, each the previous plus the step |
| Configs.ProgressionIncreasing | Configs.cs:437-453 | with a positive step the values strictly increase |
| Configs.ProgressionAbove | Configs.cs:437-453 | with a positive step no value falls below the start |
| Configs.ModeratedFractions | Configs.cs:437-453 | one fraction per slot space, the first a share of a turn less 1.5 end arcs, consecutive ones a fixed 0.8 per slot space apart |
| Configs.ModeratedIncreasing | Configs.cs:437-453 | the moderated fractions strictly increase |
| Configs.ProportionFractions | Configs.cs:497-547 | all fractions scaled by one factor, so that (for a non-zero total) they add up to the desired arc less the halo gaps |
| Configs.Ordered | Configs.cs:597-616 | a permutation of the list with the same sum, descending for small-to-large growth and ascending otherwise |
| Configs.SpreadSizes | Configs.cs:602-616 | each slot size is the ordered fraction widened by the halo |
| Configs.RadMults | Configs.cs:602-607 | the radius multiplier of each slot arc |
| Configs.UnevenSplit | Configs.cs:594-628 | fewer than two fractions give empty tables; otherwise one entry per fraction, sizes the halo-widened ordered fractions, angles their running totals, the last angle the whole proportioned arc |
| Configs.UnevenSplitTotal | Configs.cs:594-628 | the last slot angle is the desired total less the halo gaps |
| Configs.EvenSplit | Configs.cs:115-153 | one multiplier per slot gap; four slots under LGMAX and five otherwise; the fixed angles without a spread factor, and with one the angles gain exactly the spread factor in total |
| Configs.FindNextSlot | Configs.cs:156-170 | the highest slot (down to 1) whose angle the test angle exceeds, or 0 when none does |
| Configs.GetSlotList | Configs.cs:235-272 | take strictly ascending slots: slots 1 to take for uniform sizes, take consecutive slots centred (with truncation) in the window for graduated ones |
| Configs.SlotListInRange | Configs.cs:235-272 | for every option the interface can produce, a slot list for fewer leaves than slots names existing slots |
| Configs.SlotListLargerMax | Configs.cs:235-272 | under LGMAX (never set by the interface) one configuration asks for slot 6 of a six-slot table |
| Configs.AdjustSlotAngles | Configs.cs:361-374 | uniform tables are kept; an empty graduated table fails; otherwise every angle moves by one amount, leaving the largest 1.5 end gaps short of a turn |
| Seqs.AsReals | Configs.cs:313-333 | the integer table entries as reals, position for position |
| Configs.SlotFractions | Configs.cs:311-333 | each division option 1 to 5 yields as many fractions as its count |
| Configs.InitSegments | Configs.cs:302-358 | only the slot tables change; angles ascending; sizes and multipliers descending for graduated small-to-large and ascending otherwise; the slots in use strictly descending, all slots or the slot list for the leaf count over the new tables |
| Configs.ArrangeTables | Configs.cs:335-357 | the same ordering guarantees for the sorting, adjusting and reversing half of InitSegments, with the slot list taken over the new tables |
| Configs.Arranged | Configs.cs:351-357 | only the tables and slots in use change; the slots in use are every slot, or the slot list read from the finished tables |
| Configs.Flipped | Configs.cs:340-350 | an ascending list stays ascending, or becomes descending when reversed |
| Configs.UseSlots | Configs.cs:353-357 | the slots in use, strictly descending: every slot, or the slot list of the same tables when fewer leaves than slots are wanted |
| Configs.UseSlotsDivisionOne | Configs.cs:235-268 | seven graduated small-to-large slots of division option 1 and three leaves use slots 3, 2 and 1 |
| Configs.AdjustKeepsOrder | Configs.cs:361-374 | adjusting a sorted angle table keeps it sorted |
| Configs.InitStartAt | Configs.cs:377-390 | 0.1 for a single root, a sixth of a turn for uniform twins |
| Configs.InitAll | Configs.cs:277-299 | at least two leaves (eight under random numbers), five or six slot spaces, the scaled sizes, an end arc of Pi/4, and a twin ratio in [0.6, 1] when drawn |
| Configs.NumLeaves | Configs.cs:487-494 | a count from 2 up to, not including, the fraction count (2 when that range is empty) |
| Configs.RandomIn | Configs.cs:550-556 | the drawn value lies between the two bounds, in either order |
| Configs.NextLeafRad | Configs.cs:456-483 | without a slot the child proportion of the parent; with a slot the slot's multiplier, or a lucky extra-large leaf of half to nine tenths the initial radius, or the drawn random radius |
| Configs.RootBaseArc | Configs.cs:560-591 | single roots and uniform or random sizes keep startAt and the default minimum base; graduated small-to-large twins set the minimum base to half the arc less two halos |
| Nodes.RoundHalfEven | SpiralNode.cs:17 | Math.Round: within half a unit, and an exact half goes to the even neighbour |
| Nodes.TooSmallBounds | SpiralNode.cs:17 | half a unit below the minimum radius is too small, more than half a unit above is not |
| Nodes.EndAngle | SpiralNode.cs:65-81 | the end angle is the start turned by the end arc in the direction of turn, folded |
| Nodes.NewRoot | SpiralNode.cs:65-81 | a root: counter-clockwise, slot 0, the root lift, no leaves, flags clear, end angle one end arc on |
| Nodes.NewLeaf | SpiralNode.cs:84-100 | a leaf turns against its parent and keeps its slot and lift; parent -1 makes a root; no leaves and no edge data |
| Nodes.CopyNode | SpiralNode.cs:103-129 | the same place, size, slot and turn, flags and leaves cleared, neighbour and edge data carried over |
| Nodes.LastLeafIdx | SpiralNode.cs:43-46 | the last leaf's index, or -1 without leaves |
| Nodes.ToRelativeAngle | SpiralNode.cs:303-307 | a relative angle in [0, Tau] |
| Nodes.ToAbsoluteAngle | SpiralNode.cs:317-321 | an absolute angle in [0, Tau] |
| Nodes.ToAbsRemainingAngle | SpiralNode.cs:310-314 | an absolute angle in [0, Tau] |
| Nodes.RemainingIsNegatedAbsolute | SpiralNode.cs:310-321 | measuring against the turn is measuring the negated angle with it |
| Nodes.FrameRoundTrip | SpiralNode.cs:303-321 | relative to absolute and back gives a congruent angle for either direction of turn |
| Nodes.FrameRoundTripForward | SpiralNode.cs:303-321 | the round trip for a counter-clockwise spiral |
| Nodes.FrameRoundTripAgainst | SpiralNode.cs:303-321 | the round trip for a clockwise spiral |
| Nodes.TurnBackForward | SpiralNode.cs:303-321 | turning forward and measuring back forward gives the angle up to turns |
| Nodes.TurnBackAgainst | SpiralNode.cs:303-321 | turning backward and measuring backward gives the angle up to turns |
| Nodes.FrameRoundTripExact | SpiralNode.cs:303-321 | an angle of [0, Tau) comes back unchanged (or as Tau) |
| Nodes.LastLeafAngle | SpiralNode.cs:49-52 | the last leaf's angle, or an angle of [0, Tau] for a spiral without leaves |
| Nodes.RemainingArcAfter | SpiralNode.cs:342-346 | the remaining arc and the end arc together never exceed a turn |
| Nodes.HasRoomFor | SpiralNode.cs:349-356 | no room when the spiral cannot grow; room for anything without leaves; otherwise room exactly when the arc after the last leaf covers the leaf's arc |
| Nodes.HasRoomForSmaller | SpiralNode.cs:349-356 | room for an arc is room for every smaller arc |
| Nodes.SlotFrom | SpiralNode.cs:488-500 | a slot's range starts at the previous slot's angle (the end arc for slot 0), or inside a turn when shifted |
| Nodes.SlotTo | SpiralNode.cs:488-500 | a slot's range ends at its angle plus half its size, or inside a turn when shifted |
| Nodes.CorrectedSlot | SpiralNode.cs:561-572 | the original slot when the angle lies in its range, else the lowest slot whose range holds the angle, else the original |
| Nodes.FirstSlotFrom | SpiralNode.cs:561-572 | the lowest slot from a start whose range holds the angle, or -1 when none does |
| Nodes.NextSlotFromList | SpiralNode.cs:611-631 | a first leaf jumps to the largest slot in use; slot 0 stays; otherwise the first listed slot below the current one, or the next lower slot |
| Nodes.NextSlotIsLargestBelow | SpiralNode.cs:611-631 | on a descending list the step lands on the largest listed slot below the current one |
| Nodes.NextLeafSlotAfter | SpiralNode.cs:598-608 | without slot lists the next lower slot, stopping at 0; the step never goes up |
| Nodes.NextLeafSlotAt | SpiralNode.cs:575-595 | no angle gives the last slot; otherwise the slot the relative angle falls in, capped by the largest slot in use when fewer leaves than slots grow |
| Nodes.ReslotAngl | SpiralNode.cs:634-643 | no angle exactly below slot 0; otherwise an angle of [0, Tau] |
| Nodes.ReslotAnglRelative | SpiralNode.cs:634-643 | seen from the spiral, the angle is the slot's table angle plus the shift |
| Nodes.BaseAngle | SpiralNode.cs:324-332 | no angle exactly for a root; an angle of [0, Tau] for a leaf |
| Nodes.RootBaseAngle | SpiralNode.cs:335-339 | a single root starts startAt against its turn and keeps the minimum base; twins take the minimum base RootBaseArc gives |
| Nodes.ObstructingSibIdx | SpiralNode.cs:435-443 | the next node exactly when both it and idx are leaves of this spiral, else -1 |
| Nodes.ClosestNhbrIdx | SpiralNode.cs:55-61 | -1 without neighbours, else the neighbour at the first position of the smallest distance |
| Nodes.SibConflictAngle | SpiralNode.cs:676-689 | a sibling far enough away gives no angle |
| Nodes.MarkParent | SpiralNode.cs:446-453 | the leaf's index and angle are appended together, nothing else changes, and the angle points back along the leaf's start angle |
| Nodes.MarkParentRoundTrip | SpiralNode.cs:446-453 | complementing the recorded angle gives the leaf's start angle back |
| Nodes.Recenter | SpiralNode.cs:229-249 | a positive radius replaces the old and clears the flags; an angle sets the start and end angles; the centre lands the parent's radius plus own radius plus lift from the parent; links kept |
| Nodes.AdjustLeaf | SpiralNode.cs:646-673 | the slot is set; the radius changes only on a graduated change of slot, to the new slot's drawn radius; neighbour data dropped, the parent's edge data copied, the leaf lists kept |
| Nodes.NextLeafAngle | SpiralNode.cs:521-558 | no angle only with a shift factor; otherwise in [0, Tau]; without slot bases or shift it is the base turned by the leaf's arc against the spiral's turn |
| Nodes.SlotBase | SpiralNode.cs:527-545 | without a shift the base is kept or replaced by the slot's absolute angle; failure needs a shift |
| Nodes.LeafArcFor | SpiralNode.cs:547-554 | the arc is kept for later leaves, widened by a halo for a leaf's first leaf, narrowed to 0.9 for a root's when allowed |
| Trees.Draw | Configs.cs:456-483 | each draw moves the draw counter on by one |
| Trees.InterfaceSlotLists | Configs.cs:235-272 | for the interface's options the slot lists name no negative slot |
| Trees.ReplaceKeepsValid | SpiralTree.cs:1100-1159 | replacing a node by one with the same links keeps the arena valid |
| Trees.SetFull | SpiralTree.cs:1158 | one node marked full, links and every other node unchanged |
| Trees.SetBlocked | SpiralTree.cs:1149-1155 | one node's blocked flag set, links and every other node unchanged |
| Trees.CollisionFlags | SpiralTree.cs:403-425 | one collision flag per node |
| Trees.Gaps | SpiralTree.cs:408 | one surface distance per node |
| Trees.CollisionsExact | SpiralTree.cs:403-425 | the collision list holds exactly the colliding nodes, once each, in index order, each with its distance |
| Trees.NoCollisionEmpty | SpiralTree.cs:428 | the list is empty exactly when nothing collides |
| Trees.CheckNhbrFit | SpiralTree.cs:394-429 | the colliding nodes and distances are appended to the leaf's lists; the leaf fits exactly when it had none and nothing collides |
| Trees.EdgeEntry | SpiralTree.cs:455-469 | the entry is never negative and is 0 exactly when the edge is not clear |
| Trees.EdgeDistsOf | SpiralTree.cs:451-471 | one distance per container edge |
| Trees.EdgePointsOf | SpiralTree.cs:451-471 | one closest point per container edge |
| Trees.CheckEdgeFit | SpiralTree.cs:432-478 | the leaf's edge data is rewritten for its own position; it fits exactly when every edge is clear |
| Trees.CheckFit | SpiralTree.cs:384-391 | both checks' updates are made; the leaf fits exactly when it had no neighbours and clears everything, and is then accepted |
| Trees.CheckedCandidate | SpiralTree.cs:384-391 | a checked candidate is still a candidate |
| Trees.OpenAnglAfterLeaves | SpiralTree.cs:357-380 | a leafless leaf gets a real angle: its base angle without an obstructing sibling, else the sibling's conflict angle when there is one and the base angle when not; a spiral with leaves starts one halo and the last leaf's arc past its last leaf, against its turn, wrapped into [0, Tau] |
| Trees.FirstOpenAnglAsWritten | SpiralTree.cs:344-381 | it fails exactly for a leafless root of a twin tree whose twin is missing; otherwise it agrees with the corrected version |
| Trees.FirstOpenAngl | SpiralTree.cs:344-381 | the minimum base changes only for a leafless root; a leafless root without a twin present starts startAt against its turn; every other spiral gets the angle OpenAnglAfterLeaves states |
| Trees.DroppedTwinFails | SpiralTree.cs:349-354 | with the twin dropped the source version fails where the corrected one gives the single root's angle |
| Trees.TwinCanBeDropped | SpiralTree.cs:318-341 | a concrete container and twin centre for which the twin fails the edge check |
| Trees.PastEdgeEnd | Polygon.cs:258-291 | a concrete centre past an edge's end measures to that end, inside a radius-10 outline |
| Trees.UnitApart | Trig.cs:112-120 | two points one unit apart on an axis are at distance 1 |
| Trees.ClampTwinScale | SpiralTree.cs:322-323 | the scale is clamped to [0.6, 1] and kept when already inside |
| Trees.TwinRoot | SpiralTree.cs:332 | the twin is a root of the clamped scale facing the opposite way |
| Trees.RootsValid | SpiralTree.cs:31-57 | one or two checked roots form a valid arena |
| Trees.CheckRoot | SpiralTree.cs:50 | the root with its edge data filled in is a valid first node; ok exactly when its edges are clear |
| Trees.GrowTwins | SpiralTree.cs:318-341 | without twins nothing; otherwise a valid arena of the root, plus the twin exactly when the twin clears the edges |
| Trees.PlantRoots | SpiralTree.cs:31-57 | one or two valid leafless roots; a single root at the centroid with the initial radius |
| Adjusting.AdjustedCandidate | SpiralNode.cs:646-673 | moving a candidate to an existing slot keeps it a candidate |
| Adjusting.CopiedCandidate | SpiralNode.cs:103-129 | a copy of a candidate is a candidate in the same place |
| Adjusting.Refit | SpiralTree.cs:541-544 | the moved leaf has the slot and facing asked for, and fits exactly when it clears everything; one draw is used |
| Adjusting.MinTryAngle | SpiralTree.cs:590-596 | the nudged direction lies in [0, Tau] |
| Adjusting.MinNudge | SpiralTree.cs:593-618 | the nudged copy keeps its slot, faces the nudge angle, and is accepted when it fits |
| Adjusting.TryMinAdjustment | SpiralTree.cs:582-620 | on success an accepted leaf in the same slot nudged one way or the other; on failure the leaf unchanged |
| Adjusting.WorstNhbr | SpiralTree.cs:748-749 | the neighbour chosen is one of the leaf's neighbours |
| Adjusting.GetNeighborFitAngle | SpiralTree.cs:742-793 | no angle when the neighbour leaves no fit arc; an offered angle is the fit arc past the worst neighbour seen from the parent, forward, or backed up only when asked, and lies in the growth range from the parent's first open angle; a backed-up angle in range is taken first; the minimum base is the one FirstOpenAngl leaves |
| Adjusting.ReslottedCandidate | SpiralTree.cs:843-889 | a candidate moved to an existing slot is still a candidate |
| Adjusting.NhbrSpecialCases | SpiralTree.cs:639-662 | success means an accepted leaf; going on means conflicts remain |
| Adjusting.NhbrTurn | SpiralTree.cs:664-722 | success means an accepted leaf; going on records one new angle never tried before |
| Adjusting.TryAdjustToNhbrs | SpiralTree.cs:623-738 | success means an accepted leaf; a leaf without conflicts comes back unchanged with no |
| Adjusting.ProblemEdge | SpiralTree.cs:486-501 | the only conflicting edge when there is one, else the edge whose nearest point is closest to the leaf |
| Adjusting.NearestPoint | SpiralTree.cs:491-500 | the first of the points closest to the centre |
| Adjusting.EdgeFitAngles | SpiralTree.cs:503-517 | the two angles are the edge direction turned by the arc either way, in the order the parent's turn sets |
| Adjusting.EdgeRefit | SpiralTree.cs:539-577 | the leaf lands in the slot its new angle calls for, and fits exactly when it clears everything |
| Adjusting.TryAdjustToEdges | SpiralTree.cs:481-579 | success means an accepted leaf; with no fit arc the leaf comes back unchanged with no |
| Adjusting.TryAdjust | SpiralTree.cs:796-815 | success means an accepted leaf; a leaf with no recorded conflict comes back unchanged with no |
| Adjusting.ReslotStep | SpiralTree.cs:843-889 | both copies stay candidates, and success means an accepted leaf |
| Adjusting.TryToFit | SpiralTree.cs:821-892 | success means an accepted leaf; on failure the leaf is handed back unchanged |
| Growth.FrozenAll | SpiralTree.cs:384-478 | every node with its growth state cleared, position for position |
| Growth.ExtendsTrans | SpiralTree.cs:1162-1218 | a later version of a later version is a later version |
| Growth.FitsFrozen | SpiralTree.cs:384-478 | the fit check sees only places, sizes and edge data |
| Growth.ExtendsKeepsFit | SpiralTree.cs:1162-1218 | a leaf keeps fitting among the spirals before it when the arena grows |
| Growth.ExtendsKeepsPlaced | SpiralTree.cs:1162-1218 | growth that only changes flags and leaf lists keeps every leaf fitting |
| Growth.GrewOnlyTrans | SpiralTree.cs:1100-1159 | growing only one spiral twice grows only that spiral |
| Growth.ReplaceKeepsHealthy | SpiralTree.cs:1100-1159 | replacing a node by a grown version with the same links keeps the arena healthy |
| Growth.SetFullKeeps | SpiralTree.cs:1158 | marking a node full keeps the arena healthy and only grows it |
| Growth.SetBlockedKeeps | SpiralTree.cs:1149-1155 | blocking a node keeps the arena healthy and only grows it |
| Growth.AppendLeaf | SpiralTree.cs:963-967 | the arena gains exactly the new leaf, at the end |
| Growth.AppendNodesOk | SpiralTree.cs:963-967 | every node is consistent with the longer arena |
| Growth.AppendBackLinks | SpiralTree.cs:963-967 | every recorded leaf still names its parent, the new one included |
| Growth.AppendParents | SpiralTree.cs:963-967 | parents still come first and leaves still turn against them |
| Growth.AppendKeepsValid | SpiralTree.cs:963-967 | appending a candidate keeps the arena valid, and the parent's last leaf is the new node |
| Growth.AppendGrows | SpiralTree.cs:963-967 | an append only grows the arena |
| Growth.AppendKeepsPlaced | SpiralTree.cs:963-967 | appending an accepted candidate keeps every leaf fitting |
| Growth.AppendKeepsHealthy | SpiralTree.cs:963-967 | appending an accepted candidate keeps the arena healthy |
| Growth.SproutLeaf | SpiralTree.cs:946-954 | the new leaf faces back along the start angle, sits just outside the parent, turns against it and inherits its edge data |
| Growth.FitNewLeaf | SpiralTree.cs:956-964 | success means an accepted leaf; a leaf that fits where it sprouted stays there without a draw |
| Growth.PlaceLeaf | SpiralTree.cs:956-976 | the leaf joins exactly when it fits and is not too small, recorded by its parent; otherwise nothing changes |
| Growth.GrowLeaf | SpiralTree.cs:937-977 | too small to grow marks the parent full; otherwise a fitting, not too small leaf is appended, recorded by its parent, or nothing changes; only the parent grows |
| Growth.PromoteTiny | SpiralTree.cs:1023-1027 | it stops at a slot no higher than the start, one draw per step, and stays only on a radius that is not too small or at slot 0 |
| Growth.PromoteTinyStep | SpiralTree.cs:1023-1027 | a promotion that moved took a step from a too-small radius to the radius drawn for the slot below |
| Growth.PromoteTinyRadius | SpiralTree.cs:1023-1027 | the final radius is the starting one, or the one drawn for the final slot |
| Growth.PromoteTinyPassesTiny | SpiralTree.cs:1023-1027 | every slot passed had a too-small radius |
| Growth.PromoteTinyLeafAsWritten | SpiralTree.cs:1019-1038 | success exactly when the final radius is big enough; the angle is then missing exactly when the slot reached is 0 |
| Growth.PromotedToSlotZeroHasNoAngle | SpiralTree.cs:1031 | a leaf promoted from slot 1 to slot 0 succeeds yet gets no angle |
| Growth.PromoteTinyLeaf | SpiralTree.cs:1019-1038 | success exactly when the final radius is big enough, and then the angle is that slot's (shifted) angle seen from the spiral |
| Growth.NumLeavesOk | Configs.cs:487-494 | every drawn leaf count is one the slot lists are defined for |
| Growth.StepListNonneg | SpiralNode.cs:611-631 | the list stepped through names no negative slot |
| Growth.SlotAtInRange | SpiralNode.cs:575-595 | the slot for an angle exists |
| Growth.SlotAfterInRange | SpiralNode.cs:598-608 | the next slot after an existing one exists |
| Growth.LineUpNext | SpiralTree.cs:1136-1146 | one draw; the next slot is lower (or 0 at 0); the spiral is marked full exactly when there is no room for 1.75 leaf arcs |
| Growth.PromoteOrStop | SpiralTree.cs:1118-1127 | going on means an unchanged arena and a radius that is not too small; stopping marks the spiral full |
| Growth.GrowNext | SpiralTree.cs:1118-1134 | a grown leaf is not too small and uses one node of the budget; a leaf that does not grow sets the blocked flag to not resprouted (clearing it for a resprout); any other break comes from a too small radius and marks the spiral full |
| Growth.FollowUp | SpiralTree.cs:1136-1146 | Develop returns exactly when the new leaf took slot 0, marking the spiral full |
| Growth.StepWithAngle | SpiralTree.cs:1118-1146 | the arena stays healthy, only the spiral grows, and the node budget is tracked |
| Growth.CheckLeafCount | SpiralTree.cs:1156 | done exactly when the spiral has all its leaves, and it is then full |
| Growth.DevelopStep | SpiralTree.cs:1116-1157 | one pass keeps the arena healthy, grows only the spiral and tracks the budget |
| Growth.FirstLeaf | SpiralTree.cs:1102-1111 | the base angle and minimum base are those of FirstOpenAngl; one draw |
| Growth.Develop | SpiralTree.cs:1100-1159 | the arena stays healthy, only the spiral grows, the node budget is respected, and at most the leaf count of leaves is added |
| Growth.StumpsIn | SpiralTree.cs:1054-1067 | exactly the stumps of a slot among the first k nodes, with their radii |
| Growth.StumpCount | SpiralTree.cs:1193 | zero exactly when there are no stumps |
| Growth.StumpLeafRad | SpiralTree.cs:1075-1077 | the stump's radius scaled from the minimum to the initial radius, by 0.8 below half the minimum and by 0.75 otherwise |
| Growth.SproutStump | SpiralTree.cs:1075-1094 | only the stump changes among the old nodes; a stump that gains no leaf is blocked; done exactly when the budget is spent |
| Growth.SproutSlot | SpiralTree.cs:1063-1096 | only stumps change and the budget is respected |
| Growth.SproutStumps | SpiralTree.cs:1042-1097 | only stumps change, the rest only gains nodes, and the budget is respected; a spent budget changes nothing |
| Growth.GrowPass | SpiralTree.cs:1199-1212 | the arena stays healthy within the budget, done exactly when the budget is spent |
| Growth.Grow | SpiralTree.cs:1162-1218 | the tree stays healthy and within the budget it started within; a spent budget changes nothing |
| Growth.RootsHealthy | SpiralTree.cs:31-57 | a tree of roots alone is healthy |
| Growth.GrowTree | SpiralTree.cs:31-57 | a healthy tree whose first node is a root, within the node budget, every leaf fitting among the spirals before it |

## Left out

- The user interface, drawing, SVG output, colours and logging (`PrintPolygon`,
  `LogProperties`, `AddToLog`) only present results, so they are not modelled.
- The spiral curve is not modelled. `SpiralNode.RadAtAngle` and `CalcNodeLift` are
  supplied by a `Shape` value. `SpiralTree.CenterPair` is a field of the environment.
  `SpiralNode.CreateLeafPt`, and the spiral, envelope and start points (`SprlCtr`,
  `EnvelopeCtr`, `StrtPt`), only feed the drawing and the envelope radius.
- Square roots and trigonometric functions are oracle fields. Only the facts stated
  in `SqrtSound`, `TrigSound` and `InverseSound` are assumed about them.
- Float rounding, NaN and infinity are not modelled: reals stand in for floats.
  - Plane.Quot: a division by zero gives 0, where the float gives an infinity or NaN.
- Angles.RadRatioMult: for a zero smaller radius the float ratio is infinite and the
  source returns it; the model returns 1.
- `Random` is replaced by draw streams:
  - one `LeafDraw` per radius drawing in `NextLeafRad`/`AdjustLeaf`;
  - `leafNums` for `NumLeaves`.

  `Configs.GetGoodRandomRad` (Configs.cs:173-232) is represented only by the drawn
  `randomRad` it produces. The random root angle and twin ratio enter as parameters.
- `List.Sort` is not stable. The model sorts stably, which matters only among equal
  keys:
  - the nearest edge chosen by `TryAdjustToEdges`, the first of equals;
  - the order of equal-radius stumps in `SproutStumps`.
- `Trig.ReflectOverX`, `ReflectOverY` and `CtrLineIntersects` are never called.
- Boundary.ScaledCross: the effect of scaling on the area is proved per edge, not for
  the summed area.
- Plane.MinDistance: the end-point cases are not proved to be the nearest points of
  the segment; only the perpendicular case is bounded (MinDistancePerpendicular).
- Guards that cannot fire where the model calls the method are omitted:
  - `TryAdjustToNhbrs`' check for no neighbours with a failing edge check inside its loop;
  - `TryMinAdjustment`'s missing-closest-neighbour and no-conflict returns (its
    precondition asks for a conflict);
  - `TryToFit`'s `ReslotAngl == -100` test, since the slots in use are non-negative;
  - `TryAdjustToEdges`' final `return false`.
- A negative `maxLeaves` is treated as 0 where a count is needed.
- Under `LGMAX`, which the interface never sets, one configuration asks `GetSlotList`
  for a slot past the table. This is stated by `Configs.SlotListLargerMax`; growth
  requires configurations whose slot lists name existing slots.
- `SproutStumps` never advances `growSlot` from the lowest slot in use. This is
  modelled as written.
- Develop's `Blocked = true && !resprouted` is modelled as written.
- Growth.PromoteOrStop: promotes a tiny leaf with the corrected Growth.PromoteTinyLeaf,
  at the promoted slot's own angle. The source (SpiralTree.cs:1031) grows the leaf at
  the angle of the slot below, and from slot 0 hands `GrowLeaf` no angle (-100); see
  Findings. Growth.GrowNext and Growth.Develop inherit this.
- Growth.FirstLeaf: takes the first open angle from the corrected Trees.FirstOpenAngl.
  For a twin tree whose twin was dropped, the source's `FirstOpenAngl` throws at the
  root's first leaf and ends the run; the model grows the root as a single root.
  Growth.FollowUp is not affected, as it asks only for spirals that have leaves.
- Growth.Develop: inherits both corrections above, so it does not reproduce the throw
  or the slot-below angle of the source.
- The node budget is counted as `maxNodes` less the arena's size. The source keeps a
  separate counter in step with it.
- Configs.BigEnoughToGrow: the bound `2 / 5 * minRadius` is an integer division, so the
  model, like the source, compares with 0.
- Nodes.SibConflictAngle, Nodes.BaseAngle and Nodes.ToRelativeAngle state ranges and the
  far-sibling case, not the exact projection arithmetic.
- Adjusting.NhbrTurn and Adjusting.TryAdjustToNhbrs state acceptance and the
  tried-angle bookkeeping, not which angle the search lands on.
- Growth.Grow and Growth.SproutStumps state health, budget and what changes, not the
  exact pass count or stall test.
- The configuration's interface setup (`ScrollGenUI.cs`) is not part of this model.

## Findings

| source | as written | input that shows it | evidently intended | confidence | as-written member | corrected member |
|---|---|---|---|---|---|---|
| SpiralTree.cs:344-381 | for a leafless root of a twin tree, `FirstOpenAngl` reads `Nodes[1]` | a twin tree whose twin failed the edge check in `GrowTwins` (SpiralTree.cs:333), so only the root is in the list | treat the lone root as a single root (start at `startAt`) | high, not executed | Trees.FirstOpenAnglAsWritten (shown by Trees.DroppedTwinFails, Trees.TwinCanBeDropped) | Trees.FirstOpenAngl |
| SpiralTree.cs:1031 | after promotion, `ReslotAngl(leafSlot)` decrements by default and gives the angle of the slot below, or no angle at slot 0 | a tiny leaf in slot 1 whose redrawn slot-0 radius is big enough | the promoted slot's own angle, as `TryToFit` asks for with `false` at SpiralTree.cs:850 | medium, not executed | Growth.PromoteTinyLeafAsWritten (shown by Growth.PromotedToSlotZeroHasNoAngle) | Growth.PromoteTinyLeaf |
