/** Per-bit deskew: search the eyes, then move DQS and every DQ pin so that all
    sampling points sit in the middle of their eyes. The read routine moves
    DQS; the write routine of this build leaves it where it is. */
module Deskew {
  import opened EyeSearch

  // --------------------------------------------------------------- The arithmetic

  /** Division by two as C does it: towards zero. */
  function Half(x: int): (h: int) {
    if x >= 0 then x / 2 else -((-x) / 2)
  }

  /** The shift for the narrowest-leaning bit, biased to the right. */
  function Rounded(m: int): int {
    Half(if m > 0 then m + 1 else m)
  }

  function Clamp(x: int, max: int): (c: int)
    requires 0 <= max
    ensures 0 <= c <= max
  {
    if x > max then max else if x < 0 then 0 else x
  }

  function Mid(l: seq<int>, r: seq<int>, i: nat): int
    requires |l| == |r| && i < |l|
  {
    l[i] - r[i]
  }

  /** The bit with the smallest sum of its edges; the first of several. */
  ghost predicate IsMinIndex(l: seq<int>, r: seq<int>, m: nat) {
    && |l| == |r| && m < |l|
    && (forall i :: 0 <= i < |l| ==> Mid(l, r, m) <= Mid(l, r, i))
    && (forall i :: 0 <= i < m ==> Mid(l, r, m) < Mid(l, r, i))
  }

  /** Where the pin would sit if the delay chains were unlimited: its distance
      from the start, DQ delay minus DQS shift. */
  function Target(mid: int, minMid: int): int { Half(mid - minMid) + Rounded(minMid) }

  /** The new DQS delay. */
  function NewDqs(side: Side, lim: Limits, start: int, minMid: int): (dqs: int)
    requires 0 <= start <= lim.dqsMax
    ensures 0 <= dqs <= lim.dqsMax
  {
    if side.ReadSide? then Clamp(start - Rounded(minMid), lim.dqsMax) else start
  }

  /** The new DQ delay of a pin that starts at zero. */
  function NewDq(side: Side, lim: Limits, start: int, mid: int, minMid: int): (dq: int)
    requires 0 <= start <= lim.dqsMax
    ensures 0 <= dq <= lim.dqMax
  {
    Clamp(Half(mid - minMid) + (Rounded(minMid) - (start - NewDqs(side, lim, start, minMid))), lim.dqMax)
  }

  /** Where the pin ends up. */
  function Position(side: Side, lim: Limits, start: int, mid: int, minMid: int): int
    requires 0 <= start <= lim.dqsMax
  {
    NewDq(side, lim, start, mid, minMid) + (start - NewDqs(side, lim, start, minMid))
  }

  /** Clamping the DQS move costs nothing by itself: only a clamped DQ delay
      keeps a pin from its target. */
  lemma PositionIsTarget(side: Side, lim: Limits, start: int, mid: int, minMid: int)
    requires 0 <= start <= lim.dqsMax
    requires var t := Target(mid, minMid); var moved := start - NewDqs(side, lim, start, minMid);
             0 <= t - moved <= lim.dqMax
    ensures Position(side, lim, start, mid, minMid) == Target(mid, minMid)
  {
  }

  /** At its target a pin's two margins differ by at most one tap, whatever C's
      rounding does with negative sums: the upper one is larger when the pin's sum has
      another parity than the smallest, and smaller when the smallest is odd. */
  lemma TargetIsCentred(l: int, r: int, minMid: int)
    requires minMid <= l - r
    ensures var t := Target(l - r, minMid); (l - t) - (r + t) == (l - r - minMid) % 2 - minMid % 2
  {
  }

  /** So a non-empty eye contains its target. */
  lemma TargetInEye(l: int, r: int, minMid: int)
    requires minMid <= l - r && -r <= l
    ensures -r <= Target(l - r, minMid) <= l
  {
    TargetIsCentred(l, r, minMid);
  }

  /** The edges of an eye on the axis. */
  ghost predicate EdgesOnAxis(lim: Limits, start: int, l: int, r: int) {
    -(lim.dqsMax - start) <= -r <= l <= lim.dqMax
  }

  ghost predicate AllOnAxis(lim: Limits, start: int, l: seq<int>, r: seq<int>) {
    |l| == |r| && forall i :: 0 <= i < |l| ==> EdgesOnAxis(lim, start, l[i], r[i])
  }

  /** Read side: the DQ delay is never cut off at zero, and a pin misses its eye
      exactly when even the longest DQ delay does not reach the eye's bottom. */
  lemma ReadReach(lim: Limits, start: int, l: int, r: int, minL: int, minR: int)
    requires 0 <= start <= lim.dqsMax && EdgesOnAxis(lim, start, l, r) && EdgesOnAxis(lim, start, minL, minR)
    requires minL - minR <= l - r
    ensures var m := minL - minR;
            var moved := start - NewDqs(ReadSide, lim, start, m);
            var pos := Position(ReadSide, lim, start, l - r, m);
            && (-r <= pos <= l <==> -r <= lim.dqMax + moved)
            && (pos - moved < lim.dqMax ==> pos == Target(l - r, m))
            && (NewDq(ReadSide, lim, start, m, m) == 0 || NewDqs(ReadSide, lim, start, m) == 0)
  {
    var m := minL - minR;
    TargetInEye(l, r, m);
    assert Rounded(m) >= -(lim.dqsMax - start);
    assert Half(l - r - m) >= 0;
  }

  /** Write side: DQS stays, the DQ delay is never cut off at its maximum, and a
      pin misses its eye exactly when the whole eye asks for a negative delay. */
  lemma WriteReach(lim: Limits, start: int, l: int, r: int, minL: int, minR: int)
    requires 0 <= start <= lim.dqsMax && EdgesOnAxis(lim, start, l, r) && EdgesOnAxis(lim, start, minL, minR)
    requires minL - minR <= l - r
    ensures var m := minL - minR;
            var pos := Position(WriteSide, lim, start, l - r, m);
            && (-r <= pos <= l <==> 0 <= l)
            && (pos > 0 ==> pos == Target(l - r, m))
  {
    TargetInEye(l, r, minL - minR);
  }

  // ---------------------------------------------------------------- The procedure

  method FindMin(left: array<int>, right: array<int>) returns (midMin: int, minIndex: nat)
    requires left.Length == right.Length >= 1
    ensures IsMinIndex(left[..], right[..], minIndex) && midMin == Mid(left[..], right[..], minIndex)
  {
    midMin, minIndex := left[0] - right[0], 0;
    for i := 1 to left.Length
      invariant minIndex < i && midMin == left[minIndex] - right[minIndex]
      invariant forall k :: 0 <= k < i ==> midMin <= left[k] - right[k]
      invariant forall k :: 0 <= k < minIndex ==> midMin < left[k] - right[k]
    {
      var mid := left[i] - right[i];
      if mid < midMin {
        midMin, minIndex := mid, i;
      }
    }
  }

  /** The DQ shift a pin asks for. */
  function Wanted(l: seq<int>, r: seq<int>, minIndex: nat, rest: int, i: nat): int
    requires |l| == |r| && minIndex < |l| && i < |l|
  {
    Half(Mid(l, r, i) - Mid(l, r, minIndex)) + rest
  }

  /** Adds a shift to a pin's delay, cut off at both ends of the chain. */
  method ShiftPin(g: Group, lim: Limits, i: nat, want: int) returns (shiftDq: int)
    requires g.dq.Length == g.n && i < g.n && 0 <= g.dq[i] <= lim.dqMax
    modifies g.dq
    ensures g.dq[i] == Clamp(old(g.dq[i]) + want, lim.dqMax) == old(g.dq[i]) + shiftDq
    ensures forall k :: 0 <= k < g.n && k != i ==> g.dq[k] == old(g.dq[k])
  {
    shiftDq := want;
    if shiftDq + g.dq[i] > lim.dqMax {
      shiftDq := lim.dqMax - g.dq[i];
    } else if shiftDq + g.dq[i] < 0 {
      shiftDq := -g.dq[i];
    }
    g.dq[i] := g.dq[i] + shiftDq;
  }

  /** Gives every DQ pin its delay and measures the worst margins. Both are
      non-negative exactly when no pin lies outside its edges. */
  method MoveDq(g: Group, lim: Limits, left: array<int>, right: array<int>, minIndex: nat, origMidMin: int, midMin: int)
      returns (dqMargin: int, dqsMargin: int)
    requires Separate(g, left, right) && minIndex < g.n
    requires forall i :: 0 <= i < g.n ==> g.dq[i] == 0
    modifies g.dq
    ensures forall i :: 0 <= i < g.n ==>
              g.dq[i] == Clamp(Wanted(left[..], right[..], minIndex, origMidMin - midMin, i), lim.dqMax)
    ensures dqMargin >= 0 <==> forall i :: 0 <= i < g.n ==> g.dq[i] + midMin <= left[i]
    ensures dqsMargin >= 0 <==> forall i :: 0 <= i < g.n ==> -right[i] <= g.dq[i] + midMin
  {
    dqsMargin := lim.dqMax + 1;
    dqMargin := lim.dqMax + 1;
    ghost var l, r := left[..], right[..];
    for i := 0 to g.n
      invariant forall k :: i <= k < g.n ==> g.dq[k] == 0
      invariant forall k :: 0 <= k < i ==>
                  g.dq[k] == Clamp(Wanted(l, r, minIndex, origMidMin - midMin, k), lim.dqMax)
      invariant dqMargin >= 0 <==> forall k :: 0 <= k < i ==> g.dq[k] + midMin <= left[k]
      invariant dqsMargin >= 0 <==> forall k :: 0 <= k < i ==> -right[k] <= g.dq[k] + midMin
    {
      var want := Half(left[i] - right[i] - (left[minIndex] - right[minIndex])) + (origMidMin - midMin);
      ghost var was := g.dq[..];
      var shiftDq := ShiftPin(g, lim, i, want);
      assert forall k :: 0 <= k < i ==> g.dq[k] == was[k];
      if left[i] - shiftDq + (-midMin) < dqMargin {
        dqMargin := left[i] - shiftDq + (-midMin);
      }
      if right[i] + shiftDq - (-midMin) < dqsMargin {
        dqsMargin := right[i] + shiftDq - (-midMin);
      }
    }
  }

  /** Every register as the edges and the smallest sum of edges ask for it. */
  ghost predicate Placed(side: Side, lim: Limits, start: int, l: seq<int>, r: seq<int>, minMid: int,
                         dq: seq<int>, dqs: int) {
    && 0 <= start <= lim.dqsMax && |dq| == |l| == |r|
    && dqs == NewDqs(side, lim, start, minMid)
    && forall i :: 0 <= i < |dq| ==> dq[i] == NewDq(side, lim, start, Mid(l, r, i), minMid)
  }

  /** Every pin's position lies between its edges. */
  ghost predicate AllWithin(l: seq<int>, r: seq<int>, dq: seq<int>, moved: int) {
    |dq| == |l| == |r| && forall i :: 0 <= i < |dq| ==> -r[i] <= dq[i] + moved <= l[i]
  }

  /** How far DQS is to move, and its new delay. */
  method MoveDqs(side: Side, lim: Limits, start: int, least: int) returns (origMidMin: int, midMin: int, newDqs: int)
    requires 0 <= start <= lim.dqsMax
    ensures origMidMin == Rounded(least) && newDqs == NewDqs(side, lim, start, least) && midMin == start - newDqs
  {
    midMin := least;
    if midMin > 0 {
      midMin := midMin + 1;
    }
    midMin := Half(midMin);
    origMidMin := midMin;
    if side.ReadSide? {
      newDqs := start - midMin;
      if newDqs > lim.dqsMax {
        newDqs := lim.dqsMax;
      } else if newDqs < 0 {
        newDqs := 0;
      }
      midMin := start - newDqs;
    } else {
      newDqs := start;
      midMin := 0;
    }
  }

  /** Centres all pins of a group whose edges are known. */
  method Centre(side: Side, g: Group, lim: Limits, start: int, left: array<int>, right: array<int>)
      returns (ok: bool, ghost minIndex: nat)
    requires Separate(g, left, right) && g.n >= 1
    requires forall i :: 0 <= i < g.n ==> g.dq[i] == 0
    requires 0 <= start <= lim.dqsMax
    modifies g`dqs, g.dq
    ensures IsMinIndex(left[..], right[..], minIndex)
    ensures Placed(side, lim, start, left[..], right[..], Mid(left[..], right[..], minIndex), g.dq[..], g.dqs)
    ensures ok <==> AllWithin(left[..], right[..], g.dq[..], start - g.dqs)
  {
    var least, index := FindMin(left, right);
    minIndex := index;
    var origMidMin, midMin, newDqs := MoveDqs(side, lim, start, least);
    var dqMargin, dqsMargin := MoveDq(g, lim, left, right, index, origMidMin, midMin);
    g.dqs := newDqs;
    ok := dqMargin >= 0 && dqsMargin >= 0;
  }

  /** One pin after centring, in terms of its edges: inside exactly when the
      delay chains reach that far, and in the middle unless its chain ended. */
  ghost predicate PinFacts(side: Side, lim: Limits, l: int, r: int, dq: int, moved: int) {
    && (-r <= dq + moved <= l <==> if side.ReadSide? then -r <= lim.dqMax + moved else 0 <= l)
    && ((if side.ReadSide? then dq < lim.dqMax else dq > 0) ==> -1 <= (l - (dq + moved)) - (dq + moved + r) <= 1)
  }

  lemma PinPosition(side: Side, lim: Limits, start: int, l: int, r: int, mid: int, minL: int, minR: int, minMid: int,
                    dq: int, moved: int)
    requires 0 <= start <= lim.dqsMax && EdgesOnAxis(lim, start, l, r) && EdgesOnAxis(lim, start, minL, minR)
    requires mid == l - r && minMid == minL - minR <= mid
    requires dq == NewDq(side, lim, start, mid, minMid) && moved == start - NewDqs(side, lim, start, minMid)
    ensures PinFacts(side, lim, l, r, dq, moved)
  {
    TargetIsCentred(l, r, minMid);
    if side.ReadSide? {
      ReadReach(lim, start, l, r, minL, minR);
    } else {
      WriteReach(lim, start, l, r, minL, minR);
    }
  }

  ghost predicate FactsAt(side: Side, lim: Limits, l: seq<int>, r: seq<int>, dq: seq<int>, moved: int, i: nat)
    requires i < |dq| == |l| == |r|
  {
    PinFacts(side, lim, l[i], r[i], dq[i], moved)
  }

  ghost predicate AllPinFacts(side: Side, lim: Limits, l: seq<int>, r: seq<int>, dq: seq<int>, moved: int) {
    |dq| == |l| == |r| && forall i: nat :: i < |dq| ==> FactsAt(side, lim, l, r, dq, moved, i)
  }

  lemma PinAt(side: Side, lim: Limits, start: int, l: seq<int>, r: seq<int>, m: nat, i: nat, dq: int, moved: int)
    requires 0 <= start <= lim.dqsMax && AllOnAxis(lim, start, l, r) && IsMinIndex(l, r, m) && i < |l|
    requires dq == NewDq(side, lim, start, Mid(l, r, i), Mid(l, r, m))
    requires moved == start - NewDqs(side, lim, start, Mid(l, r, m))
    ensures PinFacts(side, lim, l[i], r[i], dq, moved)
  {
    var mid, minMid := Mid(l, r, i), Mid(l, r, m);
    assert minMid <= mid;
    PinPosition(side, lim, start, l[i], r[i], mid, l[m], r[m], minMid, dq, moved);
  }

  /** Every pin of a group whose edges lie on the reachable axis. */
  lemma AllPinPositions(side: Side, lim: Limits, start: int, l: seq<int>, r: seq<int>, m: nat, dq: seq<int>, dqs: int)
    requires AllOnAxis(lim, start, l, r) && IsMinIndex(l, r, m)
    requires Placed(side, lim, start, l, r, Mid(l, r, m), dq, dqs)
    ensures AllPinFacts(side, lim, l, r, dq, start - dqs)
  {
    var moved := start - dqs;
    forall i: nat | i < |dq| ensures FactsAt(side, lim, l, r, dq, moved, i) {
      PinAt(side, lim, start, l, r, m, i, dq[i], moved);
    }
  }

  // -------------------------------------------------------------------- The result

  /** Position x lies between the ends of bit i's eye. */
  ghost predicate InsideEye(ax: Axis, i: int, x: int) { ax.Bottom(i) <= x <= ax.Top(i) }

  /** The two margins at position x differ by at most one tap. */
  ghost predicate Centred(ax: Axis, i: int, x: int) { -1 <= (ax.Top(i) - x) - (x - ax.Bottom(i)) <= 1 }

  /** What the delay chains must allow for pin i: on the read side that the
      longest DQ delay reaches the bottom of its eye, on the write side that its
      eye does not lie wholly below the starting point. */
  ghost predicate Reachable(side: Side, ax: Axis, i: int, moved: int) {
    if side.ReadSide? then ax.Bottom(i) <= ax.up + moved else 0 <= ax.Top(i)
  }

  /** One pin after centring: inside its eye exactly when that was reachable,
      and in the middle unless its delay chain ended. */
  ghost predicate PinOutcome(side: Side, ax: Axis, i: int, dq: int, moved: int) {
    && (InsideEye(ax, i, dq + moved) <==> Reachable(side, ax, i, moved))
    && ((if side.ReadSide? then dq < ax.up else dq > 0) ==> Centred(ax, i, dq + moved))
  }

  lemma InsidePasses(ax: Axis, i: int, l: int, r: int, x: int)
    requires ax.OneInterval(i) && -ax.down <= -r <= x <= l <= ax.up
    requires ax.Pass(i, l) && ax.Pass(i, -r)
    ensures ax.Pass(i, x)
  {
    if -r < x < l {
      Between(ax, i, -r, x, l);
    }
  }

  ghost predicate OutcomeAt(side: Side, ax: Axis, dq: seq<int>, moved: int, i: nat)
    requires i < |dq|
  {
    PinOutcome(side, ax, i, dq[i], moved)
  }

  ghost predicate AllOutcomes(side: Side, ax: Axis, dq: seq<int>, moved: int) {
    forall i: nat :: i < |dq| ==> OutcomeAt(side, ax, dq, moved, i)
  }

  ghost predicate AllReachable(side: Side, ax: Axis, n: nat, moved: int) {
    forall i :: 0 <= i < n ==> Reachable(side, ax, i, moved)
  }

  ghost predicate PassAt(eye: Oracle, dq: seq<int>, dqs: int, i: nat)
    requires i < |dq|
  {
    eye(i, dq[i] - dqs)
  }

  /** The test passes on every bit with these registers. */
  ghost predicate AllPass(eye: Oracle, dq: seq<int>, dqs: int) {
    forall i: nat :: i < |dq| ==> PassAt(eye, dq, dqs, i)
  }

  /** The sum of the ends of an eye. */
  ghost function EyeMid(ax: Axis, i: int): int { ax.Top(i) + ax.Bottom(i) }

  /** The smallest of these sums: what the group moves DQS by, times two. */
  ghost function LeastMid(ax: Axis, n: nat): int
    requires n >= 1
  {
    if n == 1 then EyeMid(ax, 0)
    else if LeastMid(ax, n - 1) <= EyeMid(ax, n - 1) then LeastMid(ax, n - 1) else EyeMid(ax, n - 1)
  }

  lemma {:induction false} LeastMidIs(ax: Axis, n: nat) returns (k: nat)
    requires n >= 1
    ensures k < n && LeastMid(ax, n) == EyeMid(ax, k)
    ensures forall i :: 0 <= i < n ==> LeastMid(ax, n) <= EyeMid(ax, i)
  {
    if n == 1 {
      k := 0;
    } else {
      k := LeastMidIs(ax, n - 1);
      if LeastMid(ax, n - 1) > EyeMid(ax, n - 1) {
        k := n - 1;
      }
    }
  }

  /** How far DQS moves down, in terms of the eyes. */
  ghost function Shift(side: Side, lim: Limits, ax: Axis, n: nat): int
    requires n >= 1 && 0 <= ax.start <= lim.dqsMax
  {
    ax.start - NewDqs(side, lim, ax.start, LeastMid(ax, n))
  }

  ghost predicate RegisterAt(side: Side, lim: Limits, ax: Axis, dq: seq<int>, least: int, i: nat)
    requires i < |dq| && 0 <= ax.start <= lim.dqsMax
  {
    dq[i] == NewDq(side, lim, ax.start, EyeMid(ax, i), least)
  }

  /** Every register in terms of the eyes. */
  ghost predicate Registers(side: Side, lim: Limits, ax: Axis, dq: seq<int>, dqs: int) {
    && |dq| >= 1 && 0 <= ax.start <= lim.dqsMax
    && dqs == NewDqs(side, lim, ax.start, LeastMid(ax, |dq|))
    && forall i: nat :: i < |dq| ==> RegisterAt(side, lim, ax, dq, LeastMid(ax, |dq|), i)
  }

  lemma ExactOnAxis(ax: Axis, lim: Limits, l: seq<int>, r: seq<int>)
    requires 0 <= ax.start <= lim.dqsMax && ax == AxisOf(ax.eye, ax.start, lim) && ExactEdges(ax, l, r)
    ensures AllOnAxis(lim, ax.start, l, r)
  {
  }

  lemma ExactMid(ax: Axis, l: seq<int>, r: seq<int>, i: nat)
    requires ExactEdges(ax, l, r) && i < |l|
    ensures Mid(l, r, i) == EyeMid(ax, i)
  {
  }

  lemma LeastIsMin(ax: Axis, l: seq<int>, r: seq<int>, m: nat)
    requires ExactEdges(ax, l, r) && IsMinIndex(l, r, m)
    ensures Mid(l, r, m) == LeastMid(ax, |l|)
  {
    var i := LeastMidIs(ax, |l|);
    ExactMid(ax, l, r, i);
    ExactMid(ax, l, r, m);
  }

  lemma PlacedByEyes(side: Side, lim: Limits, ax: Axis, l: seq<int>, r: seq<int>, m: nat, dq: seq<int>, dqs: int)
    requires ExactEdges(ax, l, r) && IsMinIndex(l, r, m)
    requires Placed(side, lim, ax.start, l, r, Mid(l, r, m), dq, dqs)
    ensures Registers(side, lim, ax, dq, dqs)
  {
    LeastIsMin(ax, l, r, m);
    forall i: nat | i < |dq| ensures RegisterAt(side, lim, ax, dq, LeastMid(ax, |dq|), i) {
      ExactMid(ax, l, r, i);
    }
  }

  /** What the two margins tell about the eyes of all pins. */
  lemma Verdict(side: Side, ax: Axis, lim: Limits, l: seq<int>, r: seq<int>, dq: seq<int>, moved: int)
    requires ax.up == lim.dqMax && ExactEdges(ax, l, r) && AllPinFacts(side, lim, l, r, dq, moved)
    requires forall i :: 0 <= i < |dq| ==> ax.OneInterval(i)
    ensures AllOutcomes(side, ax, dq, moved)
    ensures AllReachable(side, ax, |dq|, moved) <==> AllWithin(l, r, dq, moved)
    ensures AllReachable(side, ax, |dq|, moved) ==> AllPass(ax.eye, dq, ax.start - moved)
  {
    forall i: nat | i < |dq|
      ensures OutcomeAt(side, ax, dq, moved, i)
      ensures Reachable(side, ax, i, moved) <==> -r[i] <= dq[i] + moved <= l[i]
      ensures -r[i] <= dq[i] + moved <= l[i] ==> PassAt(ax.eye, dq, ax.start - moved, i)
    {
      assert FactsAt(side, lim, l, r, dq, moved, i);
      if -r[i] <= dq[i] + moved <= l[i] {
        InsidePasses(ax, i, l[i], r[i], dq[i] + moved);
      }
    }
  }

  /** Registers placed by exact edges: what becomes of every pin, and when no pin
      lies outside its edges. */
  lemma PlacedInEyes(side: Side, lim: Limits, ax: Axis, l: seq<int>, r: seq<int>, m: nat, dq: seq<int>, dqs: int,
                     moved: int)
    requires 0 <= ax.start <= lim.dqsMax && ax == AxisOf(ax.eye, ax.start, lim) && ExactEdges(ax, l, r)
    requires forall i :: 0 <= i < |dq| ==> ax.OneInterval(i)
    requires IsMinIndex(l, r, m) && Placed(side, lim, ax.start, l, r, Mid(l, r, m), dq, dqs) && moved == ax.start - dqs
    ensures AllOutcomes(side, ax, dq, moved)
    ensures AllReachable(side, ax, |dq|, moved) <==> AllWithin(l, r, dq, moved)
    ensures AllReachable(side, ax, |dq|, moved) ==> AllPass(ax.eye, dq, ax.start - moved)
  {
    assert AllPinFacts(side, lim, l, r, dq, moved) by {
      ExactOnAxis(ax, lim, l, r);
      AllPinPositions(side, lim, ax.start, l, r, m, dq, dqs);
    }
    Verdict(side, ax, lim, l, r, dq, moved);
  }

  /** What the routine promises about a group all of whose bits have eyes. */
  ghost predicate Result(side: Side, lim: Limits, ax: Axis, dq: seq<int>, dqs: int, ok: bool) {
    && Registers(side, lim, ax, dq, dqs)
    && AllOutcomes(side, ax, dq, ax.start - dqs)
    && (ok <==> AllReachable(side, ax, |dq|, Shift(side, lim, ax, |dq|)))
    && (ok ==> AllPass(ax.eye, dq, dqs))
  }

  lemma ResultIs(side: Side, lim: Limits, ax: Axis, dq: seq<int>, dqs: int, moved: int, ok: bool)
    requires Registers(side, lim, ax, dq, dqs) && moved == ax.start - dqs
    requires AllOutcomes(side, ax, dq, moved)
    requires ok <==> AllReachable(side, ax, |dq|, moved)
    requires ok ==> AllPass(ax.eye, dq, ax.start - moved)
    ensures Result(side, lim, ax, dq, dqs, ok)
  {
    assert Shift(side, lim, ax, |dq|) == moved;
  }

  /** DQS moves as far as it can, so that no DQ delay is spent needlessly: on the
      read side DQS ends at zero or the narrowest-leaning pin has no delay. */
  lemma NothingSpentNeedlessly(lim: Limits, ax: Axis, dq: seq<int>, dqs: int)
    requires 0 <= ax.start <= lim.dqsMax && ax == AxisOf(ax.eye, ax.start, lim)
    requires Registers(ReadSide, lim, ax, dq, dqs)
    requires forall i :: 0 <= i < |dq| ==> ax.HasEye(i)
    ensures dqs == 0 || exists i :: 0 <= i < |dq| && dq[i] == 0
  {
    var i := LeastMidIs(ax, |dq|);
    EyeEndsOnAxis(ax, i);
    ReadReach(lim, ax.start, ax.Top(i), -ax.Bottom(i), ax.Top(i), -ax.Bottom(i));
    assert RegisterAt(ReadSide, lim, ax, dq, EyeMid(ax, i), i);
  }

  lemma {:induction false} TopOnAxis(ax: Axis, i: int, x: int, from: int)
    requires -ax.down <= x <= from && ax.Pass(i, x)
    ensures x <= ax.TopFrom(i, from) <= from
    decreases from - x
  {
    if !ax.Pass(i, from) {
      TopOnAxis(ax, i, x, from - 1);
    }
  }

  lemma {:induction false} BottomOnAxis(ax: Axis, i: int, x: int, from: int)
    requires from <= x <= ax.up && ax.Pass(i, x)
    ensures from <= ax.BottomFrom(i, from) <= x
    decreases x - from
  {
    if !ax.Pass(i, from) {
      BottomOnAxis(ax, i, x, from + 1);
    }
  }

  lemma EyeEndsOnAxis(ax: Axis, i: int)
    requires ax.HasEye(i)
    ensures -ax.down <= ax.Bottom(i) <= ax.Top(i) <= ax.up
  {
    var x :| -ax.down <= x <= ax.up && ax.Pass(i, x);
    TopOnAxis(ax, i, x, ax.up);
    BottomOnAxis(ax, i, x, -ax.down);
  }

  lemma RegistersWithinLimits(side: Side, lim: Limits, ax: Axis, dq: seq<int>, dqs: int)
    requires Registers(side, lim, ax, dq, dqs)
    ensures 0 <= dqs <= lim.dqsMax && forall i :: 0 <= i < |dq| ==> 0 <= dq[i] <= lim.dqMax
  {
    forall i: nat | i < |dq| ensures 0 <= dq[i] <= lim.dqMax {
      assert RegisterAt(side, lim, ax, dq, LeastMid(ax, |dq|), i);
    }
  }

  /** The whole routine. With the eyes known beforehand so is everything it does:
      the group is accepted exactly when every bit has an eye on the reachable
      axis and the delay chains reach it from where the least of the eyes' middles
      puts DQS; every register follows from the eyes; then every pin sits inside
      its own eye, so that it passes with the final registers, and in its middle
      unless its delay chain ends there. A group with a bit that has no eye keeps
      its DQS delay on the read side. */
  method CentreGroup(side: Side, g: Group, lim: Limits, ghost ax: Axis) returns (ok: bool)
    requires g.dq.Length == g.n >= 1
    requires 0 <= g.dqs <= lim.dqsMax && ax == AxisOf(g.eye, g.dqs, lim) && ax.down <= ax.up
    requires forall i :: 0 <= i < g.n ==> ax.OneInterval(i)
    modifies g`dqs, g.dq
    ensures AllEyes(ax, g.n) <==> EyesEverywhere(g.eye, lim, old(g.dqs), g.n)
    ensures AllEyes(ax, g.n) ==> Result(side, lim, ax, g.dq[..], g.dqs, ok)
    ensures !AllEyes(ax, g.n) ==> !ok && 0 <= g.dqs <= lim.dqsMax && forall i :: 0 <= i < g.n ==> g.dq[i] == 0
    ensures !AllEyes(ax, g.n) && side.ReadSide? ==> g.dqs == ax.start
  {
    var start := g.dqs;
    var left, right;
    EyesInRegisters(g.eye, lim, start, g.n);
    ok, left, right := SearchEdges(side, g, lim, ax);
    if !ok {
      if side.ReadSide? {
        g.dqs := start;
      }
      return;
    }
    ghost var m;
    ok, m := Centre(side, g, lim, start, left, right);
    ghost var l, r, dq, moved := left[..], right[..], g.dq[..], start - g.dqs;
    PlacedByEyes(side, lim, ax, l, r, m, dq, g.dqs);
    PlacedInEyes(side, lim, ax, l, r, m, dq, g.dqs, moved);
    ResultIs(side, lim, ax, dq, g.dqs, moved, ok);
  }

  lemma RoundsDown(x: int)
    ensures x >= 0 ==> Half(x) == x / 2
    ensures Rounded(x) == (x + 1) / 2
  {
  }

  /** The registers in plain numbers, where / rounds down: DQS moves down by half the
      smallest sum of eye ends, rounded up; each pin by half the difference of its own
      sum from the smallest and by what DQS did not move; each as far as its chain goes. */
  lemma RegistersInFull(side: Side, lim: Limits, ax: Axis, dq: seq<int>, dqs: int, i: nat)
    requires Registers(side, lim, ax, dq, dqs) && i < |dq|
    ensures var m := LeastMid(ax, |dq|);
            var aim, want := ax.start - (m + 1) / 2, (EyeMid(ax, i) - m) / 2 + (m + 1) / 2 - (ax.start - dqs);
            && dqs == (if side.WriteSide? then ax.start
                       else if aim > lim.dqsMax then lim.dqsMax else if aim < 0 then 0 else aim)
            && dq[i] == (if want > lim.dqMax then lim.dqMax else if want < 0 then 0 else want)
  {
    var k := LeastMidIs(ax, |dq|);
    assert RegisterAt(side, lim, ax, dq, LeastMid(ax, |dq|), i);
    RoundsDown(LeastMid(ax, |dq|));
    RoundsDown(EyeMid(ax, i) - LeastMid(ax, |dq|));
  }

  // ------------------------------------------------------ Eyes that are rejected

  /** One bit passes in a single position far down, one at the very top. */
  function FarApart(i: int, x: int): bool { (i == 0 && x == -20) || (i == 1 && x == 31) }

  /** One bit passes in a single position below the start. */
  function JustBelow(i: int, x: int): bool { x == -1 }

  const BUILD_LIMITS := Limits(31, 31)

  lemma SinglePosition(ax: Axis, i: int, p: int)
    requires -ax.down <= p <= ax.up && forall x :: ax.Pass(i, x) <==> x == p
    ensures ax.HasEye(i) && ax.OneInterval(i) && ax.Top(i) == ax.Bottom(i) == p
  {
    assert ax.Pass(i, p);
    TopIs(ax, i, p, ax.up);
    BottomIs(ax, i, p, -ax.down);
  }

  /** Read side, limits of this build: every bit has an eye, DQS moves to 20 for
      the lower one, and the upper one is then out of reach. */
  lemma ReadSideRejects()
    ensures var ax := AxisOf(FarApart, 0, BUILD_LIMITS);
            && (forall i :: 0 <= i < 2 ==> ax.OneInterval(i)) && AllEyes(ax, 2)
            && Shift(ReadSide, BUILD_LIMITS, ax, 2) == -20
            && !AllReachable(ReadSide, ax, 2, -20)
  {
    var ax := AxisOf(FarApart, 0, BUILD_LIMITS);
    SinglePosition(ax, 0, -20);
    SinglePosition(ax, 1, 31);
    assert LeastMid(ax, 1) == EyeMid(ax, 0) == -40 && EyeMid(ax, 1) == 62;
    assert !Reachable(ReadSide, ax, 1, -20);
  }

  /** Write side: DQS cannot move, so an eye below the start is out of reach. */
  lemma WriteSideRejects()
    ensures var ax := AxisOf(JustBelow, 0, BUILD_LIMITS);
            && ax.OneInterval(0) && AllEyes(ax, 1)
            && !AllReachable(WriteSide, ax, 1, Shift(WriteSide, BUILD_LIMITS, ax, 1))
  {
    var ax := AxisOf(JustBelow, 0, BUILD_LIMITS);
    SinglePosition(ax, 0, -1);
    assert !Reachable(WriteSide, ax, 0, Shift(WriteSide, BUILD_LIMITS, ax, 1));
  }
}
