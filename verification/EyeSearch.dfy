/** Per-bit eye search of the deskew steps: one sweep of the DQ delays, one of
    the DQS delay, with early stops and an illegal value for "not seen". The
    hardware test is a pass/fail oracle of the skew between DQ and DQS. */
module EyeSearch {

  /** Bit i passes at skew x (DQ delay minus DQS delay). */
  type Oracle = (int, int) -> bool

  /** The tap limits of the delay chains. */
  datatype Limits = Limits(dqMax: nat, dqsMax: nat)

  /** Which of the two deskew routines runs: they differ in the sticky bits
      they start the second sweep with and in one branch of the early stop. */
  datatype Side = ReadSide | WriteSide

  /** The delay registers of one DQS group and the eyes behind them. */
  class Group {
    const n: nat
    const eye: Oracle
    const dq: array<int>
    var dqs: int

    constructor (n: nat, eye: Oracle)
      ensures this.n == n && this.eye == eye && fresh(dq) && dq.Length == n
    {
      this.n, this.eye, this.dqs := n, eye, 0;
      dq := new int[n](_ => 0);
    }

    /** Runs the test with the current registers: one result per bit. */
    method Test() returns (bits: seq<bool>)
      requires dq.Length == n
      ensures |bits| == n && forall i :: 0 <= i < n ==> bits[i] == eye(i, dq[i] - dqs)
    {
      bits := [];
      for i := 0 to n
        invariant |bits| == i && forall k :: 0 <= k < i ==> bits[k] == eye(k, dq[k] - dqs)
      {
        bits := bits + [eye(i, dq[i] - dqs)];
      }
    }

    /** Same delay on every DQ pin of the group. */
    method ApplyDq(d: int)
      requires dq.Length == n
      modifies dq
      ensures forall i :: 0 <= i < n ==> dq[i] == d
    {
      for i := 0 to n
        invariant forall k :: 0 <= k < i ==> dq[k] == d
      {
        dq[i] := d;
      }
    }
  }

  // ------------------------------------------------------------- What an eye is

  /** Positions are counted from the starting DQS delay: up with the DQ delay,
      down with the DQS delay. The sweeps reach positions -down..up. */
  datatype Axis = Axis(eye: Oracle, start: int, up: int, down: int)
  {
    predicate Pass(i: int, x: int) { eye(i, x - start) }

    ghost predicate OneInterval(i: int) {
      forall x, y, z :: -down <= x < y < z <= up && Pass(i, x) && Pass(i, z) ==> Pass(i, y)
    }

    ghost predicate HasEye(i: int) { exists x :: -down <= x <= up && Pass(i, x) }

    ghost predicate IsTop(i: int, x: int) {
      -down <= x <= up && Pass(i, x) && forall y :: x < y <= up ==> !Pass(i, y)
    }

    ghost predicate IsBottom(i: int, x: int) {
      -down <= x <= up && Pass(i, x) && forall y :: -down <= y < x ==> !Pass(i, y)
    }

    /** The highest passing position not above x, or one below the axis. */
    ghost function TopFrom(i: int, x: int): int
      decreases x + down
    {
      if x < -down then -down - 1 else if Pass(i, x) then x else TopFrom(i, x - 1)
    }

    /** The lowest passing position not below x, or one above the axis. */
    ghost function BottomFrom(i: int, x: int): int
      decreases up - x
    {
      if x > up then up + 1 else if Pass(i, x) then x else BottomFrom(i, x + 1)
    }

    /** The ends of bit i's eye on the axis. */
    ghost function Top(i: int): int { TopFrom(i, up) }

    ghost function Bottom(i: int): int { BottomFrom(i, -down) }

    /** The value that marks an edge as not seen. */
    function Illegal(): int { up + 1 }
  }

  lemma {:induction false} TopIs(ax: Axis, i: int, x: int, from: int)
    requires -ax.down <= x <= from && ax.Pass(i, x) && forall y :: x < y <= from ==> !ax.Pass(i, y)
    ensures ax.TopFrom(i, from) == x
    decreases from - x
  {
    if x < from {
      TopIs(ax, i, x, from - 1);
    }
  }

  lemma {:induction false} BottomIs(ax: Axis, i: int, x: int, from: int)
    requires from <= x <= ax.up && ax.Pass(i, x) && forall y :: from <= y < x ==> !ax.Pass(i, y)
    ensures ax.BottomFrom(i, from) == x
    decreases x - from
  {
    if from < x {
      BottomIs(ax, i, x, from + 1);
    }
  }

  /** The axis of a group whose search starts now. */
  function AxisOf(eye: Oracle, dqs: int, lim: Limits): Axis
    requires 0 <= dqs <= lim.dqsMax
  {
    Axis(eye, dqs, lim.dqMax, lim.dqsMax - dqs)
  }

  // --------------------------------------------------------- What the sweeps know

  /** One bit after the DQ sweep has tried positions 0..d-1. */
  ghost predicate LeftKnows(ax: Axis, i: int, d: int, l: int, r: int) {
    if l == ax.Illegal() then
      && (forall x :: 0 <= x < d ==> !ax.Pass(i, x))
      && r == (if d == 0 then ax.Illegal() else -d)
    else
      && 0 <= l < d && ax.Pass(i, l) && (forall x :: l < x < d ==> !ax.Pass(i, x))
      && (if r == ax.Illegal() then ax.Pass(i, 0)
          else 1 <= -r <= l && ax.Pass(i, -r) && (forall x :: 0 <= x < -r ==> !ax.Pass(i, x)))
  }

  /** One bit after the whole DQ sweep, with a guessed right edge withdrawn when
      the bit never passed. */
  ghost predicate LeftResult(ax: Axis, i: int, l: int, r: int) {
    if l == ax.Illegal() then
      r == ax.Illegal() && (forall x :: 0 <= x <= ax.up ==> !ax.Pass(i, x))
    else
      LeftKnows(ax, i, ax.up + 1, l, r)
  }

  /** One bit after the DQS sweep has tried positions 0..-(d-1), when the DQ
      sweep ended with edges l0 and r0. */
  ghost predicate RightKnows(ax: Axis, i: int, d: int, l0: int, r0: int, l: int, r: int) {
    if r0 != ax.Illegal() then
      l == l0 && r == r0
    else if r == ax.Illegal() then
      && (forall x :: -d < x <= 0 ==> !ax.Pass(i, x))
      && l == (if d == 0 || l0 != ax.Illegal() then l0 else -d)
    else
      && 0 <= r < d && ax.Pass(i, -r) && (forall x :: -d < x < -r ==> !ax.Pass(i, x))
      && (if l0 != ax.Illegal() then l == l0
          else 1 <= -l <= r && ax.Pass(i, l) && (forall x :: l < x <= 0 ==> !ax.Pass(i, x)))
  }

  lemma Between(ax: Axis, i: int, x: int, y: int, z: int)
    requires ax.OneInterval(i) && -ax.down <= x < y < z <= ax.up
    requires ax.Pass(i, x) && ax.Pass(i, z)
    ensures ax.Pass(i, y)
  {
  }

  lemma LeftStops(ax: Axis, i: int, d: int, l: int, r: int)
    requires ax.OneInterval(i) && 0 <= ax.down && 0 <= d <= ax.up && LeftKnows(ax, i, d, l, r)
    requires l != ax.Illegal() && !ax.Pass(i, d)
    ensures LeftKnows(ax, i, ax.up + 1, l, r)
  {
    forall x | d < x <= ax.up && ax.Pass(i, x) ensures false {
      Between(ax, i, l, d, x);
    }
  }

  lemma RightStops(ax: Axis, i: int, d: int, l0: int, r0: int, l: int, r: int)
    requires ax.OneInterval(i) && 0 <= ax.up && 0 <= d <= ax.down && RightKnows(ax, i, d, l0, r0, l, r)
    requires r != ax.Illegal() && !ax.Pass(i, -d)
    ensures RightKnows(ax, i, ax.down + 1, l0, r0, l, r)
  {
    if r0 == ax.Illegal() {
      forall x | -ax.down <= x < -d && ax.Pass(i, x) ensures false {
        Between(ax, i, x, -d, -r);
      }
    }
  }

  /** After both sweeps the edges are exact, and a bit without an eye is the
      one whose right edge was never seen. */
  lemma EdgesAreExact(ax: Axis, i: int, l0: int, r0: int, l: int, r: int)
    requires ax.OneInterval(i) && 0 <= ax.down <= ax.up
    requires LeftResult(ax, i, l0, r0) && RightKnows(ax, i, ax.down + 1, l0, r0, l, r)
    ensures (l == ax.Illegal() || r == ax.Illegal()) <==> !ax.HasEye(i)
    ensures ax.HasEye(i) ==> ax.IsTop(i, l) && ax.IsBottom(i, -r)
  {
    if r != ax.Illegal() {
      assert ax.Pass(i, -r);
      if r0 != ax.Illegal() {
        forall y | -ax.down <= y < 0 && ax.Pass(i, y) ensures false {
          Between(ax, i, y, 0, -r);
        }
      }
    }
  }

  // ----------------------------------------------------------------- The sweeps

  predicate NoBit(bits: seq<bool>) { forall i :: 0 <= i < |bits| ==> !bits[i] }

  predicate EveryBit(bits: seq<bool>) { forall i :: 0 <= i < |bits| ==> bits[i] }

  function Or(a: seq<bool>, b: seq<bool>): (c: seq<bool>)
    requires |a| == |b|
    ensures |c| == |a| && forall i :: 0 <= i < |c| ==> c[i] == (a[i] || b[i])
  {
    if a == [] then [] else [a[0] || b[0]] + Or(a[1..], b[1..])
  }

  ghost predicate Separate(g: Group, left: array<int>, right: array<int>)
    reads g
  {
    && g.dq.Length == g.n && left.Length == g.n && right.Length == g.n
    && left != right && g.dq != left && g.dq != right
  }

  ghost predicate AllLeftKnow(ax: Axis, d: int, l: seq<int>, r: seq<int>) {
    |l| == |r| && forall i :: 0 <= i < |l| ==> LeftKnows(ax, i, d, l[i], r[i])
  }

  ghost predicate TestsAt(ax: Axis, x: int, bits: seq<bool>) {
    forall i :: 0 <= i < |bits| ==> bits[i] == ax.Pass(i, x)
  }

  /** Records one test of the first sweep in the edges of every bit. */
  method LeftUpdate(ghost ax: Axis, d: int, bits: seq<bool>, illegal: int, left: array<int>, right: array<int>)
    requires left.Length == right.Length == |bits| && left != right
    requires illegal == ax.Illegal() && 0 <= d < illegal && TestsAt(ax, d, bits)
    requires AllLeftKnow(ax, d, left[..], right[..])
    modifies left, right
    ensures AllLeftKnow(ax, d + 1, left[..], right[..])
    ensures forall i :: 0 <= i < left.Length ==>
              (left[i] != illegal <==> old(left[i]) != illegal || bits[i])
  {
    for i := 0 to left.Length
      invariant forall k :: 0 <= k < i ==> LeftKnows(ax, k, d + 1, left[k], right[k])
      invariant forall k :: 0 <= k < i ==> (left[k] != illegal <==> old(left[k]) != illegal || bits[k])
      invariant forall k :: i <= k < left.Length ==> left[k] == old(left[k]) && right[k] == old(right[k])
    {
      assert LeftKnows(ax, i, d, old(left[..])[i], old(right[..])[i]);
      if bits[i] {
        left[i] := d;
      } else {
        if left[i] == illegal {
          right[i] := -(d + 1);
        }
      }
    }
  }

  lemma AllLeftStop(ax: Axis, d: int, l: seq<int>, r: seq<int>, bits: seq<bool>)
    requires forall i :: 0 <= i < |l| ==> ax.OneInterval(i)
    requires 0 <= ax.down && 0 <= d <= ax.up && AllLeftKnow(ax, d, l, r)
    requires |bits| == |l| && TestsAt(ax, d, bits) && NoBit(bits)
    requires forall i :: 0 <= i < |l| ==> l[i] != ax.Illegal()
    ensures AllLeftKnow(ax, ax.up + 1, l, r)
  {
    forall i | 0 <= i < |l| ensures LeftKnows(ax, i, ax.up + 1, l[i], r[i]) {
      LeftStops(ax, i, d, l[i], r[i]);
    }
  }

  function Falses(n: nat): (s: seq<bool>)
    ensures |s| == n && forall i :: 0 <= i < n ==> !s[i]
  {
    if n == 0 then [] else Falses(n - 1) + [false]
  }

  /** First sweep: DQ delay up from zero. Stops early when no bit passes and
      every bit has passed before. */
  method LeftSweep(g: Group, lim: Limits, ghost ax: Axis, left: array<int>, right: array<int>)
    requires Separate(g, left, right)
    requires 0 <= g.dqs <= lim.dqsMax && ax == AxisOf(g.eye, g.dqs, lim)
    requires forall i :: 0 <= i < g.n ==> ax.OneInterval(i)
    modifies g.dq, left, right
    ensures AllLeftKnow(ax, ax.up + 1, left[..], right[..])
  {
    for i := 0 to g.n
      invariant forall k :: 0 <= k < i ==> left[k] == right[k] == lim.dqMax + 1
    {
      left[i], right[i] := lim.dqMax + 1, lim.dqMax + 1;
    }
    var sticky := Falses(g.n);
    var d := 0;
    while d <= lim.dqMax
      invariant 0 <= d <= ax.up + 1
      invariant AllLeftKnow(ax, d, left[..], right[..])
      invariant |sticky| == g.n && forall i :: 0 <= i < g.n ==> (sticky[i] <==> left[i] != ax.Illegal())
    {
      g.ApplyDq(d);
      var bits := g.Test();
      assert TestsAt(ax, d, bits);
      sticky := Or(sticky, bits);
      if NoBit(bits) && EveryBit(sticky) {
        AllLeftStop(ax, d, left[..], right[..], bits);
        break;
      }
      LeftUpdate(ax, d, bits, lim.dqMax + 1, left, right);
      d := d + 1;
    }
  }

  ghost predicate AllLeftResults(ax: Axis, l: seq<int>, r: seq<int>) {
    |l| == |r| && forall i :: 0 <= i < |l| ==> LeftResult(ax, i, l[i], r[i])
  }

  /** Between the sweeps: DQ delays back to zero, guessed right edges of bits
      that never passed withdrawn, and the sticky bits of the second sweep. */
  method BetweenSweeps(side: Side, g: Group, illegal: int, ghost ax: Axis, left: array<int>, right: array<int>)
      returns (sticky: seq<bool>)
    requires Separate(g, left, right) && illegal == ax.Illegal() && 0 <= ax.up
    requires AllLeftKnow(ax, ax.up + 1, left[..], right[..])
    modifies g.dq, right
    ensures forall i :: 0 <= i < g.n ==> g.dq[i] == 0
    ensures AllLeftResults(ax, left[..], right[..])
    ensures |sticky| == g.n
    ensures forall i :: 0 <= i < g.n ==>
              (sticky[i] <==> left[i] != illegal && (side.WriteSide? || right[i] != illegal))
  {
    g.ApplyDq(0);
    sticky := [];
    for i := g.n downto 0
      invariant forall k :: i <= k < g.n ==> LeftResult(ax, k, left[k], right[k])
      invariant forall k :: 0 <= k < i ==> LeftKnows(ax, k, ax.up + 1, left[k], right[k])
      invariant |sticky| == g.n - i
      invariant forall k :: i <= k < g.n ==>
                  (sticky[k - i] <==> left[k] != illegal && (side.WriteSide? || right[k] != illegal))
      invariant forall k :: 0 <= k < g.n ==> g.dq[k] == 0
    {
      if left[i] == illegal && right[i] != illegal {
        right[i] := illegal;
      }
      var seen := if side.ReadSide? then left[i] != illegal && right[i] != illegal else left[i] != illegal;
      sticky := [seen] + sticky;
    }
  }

  ghost predicate AllRightKnow(ax: Axis, d: int, l0: seq<int>, r0: seq<int>, l: seq<int>, r: seq<int>) {
    |l0| == |r0| == |l| == |r| && forall i :: 0 <= i < |l| ==> RightKnows(ax, i, d, l0[i], r0[i], l[i], r[i])
  }

  /** A bit whose both edges the first sweep saw fails in the whole second sweep. */
  lemma KnownEdgeKeepsFailing(ax: Axis, i: int, d: int, l0: int, r0: int)
    requires ax.OneInterval(i) && 0 <= d <= ax.down && 0 <= ax.up && LeftResult(ax, i, l0, r0)
    ensures r0 != ax.Illegal() ==> !ax.Pass(i, -d)
  {
    if r0 != ax.Illegal() && d > 0 && ax.Pass(i, -d) {
      Between(ax, i, -d, 0, -r0);
    }
  }

  /** Every sticky bit has a right edge or was seen by the first sweep. */
  ghost predicate CountsAsSeen(ax: Axis, sticky: seq<bool>, l0: seq<int>, r: seq<int>) {
    |sticky| == |l0| == |r| && forall i :: 0 <= i < |r| && sticky[i] ==> r[i] != ax.Illegal() || l0[i] != ax.Illegal()
  }

  /** What one test of the second sweep makes of a bit's two edges. */
  function RightStep(d: int, pass: bool, illegal: int, l: int, r: int): (int, int) {
    if pass then (l, d)
    else if d != 0 then (if r == illegal then (-(d + 1), r) else (l, r))
    else if r == illegal && l != illegal then (l, -1)
    else if r == illegal then (-(d + 1), r)
    else (l, r)
  }

  lemma RightStepKnows(ax: Axis, i: int, d: int, l0: int, r0: int, l: int, r: int)
    requires ax.OneInterval(i) && 0 <= d <= ax.down <= ax.up && LeftResult(ax, i, l0, r0)
    requires RightKnows(ax, i, d, l0, r0, l, r)
    ensures var (l', r') := RightStep(d, ax.Pass(i, -d), ax.Illegal(), l, r);
            && RightKnows(ax, i, d + 1, l0, r0, l', r')
            && (r' != ax.Illegal() <==> r != ax.Illegal() || ax.Pass(i, -d))
  {
    KnownEdgeKeepsFailing(ax, i, d, l0, r0);
  }

  /** Records one test of the second sweep in the edges of every bit. */
  method RightUpdate(d: int, bits: seq<bool>, illegal: int, left: array<int>, right: array<int>)
    requires left.Length == right.Length == |bits| && left != right
    modifies left, right
    ensures forall i :: 0 <= i < left.Length ==>
              (left[i], right[i]) == RightStep(d, bits[i], illegal, old(left[i]), old(right[i]))
  {
    for i := 0 to left.Length
      invariant forall k :: 0 <= k < i ==>
                  (left[k], right[k]) == RightStep(d, bits[k], illegal, old(left[k]), old(right[k]))
      invariant forall k :: i <= k < left.Length ==> left[k] == old(left[k]) && right[k] == old(right[k])
    {
      if bits[i] {
        right[i] := d;
      } else {
        if d != 0 {
          if right[i] == illegal {
            left[i] := -(d + 1);
          }
        } else {
          if right[i] == illegal && left[i] != illegal {
            right[i] := -1;
          } else if right[i] == illegal {
            left[i] := -(d + 1);
          }
        }
      }
    }
  }

  lemma AllRightStep(ax: Axis, d: int, l0: seq<int>, r0: seq<int>, l: seq<int>, r: seq<int>, bits: seq<bool>,
                     l': seq<int>, r': seq<int>, sticky: seq<bool>)
    requires CountsAsSeen(ax, sticky, l0, r)
    requires 0 <= d <= ax.down <= ax.up && |bits| == |l| == |l'| == |r'| && TestsAt(ax, -d, bits)
    requires AllLeftResults(ax, l0, r0) && AllRightKnow(ax, d, l0, r0, l, r)
    requires forall i :: 0 <= i < |l| ==> ax.OneInterval(i)
    requires forall i :: 0 <= i < |l| ==> (l'[i], r'[i]) == RightStep(d, bits[i], ax.Illegal(), l[i], r[i])
    ensures AllRightKnow(ax, d + 1, l0, r0, l', r')
    ensures CountsAsSeen(ax, Or(sticky, bits), l0, r')
  {
    forall i | 0 <= i < |l|
      ensures RightKnows(ax, i, d + 1, l0[i], r0[i], l'[i], r'[i])
      ensures r'[i] != ax.Illegal() <==> r[i] != ax.Illegal() || bits[i]
    {
      assert LeftResult(ax, i, l0[i], r0[i]) && RightKnows(ax, i, d, l0[i], r0[i], l[i], r[i]);
      assert bits[i] == ax.Pass(i, -d);
      RightStepKnows(ax, i, d, l0[i], r0[i], l[i], r[i]);
      assert (l'[i], r'[i]) == RightStep(d, bits[i], ax.Illegal(), l[i], r[i]);
    }
  }

  /** Why the second sweep may stop: each bit that counts as seen has a right
      edge, or passed at position 0 and so cannot have failed just now. */
  lemma AllRightStop(ax: Axis, d: int, l0: seq<int>, r0: seq<int>, l: seq<int>, r: seq<int>, bits: seq<bool>,
                     sticky: seq<bool>)
    requires forall i :: 0 <= i < |l| ==> ax.OneInterval(i)
    requires 0 <= d <= ax.down <= ax.up && AllLeftResults(ax, l0, r0) && AllRightKnow(ax, d, l0, r0, l, r)
    requires |bits| == |l| && TestsAt(ax, -d, bits) && NoBit(bits)
    requires CountsAsSeen(ax, sticky, l0, r) && EveryBit(sticky)
    ensures forall i :: 0 <= i < |l| ==> r[i] != ax.Illegal()
    ensures AllRightKnow(ax, ax.down + 1, l0, r0, l, r)
  {
    forall i | 0 <= i < |l|
      ensures r[i] != ax.Illegal() && RightKnows(ax, i, ax.down + 1, l0[i], r0[i], l[i], r[i])
    {
      assert LeftResult(ax, i, l0[i], r0[i]) && RightKnows(ax, i, d, l0[i], r0[i], l[i], r[i]);
      assert !ax.Pass(i, -d);
      RightStops(ax, i, d, l0[i], r0[i], l[i], r[i]);
    }
  }

  /** The write routine looks for marginal bits when it stops at once; with an
      oracle that answers the same twice there are none. */
  method MarkMarginal(illegal: int, left: array<int>, right: array<int>)
    requires left.Length == right.Length && left != right
    modifies right
    ensures forall i :: 0 <= i < right.Length ==>
              right[i] == if old(right[i]) == illegal && left[i] != illegal then -1 else old(right[i])
  {
    for i := 0 to right.Length
      invariant forall k :: i <= k < right.Length ==> right[k] == old(right[k])
      invariant forall k :: 0 <= k < i ==>
                  right[k] == if old(right[k]) == illegal && left[k] != illegal then -1 else old(right[k])
    {
      if right[i] == illegal && left[i] != illegal {
        right[i] := -1;
      }
    }
  }

  /** One step of the second sweep at DQS shift d. */
  method RightTest(side: Side, g: Group, ghost ax: Axis, ghost l0: seq<int>, ghost r0: seq<int>, d: int, start: int,
                   illegal: int, sticky: seq<bool>, left: array<int>, right: array<int>)
      returns (stop: bool, sticky': seq<bool>)
    requires Separate(g, left, right) && illegal == ax.Illegal() && g.eye == ax.eye && start == ax.start
    requires forall i :: 0 <= i < g.n ==> ax.OneInterval(i) && g.dq[i] == 0
    requires 0 <= d <= ax.down <= ax.up && AllLeftResults(ax, l0, r0)
    requires AllRightKnow(ax, d, l0, r0, left[..], right[..]) && CountsAsSeen(ax, sticky, l0, right[..])
    modifies g`dqs, left, right
    ensures g.dqs == d + start
    ensures AllRightKnow(ax, if stop then ax.down + 1 else d + 1, l0, r0, left[..], right[..])
    ensures CountsAsSeen(ax, sticky', l0, right[..])
  {
    g.dqs := d + start;
    var bits := g.Test();
    assert TestsAt(ax, -d, bits);
    sticky' := Or(sticky, bits);
    stop := NoBit(bits) && EveryBit(sticky');
    ghost var l, r := left[..], right[..];
    if stop {
      AllRightStop(ax, d, l0, r0, l, r, bits, sticky);
      if side.WriteSide? && d == 0 {
        MarkMarginal(illegal, left, right);
        assert right[..] == r;
      }
    } else {
      RightUpdate(d, bits, illegal, left, right);
      AllRightStep(ax, d, l0, r0, l, r, bits, left[..], right[..], sticky);
    }
  }

  /** Second sweep: DQS delay up from where it started, DQ delays at zero. */
  method RightSweep(side: Side, g: Group, lim: Limits, sticky0: seq<bool>, ghost ax: Axis,
                    left: array<int>, right: array<int>)
    requires Separate(g, left, right)
    requires 0 <= g.dqs <= lim.dqsMax && ax == AxisOf(g.eye, g.dqs, lim) && ax.down <= ax.up
    requires forall i :: 0 <= i < g.n ==> ax.OneInterval(i) && g.dq[i] == 0
    requires AllLeftResults(ax, left[..], right[..])
    requires |sticky0| == g.n
    requires forall i :: 0 <= i < g.n ==>
               (sticky0[i] <==> left[i] != ax.Illegal() && (side.WriteSide? || right[i] != ax.Illegal()))
    modifies g`dqs, left, right
    ensures AllRightKnow(ax, ax.down + 1, old(left[..]), old(right[..]), left[..], right[..])
    ensures 0 <= g.dqs <= lim.dqsMax
  {
    var start := g.dqs;
    var sticky := sticky0;
    ghost var l0, r0 := left[..], right[..];
    var d := 0;
    while d <= lim.dqsMax - start
      invariant 0 <= d <= ax.down + 1
      invariant 0 <= g.dqs <= lim.dqsMax
      invariant AllRightKnow(ax, d, l0, r0, left[..], right[..])
      invariant CountsAsSeen(ax, sticky, l0, right[..])
    {
      var stop;
      stop, sticky := RightTest(side, g, ax, l0, r0, d, start, lim.dqMax + 1, sticky, left, right);
      if stop {
        break;
      }
      d := d + 1;
    }
  }

  /** The test the routine ends with: does any bit lack an edge? */
  method EveryEdgeSeen(illegal: int, left: array<int>, right: array<int>) returns (ok: bool)
    requires left.Length == right.Length
    ensures ok <==> forall i :: 0 <= i < left.Length ==> left[i] != illegal && right[i] != illegal
  {
    for i := 0 to left.Length
      invariant forall k :: 0 <= k < i ==> left[k] != illegal && right[k] != illegal
    {
      if left[i] == illegal || right[i] == illegal {
        return false;
      }
    }
    return true;
  }

  ghost predicate AllEyes(ax: Axis, n: nat) { forall i :: 0 <= i < n ==> ax.HasEye(i) }

  /** Every bit has an eye and its edges are the ends of it. */
  ghost predicate ExactEdges(ax: Axis, l: seq<int>, r: seq<int>) {
    |l| == |r| && forall i :: 0 <= i < |l| ==>
      && l[i] == ax.Top(i) && -r[i] == ax.Bottom(i)
      && -ax.down <= -r[i] <= l[i] <= ax.up
      && ax.Pass(i, l[i]) && ax.Pass(i, -r[i])
  }

  /** Bit i passes with these two registers. */
  predicate PassesAt(eye: Oracle, i: int, dq: int, dqs: int) { eye(i, dq - dqs) }

  /** And with some registers that the search can set, DQS starting at `start`. */
  ghost predicate PassesSomewhere(eye: Oracle, lim: Limits, start: int, i: int) {
    exists dq, dqs :: 0 <= dq <= lim.dqMax && start <= dqs <= lim.dqsMax && PassesAt(eye, i, dq, dqs)
  }

  ghost predicate EyesEverywhere(eye: Oracle, lim: Limits, start: int, n: nat) {
    forall i :: 0 <= i < n ==> PassesSomewhere(eye, lim, start, i)
  }

  /** The edges l and r are the extremes over those registers. */
  ghost predicate EdgeInRegisters(eye: Oracle, lim: Limits, start: int, i: int, l: int, r: int) {
    && (forall dq, dqs :: 0 <= dq <= lim.dqMax && start <= dqs <= lim.dqsMax && PassesAt(eye, i, dq, dqs) ==>
          -r <= dq - (dqs - start) <= l)
    && (exists dq, dqs :: 0 <= dq <= lim.dqMax && start <= dqs <= lim.dqsMax && PassesAt(eye, i, dq, dqs)
                          && dq - (dqs - start) == l)
    && (exists dq, dqs :: 0 <= dq <= lim.dqMax && start <= dqs <= lim.dqsMax && PassesAt(eye, i, dq, dqs)
                          && dq - (dqs - start) == -r)
  }

  ghost predicate EdgesInRegisters(eye: Oracle, lim: Limits, start: int, l: seq<int>, r: seq<int>) {
    |l| == |r| && forall i: nat :: i < |l| ==> EdgeInRegisters(eye, lim, start, i, l[i], r[i])
  }

  /** The axis in terms of registers: its positions are those of a DQ delay up to its
      maximum and a DQS delay from the start up to its maximum, and an eye's ends are the
      extremes over these. */
  lemma EyeInRegisters(eye: Oracle, start: int, lim: Limits, i: int)
    requires 0 <= start <= lim.dqsMax
    ensures var ax := AxisOf(eye, start, lim);
            && (ax.HasEye(i) <==> PassesSomewhere(eye, lim, start, i))
            && (ax.HasEye(i) ==> EdgeInRegisters(eye, lim, start, i, ax.Top(i), -ax.Bottom(i)))
  {
    var ax := AxisOf(eye, start, lim);
    forall dq, dqs | 0 <= dq <= lim.dqMax && start <= dqs <= lim.dqsMax && PassesAt(eye, i, dq, dqs)
      ensures ax.HasEye(i) && ax.Bottom(i) <= dq - (dqs - start) <= ax.Top(i)
    {
      assert ax.Pass(i, dq - (dqs - start));
      TopFromIs(ax, i, dq - (dqs - start), ax.up);
      BottomFromIs(ax, i, dq - (dqs - start), -ax.down);
    }
    forall x | -ax.down <= x <= ax.up && ax.Pass(i, x)
      ensures exists dq, dqs :: 0 <= dq <= lim.dqMax && start <= dqs <= lim.dqsMax
                                && PassesAt(eye, i, dq, dqs) && dq - (dqs - start) == x
    {
      assert PassesAt(eye, i, if x >= 0 then x else 0, if x >= 0 then start else start - x);
    }
    if x :| -ax.down <= x <= ax.up && ax.Pass(i, x) {
      TopFromIs(ax, i, x, ax.up);
      BottomFromIs(ax, i, x, -ax.down);
    }
  }

  /** The top is at or above every passing position, and passes. */
  lemma {:induction false} TopFromIs(ax: Axis, i: int, x: int, from: int)
    requires -ax.down <= x <= from && ax.Pass(i, x)
    ensures x <= ax.TopFrom(i, from) <= from && ax.Pass(i, ax.TopFrom(i, from))
    decreases from - x
  {
    if x < from {
      TopFromIs(ax, i, x, from - 1);
    }
  }

  lemma {:induction false} BottomFromIs(ax: Axis, i: int, x: int, from: int)
    requires from <= x <= ax.up && ax.Pass(i, x)
    ensures from <= ax.BottomFrom(i, from) <= x && ax.Pass(i, ax.BottomFrom(i, from))
    decreases x - from
  {
    if from < x {
      BottomFromIs(ax, i, x, from + 1);
    }
  }

  /** Both sweeps. The search rejects exactly when some bit has no eye on the
      reachable axis, and otherwise returns the ends of every bit's eye. */
  method SearchEdges(side: Side, g: Group, lim: Limits, ghost ax: Axis)
      returns (ok: bool, left: array<int>, right: array<int>)
    requires g.dq.Length == g.n
    requires 0 <= g.dqs <= lim.dqsMax && ax == AxisOf(g.eye, g.dqs, lim) && ax.down <= ax.up
    requires forall i :: 0 <= i < g.n ==> ax.OneInterval(i)
    modifies g`dqs, g.dq
    ensures fresh(left) && fresh(right) && Separate(g, left, right)
    ensures ok <==> AllEyes(ax, g.n)
    ensures ok <==> EyesEverywhere(g.eye, lim, old(g.dqs), g.n)
    ensures ok ==> ExactEdges(ax, left[..], right[..])
    ensures ok ==> EdgesInRegisters(g.eye, lim, old(g.dqs), left[..], right[..])
    ensures forall i :: 0 <= i < g.n ==> g.dq[i] == 0
    ensures 0 <= g.dqs <= lim.dqsMax
  {
    ghost var start := g.dqs;
    left, right := new int[g.n](_ => 0), new int[g.n](_ => 0);
    LeftSweep(g, lim, ax, left, right);
    var sticky := BetweenSweeps(side, g, lim.dqMax + 1, ax, left, right);
    ghost var l0, r0 := left[..], right[..];
    RightSweep(side, g, lim, sticky, ax, left, right);
    ok := EveryEdgeSeen(lim.dqMax + 1, left, right);
    SearchIsExact(ax, l0, r0, left[..], right[..]);
    EyesInRegisters(g.eye, lim, start, g.n);
    if ok {
      EdgesAreInRegisters(g.eye, lim, start, left[..], right[..]);
    }
  }

  lemma EdgesAreInRegisters(eye: Oracle, lim: Limits, start: int, l: seq<int>, r: seq<int>)
    requires 0 <= start <= lim.dqsMax && ExactEdges(AxisOf(eye, start, lim), l, r)
    ensures EdgesInRegisters(eye, lim, start, l, r)
  {
    forall i: nat | i < |l| ensures EdgeInRegisters(eye, lim, start, i, l[i], r[i]) {
      EyeInRegisters(eye, start, lim, i);
    }
  }

  lemma EyesInRegisters(eye: Oracle, lim: Limits, start: int, n: nat)
    requires 0 <= start <= lim.dqsMax
    ensures AllEyes(AxisOf(eye, start, lim), n) <==> EyesEverywhere(eye, lim, start, n)
  {
    forall i: int ensures AxisOf(eye, start, lim).HasEye(i) <==> PassesSomewhere(eye, lim, start, i) {
      EyeInRegisters(eye, start, lim, i);
    }
  }

  lemma SearchIsExact(ax: Axis, l0: seq<int>, r0: seq<int>, l: seq<int>, r: seq<int>)
    requires 0 <= ax.down <= ax.up && forall i :: 0 <= i < |l| ==> ax.OneInterval(i)
    requires AllLeftResults(ax, l0, r0) && AllRightKnow(ax, ax.down + 1, l0, r0, l, r)
    ensures AllEyes(ax, |l|) <==> forall i :: 0 <= i < |l| ==> l[i] != ax.Illegal() && r[i] != ax.Illegal()
    ensures AllEyes(ax, |l|) ==> ExactEdges(ax, l, r)
  {
    forall i | 0 <= i < |l|
      ensures (l[i] == ax.Illegal() || r[i] == ax.Illegal()) <==> !ax.HasEye(i)
      ensures ax.HasEye(i) ==>
                && l[i] == ax.Top(i) && -r[i] == ax.Bottom(i) && -ax.down <= -r[i] <= l[i] <= ax.up
                && ax.Pass(i, l[i]) && ax.Pass(i, -r[i])
    {
      assert LeftResult(ax, i, l0[i], r0[i]) && RightKnows(ax, i, ax.down + 1, l0[i], r0[i], l[i], r[i]);
      EdgesAreExact(ax, i, l0[i], r0[i], l[i], r[i]);
      if ax.HasEye(i) {
        TopIs(ax, i, l[i], ax.up);
        BottomIs(ax, i, -r[i], -ax.down);
      }
    }
  }
}
