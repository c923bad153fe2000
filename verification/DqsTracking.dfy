/** What tracking measures on steady hardware: how many delay taps make up the phase
    tap by which it backs off. With a run in which it first meets fails. */
module DqsTracking {
  import opened DqsSpec
  import opened DqsEnable
  import opened DqsOutcome
  import opened DqsEye
  import opened DqsVerdict
  import opened DqsInFull
  import opened DqsRun

  /** How far below the edge of step 5 tracking starts to look: a phase tap, or two
      past tap 0. */
  function BackedBy(c: Taps, p: nat): nat { if p == 1 then 2 * c.opa else c.opa }

  lemma BackedOffBy(c: Taps, x: Position, d: nat)
    requires c.Valid() && 1 <= x.p <= c.phaseMax
    ensures var y := BackedOff(c, x.v, x.p);
            Total(c, Position(y.v, y.p, d))
            == Total(c, Position(x.v, x.p, d)) - BackedBy(c, x.p) + (if x.p == 1 then Round(c) else 0)
  {
    if x.p == 1 {
      Distribute(x.v, c.vfifoSize, c.Period());
      Distribute(x.v + c.vfifoSize, -1, c.Period());
      Distribute(c.phaseMax, 1, c.opa);
    } else {
      Distribute(x.p, -1, c.opa);
    }
  }

  /** In a wide eye two last passes before a fail, not far apart, are at the same edge. */
  lemma SameEdge(c: Taps, eye: int -> bool, s: int, t: int)
    requires Wide(c, eye) && !eye(s) && eye(s - c.dchain) && !eye(t) && eye(t - c.dchain)
    requires t - s <= 4 * c.opa && s - t <= 4 * c.opa
    ensures t - s < c.dchain && s - t < c.dchain
  {
  }

  /** Step 5 ended with a pass and a fail, one delay tap on. */
  lemma LastTwo(c: Taps, answers: nat -> bool, eye: int -> bool, a: nat, b: nat, v: nat, p: nat, d0: nat,
                end0: nat, d: nat, end: nat)
    requires LastsTo(c, answers, a, b, d0, end0, d, end) && d0 < d <= c.delayMax
    requires Sees(c, answers, eye, a, b, DelaySteps(v, p, d0))
    ensures var s := Total(c, Position(v, p, d)); !eye(s) && eye(s - c.dchain)
  {
    var f, last: nat := DelaySteps(v, p, d0), b - 1;
    assert answers(last) == eye(Total(c, Nth(f, last - a)));
    assert answers(last - 1) == eye(Total(c, Nth(f, last - 1 - a)));
    TotalOnTap(c, v, p, d - 1, 1);
  }

  /** The edge of step 5: the fail, counted at its phase tap. */
  function Edge(c: Taps, x: Position, d: nat): int { Total(c, Position(x.v, x.p, d)) }

  lemma EdgeAfterDelays(c: Taps, answers: nat -> bool, eye: int -> bool, a: nat, v0: nat, r: Course)
    requires HasWindow(c, answers, r) && 0 < r.first.d < r.trail.d <= c.delayMax
    requires WindowSees(c, answers, eye, a, v0, r)
    ensures var s := Edge(c, EdgeOf(c, a, v0, r), r.trail.d); !eye(s) && eye(s - c.dchain)
  {
    LastTwo(c, answers, eye, r.w, r.trail.z, Found(c, a, v0, r), r.first.p, r.first.d, Delay(c, r.first),
            r.trail.d, r.end);
  }

  lemma EdgeAfterTaps(c: Taps, answers: nat -> bool, eye: int -> bool, y: Position, t: Trail, end: nat)
    requires LastsTo(c, answers, t.e, t.z, 0, t.end, t.d, end) && EndSees(c, answers, eye, t, y)
    requires 0 < t.d <= c.delayMax
    ensures var s := Edge(c, BackedOff(c, y.v + t.k, t.p), t.d); !eye(s) && eye(s - c.dchain)
  {
    var x := BackedOff(c, y.v + t.k, t.p);
    LastTwo(c, answers, eye, t.e, t.z, x.v, x.p, 0, t.end, t.d, end);
  }

  lemma EdgeOfStepFive(c: Taps, answers: nat -> bool, eye: int -> bool, a: nat, v0: nat, r: Course)
    requires HasWindow(c, answers, r) && r.first.d < r.trail.d <= c.delayMax
    requires WindowSees(c, answers, eye, a, v0, r)
    ensures var s := Edge(c, EdgeOf(c, a, v0, r), r.trail.d); !eye(s) && eye(s - c.dchain)
  {
    if r.first.d > 0 {
      EdgeAfterDelays(c, answers, eye, a, v0, r);
    } else {
      EdgeAfterTaps(c, answers, eye, AfterRestore(c, Found(c, a, v0, r), r.first.p), r.trail, r.end);
    }
  }

  /** So did tracking, and its measure says how far from its first read. */
  lemma EdgeOfTracking(c: Taps, answers: nat -> bool, at: seq<Position>, eye: int -> bool, a: nat, z: nat,
                       v0: nat, r: Course, phase: nat, delay: nat, dtaps: nat)
    requires c.Valid() && HasMeasure(c, answers, r, dtaps) && r.x == r.trail.z && a <= r.x && r.y <= z
    requires SawEdge(answers, r.x, r.y) && Observed(c, answers, at, eye, a, z, v0, r, phase, delay)
    ensures var t := Edge(c, TrackingOf(c, a, v0, r), r.trail.d) + dtaps * c.dchain;
            !eye(t) && eye(t - c.dchain)
    ensures 1 <= dtaps <= c.delayMax
  {
    var y := TrackingOf(c, a, v0, r);
    TrackingInFull(c, answers, at, a, z, v0, r, dtaps, phase, delay);
    SteadySees(c, answers, at, a, z, eye, r.x, r.y, DelaySteps(y.v, y.p, r.trail.d));
    EndsInEdge(c, answers, eye, r.x, r.y, y.v, y.p, r.trail.d, dtaps);
  }

  lemma EndsInEdge(c: Taps, answers: nat -> bool, eye: int -> bool, a: nat, b: nat, v: nat, p: nat, d0: nat, n: nat)
    requires Sees(c, answers, eye, a, b, DelaySteps(v, p, d0)) && b == a + n + 1 && n >= 1
    requires !answers(b - 1) && answers(b - 2)
    ensures var t := Total(c, Position(v, p, d0)) + n * c.dchain; !eye(t) && eye(t - c.dchain)
  {
    var f, last: nat := DelaySteps(v, p, d0), b - 1;
    assert answers(last) == eye(Total(c, Nth(f, last - a)));
    assert answers(last - 1) == eye(Total(c, Nth(f, last - 1 - a)));
    TotalOnTap(c, v, p, d0, n);
    TotalOnTap(c, v, p, d0 + n - 1, 1);
  }

  /** The same, counted from the edge of step 5. */
  lemma EdgeFromStepFive(c: Taps, eye: int -> bool, x: Position, d: nat, dtaps: nat)
    requires c.Valid() && GoesRound(c, eye) && 1 <= x.p <= c.phaseMax
    requires var t := Edge(c, BackedOff(c, x.v, x.p), d) + dtaps * c.dchain; !eye(t) && eye(t - c.dchain)
    ensures var t := Edge(c, x, d) - BackedBy(c, x.p) + dtaps * c.dchain; !eye(t) && eye(t - c.dchain)
  {
    var t := Edge(c, x, d) - BackedBy(c, x.p) + dtaps * c.dchain;
    BackedOffBy(c, x, d);
    Around(c, eye, t, 1);
    Around(c, eye, t - c.dchain, 1);
  }

  lemma MeasureOfEdges(c: Taps, eye: int -> bool, s: int, backed: nat, dtaps: nat)
    requires Wide(c, eye) && c.delayMax * c.dchain <= 4 * c.opa && dtaps <= c.delayMax && backed <= 2 * c.opa
    requires !eye(s) && eye(s - c.dchain)
    requires var t := s - backed + dtaps * c.dchain; !eye(t) && eye(t - c.dchain)
    ensures backed - c.dchain < dtaps * c.dchain < backed + c.dchain
  {
    TapsGrow(c, dtaps, c.delayMax);
    SameEdge(c, eye, s, s - backed + dtaps * c.dchain);
  }

  lemma BothEdges(c: Taps, eye: int -> bool, x: Position, d: nat, dtaps: nat)
    requires c.Valid() && Wide(c, eye) && GoesRound(c, eye) && c.delayMax * c.dchain <= 4 * c.opa
    requires 1 <= x.p <= c.phaseMax && dtaps <= c.delayMax
    requires var s := Edge(c, x, d); !eye(s) && eye(s - c.dchain)
    requires var t := Edge(c, BackedOff(c, x.v, x.p), d) + dtaps * c.dchain; !eye(t) && eye(t - c.dchain)
    ensures BackedBy(c, x.p) - c.dchain < dtaps * c.dchain < BackedBy(c, x.p) + c.dchain
  {
    EdgeFromStepFive(c, eye, x, d, dtaps);
    MeasureOfEdges(c, eye, Edge(c, x, d), BackedBy(c, x.p), dtaps);
  }

  lemma EdgeIsUsable(c: Taps, answers: nat -> bool, a: nat, v0: nat, r: Course)
    requires c.Valid() && HasFirst(c, answers, r) && HasWindow(c, answers, r)
    ensures 1 <= EdgeOf(c, a, v0, r).p <= c.phaseMax
  {
  }

  lemma StepFiveRan(c: Taps, answers: nat -> bool, at: seq<Position>, eye: int -> bool, a: nat, z: nat,
                    v0: nat, r: Course, phase: nat, delay: nat)
    requires HasWindow(c, answers, r) && r.first.d < r.trail.d <= c.delayMax && a <= r.w && r.x <= z
    requires Observed(c, answers, at, eye, a, z, v0, r, phase, delay)
    ensures var s := Edge(c, EdgeOf(c, a, v0, r), r.trail.d); !eye(s) && eye(s - c.dchain)
  {
    WindowLegs(c, answers, at, eye, a, z, v0, r, phase, delay);
    EdgeOfStepFive(c, answers, eye, a, v0, r);
  }

  lemma InOrder(c: Taps, answers: nat -> bool, a: nat, r: Course, dtaps: nat)
    requires Starts(c, answers, a, r) && HasFirst(c, answers, r) && HasWindow(c, answers, r)
    requires HasMeasure(c, answers, r, dtaps)
    ensures a <= r.w <= r.x <= r.y && r.x == r.trail.z
  {
    MeasureInOrder(c, answers, a, r, dtaps);
    CourseInOrder(c, answers, a, r);
  }

  /** When tracking saw an edge in a wide eye, its measure times a delay tap is the phase
      tap it backed off, two past tap 0, to within a delay tap. */
  lemma TrackingMeasuresPhaseTap(c: Taps, answers: nat -> bool, at: seq<Position>, eye: int -> bool, a: nat, z: nat,
                                 v0: nat, r: Course, phase: nat, delay: nat, dtaps: nat)
    requires c.Valid() && Wide(c, eye) && GoesRound(c, eye) && c.delayMax * c.dchain <= 4 * c.opa
    requires Starts(c, answers, a, r) && HasFirst(c, answers, r) && HasWindow(c, answers, r) && r.y <= z
    requires HasMeasure(c, answers, r, dtaps) && r.first.d < r.trail.d <= c.delayMax
    requires SawEdge(answers, r.x, r.y) && Observed(c, answers, at, eye, a, z, v0, r, phase, delay)
    ensures var backed := BackedBy(c, EdgeOf(c, a, v0, r).p);
            backed - c.dchain < dtaps * c.dchain < backed + c.dchain
  {
    InOrder(c, answers, a, r, dtaps);
    StepFiveRan(c, answers, at, eye, a, z, v0, r, phase, delay);
    EdgeOfTracking(c, answers, at, eye, a, z, v0, r, phase, delay, dtaps);
    EdgeIsUsable(c, answers, a, v0, r);
    BothEdges(c, eye, EdgeOf(c, a, v0, r), r.trail.d, dtaps);
  }
}
