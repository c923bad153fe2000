/** What the search for the DQS enable setting is held to: the orders in which
    settings are read, what the answers say about a window, and how a search went. */
module DqsSpec {

  /** Tap sizes and limits of the delay chains. */
  datatype Taps = Taps(opa: nat, dchain: nat, phaseMax: nat, delayMax: nat, vfifoSize: nat)
  {
    predicate Valid() { opa > 0 && dchain > 0 && phaseMax >= 1 && vfifoSize > 0 }

    /** The delay chain spans one phase tap. */
    predicate Fits() { opa <= delayMax * dchain }

    /** One VFIFO step: all phase taps, tap 0 included. */
    function Period(): nat { (phaseMax + 1) * opa }
  }

  /** What the search does to the hardware, in order. */
  datatype Event = SetPhase(p: nat) | SetDelay(d: nat) | IncrVfifo | ReadTest(pass: bool)

  /** Phase tap 0 is never programmed and no chain is driven past its end. */
  ghost predicate Safe(c: Taps, log: seq<Event>) {
    forall k :: 0 <= k < |log| ==>
      match log[k]
      case SetPhase(p) => 1 <= p <= c.phaseMax
      case SetDelay(d) => d <= c.delayMax
      case _ => true
  }

  /** Every answer from `a` to `b` is `want`. */
  ghost predicate All(answers: nat -> bool, a: nat, b: nat, want: bool) {
    forall k :: a <= k < b ==> answers(k) == want
  }

  /** Answers from `a` to `b`: some fails, then passes from `e` on, then the
      last one fails. */
  ghost predicate ReadEdge(answers: nat -> bool, a: nat, e: nat, b: nat) {
    && a <= e < b - 1 && All(answers, a, e, false) && All(answers, e, b - 1, true)
    && !answers(b - 1)
  }

  /** Answers from `a` to `b`: fails up to `e`, then only passes. */
  ghost predicate NoEdge(answers: nat -> bool, a: nat, e: nat, b: nat) {
    a <= e <= b && All(answers, a, e, false) && All(answers, e, b, true)
  }

  /** Tracking, with the answers from a to b and delay taps from d0 on: taps per
      phase tap are the reads before the failing edge, if the chain has it;
      otherwise one less than cover a phase tap. */
  ghost predicate Measured(c: Taps, answers: nat -> bool, a: nat, b: nat, e: nat, d0: nat, dtaps: nat) {
    || (ReadEdge(answers, a, e, b) && b - a <= c.delayMax + 1 - d0 && dtaps == b - a - 1)
    || (NoEdge(answers, a, e, b) && b - a == c.delayMax + 1 - d0 && OneLess(c, dtaps))
  }

  /** One less than the delay taps that cover a phase tap. */
  ghost predicate OneLess(c: Taps, dtaps: nat) { dtaps * c.dchain < c.opa <= (dtaps + 1) * c.dchain }

  /** Every answer from `a` to `b` is a pass, except a first one that is
      excused. */
  ghost predicate Passes(answers: nat -> bool, a: nat, b: nat, excused: bool) {
    a <= b && if excused then a < b && !answers(a) && All(answers, a + 1, b, true) else All(answers, a, b, true)
  }

  /** Among the answers from `a` to `b`, the last is the second fail. */
  ghost predicate SecondFail(answers: nat -> bool, a: nat, k: nat, b: nat) {
    && a <= k < b - 1 && !answers(k) && !answers(b - 1)
    && All(answers, a, k, true) && All(answers, k + 1, b - 1, true)
  }

  /** Among the answers from `a` to `b`, only the one at k may be a fail. */
  ghost predicate OneFail(answers: nat -> bool, a: nat, k: nat, b: nat) {
    All(answers, a, if k < b then k else b, true) && All(answers, k + 1, b, true)
  }

  /** Where a read is made: VFIFO steps so far, phase taps, delay taps. */
  datatype Position = Position(v: nat, p: nat, d: nat)

  /** Orders in which settings are read: one VFIFO step, phase tap or delay tap
      further each time; the settings of step 2, from the n-th on; the usable phase
      taps after x, from the n-th on. */
  datatype Order =
    | VfifoSteps(v: nat, p: nat, d: nat)
    | PhaseSteps(v: nat, p: nat, d: nat)
    | DelaySteps(v: nat, p: nat, d: nat)
    | Tries(c: Taps, v: nat, n: nat)
    | TapsAfter(c: Taps, x: Position, n: nat)

  function Nth(f: Order, m: nat): Position {
    match f
    case VfifoSteps(v, p, d) => Position(v + m, p, d)
    case PhaseSteps(v, p, d) => Position(v, p + m, d)
    case DelaySteps(v, p, d) => Position(v, p, d + m)
    case Tries(c, v, n) => Where(c, v, NthSetting(c, n + m))
    case TapsAfter(c, x, n) => NthTap(c, x, n + m + 1)
  }

  /** The reads from a to b are made in this order. */
  ghost predicate Visits(at: seq<Position>, a: nat, b: nat, f: Order) {
    b <= |at| && forall k :: a <= k < b ==> at[k] == Nth(f, k - a)
  }

  /** A setting of step 2: delay taps, VFIFO steps from the start, phase taps. */
  datatype Setting = Setting(d: nat, i: nat, p: nat)

  function Delay(c: Taps, s: Setting): nat { s.d * c.dchain + s.i * c.Period() + s.p * c.opa }

  /** In the order of step 2, with the answers from `a` on, s is the first
      setting whose read passes. */
  ghost predicate FirstAt(c: Taps, answers: nat -> bool, a: nat, s: Setting) {
    && s.i < c.vfifoSize && 1 <= s.p <= c.phaseMax && a < ReadsTo(c, a, s)
    && answers(ReadsTo(c, a, s) - 1) && All(answers, a, ReadsTo(c, a, s) - 1, false)
  }

  /** Step 2 finds no setting that passes. */
  ghost predicate NoFirst(c: Taps, answers: nat -> bool, a: nat, dtaps: nat, z: nat) {
    z == a + (dtaps + 1) * c.vfifoSize * c.phaseMax && All(answers, a, z, false)
  }

  /** The order of step 2: phase taps from 1 on, then VFIFO steps, then delay taps. */
  function NextSetting(c: Taps, s: Setting): Setting {
    if s.p < c.phaseMax then s.(p := s.p + 1)
    else if s.i + 1 < c.vfifoSize then Setting(s.d, s.i + 1, 1)
    else Setting(s.d + 1, 0, 1)
  }

  function NthSetting(c: Taps, n: nat): Setting {
    if n == 0 then Setting(0, 0, 1) else NextSetting(c, NthSetting(c, n - 1))
  }

  /** A setting of step 2 when step 2 starts at VFIFO step v: the VFIFO goes on
      from one delay tap to the next. */
  function Where(c: Taps, v: nat, s: Setting): Position { Position(v + s.d * c.vfifoSize + s.i, s.p, s.d) }

  /** The order of step 4a: usable phase taps, on to the next VFIFO step. */
  function NextTap(c: Taps, x: Position): Position {
    if x.p < c.phaseMax then x.(p := x.p + 1) else Position(x.v + 1, 1, x.d)
  }

  function NthTap(c: Taps, x: Position, n: nat): Position {
    if n == 0 then x else NextTap(c, NthTap(c, x, n - 1))
  }

  /** The reads made when step 2 has tried s. */
  function ReadsTo(c: Taps, a: nat, s: Setting): nat { a + (s.d * c.vfifoSize + s.i) * c.phaseMax + s.p }

  /** Step 3a, with the answers from a to b: where the window begins when the
      first setting that passed is at phase tap p0 and delay `work`. */
  ghost predicate Begins(c: Taps, answers: nat -> bool, a: nat, b: nat, p0: nat, work: nat, bgn: nat) {
    if p0 == 1 then b == a && bgn == work
    else
      && a < b <= a + c.delayMax + 1 && (b - a - 1) * c.dchain < c.opa && All(answers, a, b - 1, false)
      && (if answers(b - 1) then bgn == work - c.opa + (b - a - 1) * c.dchain
          else bgn == work && (b - a == c.delayMax + 1 || (b - a) * c.dchain >= c.opa))
  }

  /** The delay of k VFIFO steps and x phase taps. */
  function Moved(c: Taps, k: nat, x: int): int { k * c.Period() + x * c.opa }

  /** The phase tap that step 3a leaves: the one it found, but for tap 1. */
  function Restored(c: Taps, p0: nat): nat { if p0 >= 2 then p0 else if c.phaseMax == 1 then 0 else 2 }

  /** VFIFO steps that step 4a tries from VFIFO step i and phase tap q on. */
  function Rounds(c: Taps, i: nat, q: nat): int { c.vfifoSize + 1 - i + if q == c.phaseMax then 1 else 0 }

  /** Steps 4a and 5a, with the answers from b to e: all pass but the last, which
      was k VFIFO steps on at phase tap p1, and a first one that moves the
      beginning. The end is backed off by one usable phase tap. */
  ghost predicate Ends(c: Taps, answers: nat -> bool, b: nat, e: nat, i: nat, q: nat, work: nat,
                       moved: bool, k: nat, p1: nat, end: nat) {
    && b < e && (moved <==> q < c.phaseMax && !answers(b)) && Passes(answers, b, e - 1, moved) && !answers(e - 1)
    && k < Rounds(c, i, q) && 1 <= p1 <= c.phaseMax && e - b == k * c.phaseMax + p1 - q
    && end == work + Moved(c, k, p1 - q - if p1 == 1 then 2 else 1)
  }

  /** Step 5, with the answers from a to b: passes from delay tap d0 up to d, then
      a fail or the end of the chain. */
  ghost predicate LastsTo(c: Taps, answers: nat -> bool, a: nat, b: nat, d0: nat, end0: nat, d: nat, end: nat) {
    && d0 <= d <= c.delayMax + 1 && All(answers, a, a + (d - d0), true)
    && end == end0 + (d - d0) * c.dchain - (if d == 0 then 0 else c.dchain)
    && (if d <= c.delayMax then b == a + (d - d0) + 1 && !answers(b - 1) else b == a + (d - d0))
  }

  /** Step 4a sees no failing edge. */
  ghost predicate NoEnd(c: Taps, answers: nat -> bool, a: nat, i: nat, p0: nat, work: nat, t: Trail, z: nat) {
    var q := Restored(c, p0);
    && Begins(c, answers, a, t.b, p0, work, t.bgn)
    && Exhausted(c, answers, t.b, z, i, q, t.moved)
  }

  ghost predicate Exhausted(c: Taps, answers: nat -> bool, b: nat, z: nat, i: nat, q: nat, moved: bool) {
    && b < z == b + Rounds(c, i, q) * c.phaseMax - q
    && (moved <==> q < c.phaseMax && !answers(b)) && Passes(answers, b, z, moved)
  }

  /** What steps 3 to 5 saw: the reads made after steps 3a, 5a and 5, the
      beginning after 3a, whether 4a moved it, how far 4a went, the end after 5a,
      and the delay tap step 5 stopped at. */
  datatype Trail = Trail(b: nat, bgn: nat, moved: bool, k: nat, p: nat, e: nat, end: nat, d: nat, z: nat)

  /** The window that the answers after step 2 determine. */
  ghost predicate WindowOf(c: Taps, answers: nat -> bool, a: nat, first: Setting, t: Trail, bgn: nat, end: nat) {
    var work := Delay(c, first);
    if first.d > 0 then
      bgn == work && LastsTo(c, answers, a, t.z, first.d, work, t.d, end)
    else
      && Begins(c, answers, a, t.b, first.p, work, t.bgn)
      && Ends(c, answers, t.b, t.e, first.i, Restored(c, first.p), work, t.moved, t.k, t.p, t.end)
      && bgn == (if t.moved then work + c.opa else t.bgn)
      && LastsTo(c, answers, t.e, t.z, 0, t.end, t.d, end)
  }

  /** Where step 3a leaves off. */
  function AfterRestore(c: Taps, v: nat, p0: nat): Position {
    Position(if Restored(c, p0) == 0 then v + 1 else v, Restored(c, p0), 0)
  }

  /** One usable phase tap before tap p1 of VFIFO step v, going round when needed. */
  function BackedOff(c: Taps, v: nat, p1: nat): Position {
    if p1 > 1 then Position(v, p1 - 1, 0)
    else Position(if c.vfifoSize > 0 then v + c.vfifoSize - 1 else v, c.phaseMax, 0)
  }

  /** Where step 5 looks for the edge, when step 2 ended at VFIFO step v. */
  function EdgeAt(c: Taps, v: nat, first: Setting, t: Trail): Position {
    if first.d > 0 then Position(v, first.p, first.d)
    else BackedOff(c, AfterRestore(c, v, first.p).v + t.k, t.p)
  }

  /** Where steps 3 to 5 make their reads from a to z. */
  ghost predicate EdgeReads(c: Taps, at: seq<Position>, a: nat, z: nat, v: nat, first: Setting, t: Trail) {
    var x := EdgeAt(c, v, first, t);
    if first.d > 0 then Visits(at, a, z, DelaySteps(x.v, x.p, first.d))
    else
      && first.p > 0
      && Visits(at, a, t.b, DelaySteps(v, first.p - 1, 0))
      && Visits(at, t.b, t.e, TapsAfter(c, AfterRestore(c, v, first.p), 0))
      && Visits(at, t.e, z, DelaySteps(x.v, x.p, 0))
  }

  lemma GrowEdgeReads(was: seq<Position>, at: seq<Position>, c: Taps, a: nat, z: nat, v: nat, first: Setting, t: Trail)
    requires was <= at && EdgeReads(c, was, a, z, v, first, t)
    ensures EdgeReads(c, at, a, z, v, first, t)
  {
    var x := EdgeAt(c, v, first, t);
    if first.d > 0 {
      Grow(was, at, a, z, DelaySteps(x.v, x.p, first.d));
    } else {
      Grow(was, at, a, t.b, DelaySteps(v, first.p - 1, 0));
      Grow(was, at, t.b, t.e, TapsAfter(c, AfterRestore(c, v, first.p), 0));
      Grow(was, at, t.e, z, DelaySteps(x.v, x.p, 0));
    }
  }

  /** Where step 2 starts when step 1 made the reads from a to s. */
  function StartOfTries(v: nat, a: nat, s: nat): nat { if s > a then v + (s - a) - 1 else v }

  /** Where steps 1 to 5 make their reads, from a to s, to w and to x. */
  ghost predicate SearchReads(c: Taps, at: seq<Position>, a: nat, v: nat, s: nat, w: nat, x: nat,
                              first: Setting, t: Trail) {
    var v1 := StartOfTries(v, a, s);
    && Visits(at, a, s, VfifoSteps(v, 1, 0))
    && Visits(at, s, w, Tries(c, v1, 0))
    && EdgeReads(c, at, w, x, Where(c, v1, first).v, first, t)
  }

  lemma GrowSearchReads(was: seq<Position>, at: seq<Position>, c: Taps, a: nat, v: nat, s: nat, w: nat, x: nat,
                        first: Setting, t: Trail)
    requires was <= at && SearchReads(c, was, a, v, s, w, x, first, t)
    ensures SearchReads(c, at, a, v, s, w, x, first, t)
  {
    var v1 := StartOfTries(v, a, s);
    Grow(was, at, a, s, VfifoSteps(v, 1, 0));
    Grow(was, at, s, w, Tries(c, v1, 0));
    GrowEdgeReads(was, at, c, w, x, Where(c, v1, first).v, first, t);
  }

  lemma Grow(was: seq<Position>, at: seq<Position>, a: nat, b: nat, f: Order)
    requires was <= at && Visits(was, a, b, f)
    ensures Visits(at, a, b, f)
  {
    forall k | a <= k < b ensures at[k] == Nth(f, k - a) {
      assert was[k] == at[k];
    }
  }

  /** The order f from its x-th place on. */
  function From(f: Order, x: nat): Order {
    match f
    case VfifoSteps(v, p, d) => VfifoSteps(v + x, p, d)
    case PhaseSteps(v, p, d) => PhaseSteps(v, p + x, d)
    case DelaySteps(v, p, d) => DelaySteps(v, p, d + x)
    case Tries(c, v, n) => Tries(c, v, n + x)
    case TapsAfter(c, y, n) => TapsAfter(c, y, n + x)
  }

  lemma NthFrom(f: Order, x: nat, m: nat, k: nat)
    requires k == x + m
    ensures Nth(From(f, x), m) == Nth(f, k)
  {
  }

  /** Two stretches of reads that follow one order. */
  lemma Join(was: seq<Position>, at: seq<Position>, a: nat, b: nat, e: nat, f: Order, g: Order)
    requires was <= at && a <= b <= e && Visits(was, a, b, f) && Visits(at, b, e, g) && g == From(f, b - a)
    ensures Visits(at, a, e, f)
  {
    forall k | a <= k < e ensures at[k] == Nth(f, k - a) {
      if k < b {
        assert was[k] == at[k];
      } else {
        NthFrom(f, b - a, k - b, k - a);
        assert at[k] == Nth(g, k - b);
      }
    }
  }

  /** The phase taps of one VFIFO step follow each other in step 2. */
  lemma {:induction false} RunOfSettings(c: Taps, n: nat, d: nat, i: nat, m: nat)
    requires NthSetting(c, n) == Setting(d, i, 1) && m <= c.phaseMax
    ensures m > 0 ==> NthSetting(c, n + m - 1) == Setting(d, i, m)
    ensures m == c.phaseMax > 0 ==> NthSetting(c, n + m) == NextSetting(c, Setting(d, i, m))
  {
    if m > 1 {
      RunOfSettings(c, n, d, i, m - 1);
    }
  }

  lemma VisitsSettings(at: seq<Position>, c: Taps, v: nat, rounds: nat, n: nat, d: nat, i: nat, a: nat, b: nat)
    requires a <= b <= a + c.phaseMax && NthSetting(c, n) == Setting(d, i, 1) && rounds == d * c.vfifoSize
    requires Visits(at, a, b, PhaseSteps(v + rounds + i, 1, d))
    ensures Visits(at, a, b, Tries(c, v, n))
    ensures a < b ==> NthSetting(c, n + (b - a) - 1) == Setting(d, i, b - a)
    ensures b - a == c.phaseMax > 0 ==> NthSetting(c, n + (b - a)) == NextSetting(c, Setting(d, i, b - a))
  {
    RunOfSettings(c, n, d, i, b - a);
    forall k | a <= k < b ensures at[k] == Nth(Tries(c, v, n), k - a) {
      var m: nat := k - a;
      RunOfSettings(c, n, d, i, m + 1);
      assert at[k] == Nth(PhaseSteps(v + rounds + i, 1, d), m);
      assert NthSetting(c, n + m) == Setting(d, i, m + 1);
    }
  }

  /** The place of a setting in the order of step 2. */
  lemma {:induction false} SettingIndex(c: Taps, n: nat)
    requires c.Valid()
    ensures var s := NthSetting(c, n);
            && s.i < c.vfifoSize && 1 <= s.p <= c.phaseMax
            && n == (s.d * c.vfifoSize + s.i) * c.phaseMax + s.p - 1
  {
    if n > 0 {
      SettingIndex(c, n - 1);
      var s := NthSetting(c, n - 1);
      Distribute(s.d * c.vfifoSize + s.i, 1, c.phaseMax);
      Distribute(s.d, 1, c.vfifoSize);
    }
  }

  /** The place of a usable tap in the order of step 4a. */
  lemma {:induction false} TapIndex(c: Taps, x: Position, n: nat)
    requires c.Valid() && x.p <= c.phaseMax
    ensures var y := NthTap(c, x, n);
            && x.v <= y.v && y.p <= c.phaseMax && n == (y.v - x.v) * c.phaseMax + y.p - x.p
  {
    if n > 0 {
      TapIndex(c, x, n - 1);
      var y := NthTap(c, x, n - 1);
      Distribute(y.v - x.v, 1, c.phaseMax);
    }
  }

  /** Step 4a is about to try phase tap p of VFIFO step v: the n-th usable tap is
      the one before it. */
  ghost predicate TapBefore(c: Taps, x: Position, n: nat, v: nat, p: nat, d: nat) {
    if p == 0 then v > 0 && NthTap(c, x, n) == Position(v - 1, c.phaseMax, d)
    else NthTap(c, x, n) == Position(v, p - 1, d)
  }

  /** The reads made when step 4a has tried tap p, k VFIFO steps on; p is 0 when it
      is about to try tap 0. */
  lemma TapCount(c: Taps, x: Position, n: nat, k: nat, p: nat)
    requires c.Valid() && x.p <= c.phaseMax
    requires if p == 0 then TapBefore(c, x, n, x.v + k, 0, x.d) && k > 0
             else NthTap(c, x, n) == Position(x.v + k, p, x.d)
    ensures n == k * c.phaseMax + p - x.p
  {
    TapIndex(c, x, n);
    if p == 0 {
      Distribute(k - 1, 1, c.phaseMax);
    }
  }

  lemma {:induction false} RunOfTaps(c: Taps, x: Position, n: nat, v: nat, p: nat, d: nat, m: nat)
    requires c.Valid() && TapBefore(c, x, n, v, p, d) && m + (if p == 0 then 1 else p) <= c.phaseMax + 1
    ensures m > 0 ==> NthTap(c, x, n + m) == Position(v, (if p == 0 then 1 else p) + m - 1, d)
  {
    if m > 1 {
      RunOfTaps(c, x, n, v, p, d, m - 1);
    }
  }

  lemma VisitsTaps(at: seq<Position>, c: Taps, x: Position, n: nat, v: nat, p: nat, d: nat, a: nat, b: nat)
    requires c.Valid() && TapBefore(c, x, n, v, p, d) && a <= b && b - a + (if p == 0 then 1 else p) <= c.phaseMax + 1
    requires Visits(at, a, b, PhaseSteps(v, if p == 0 then 1 else p, d))
    ensures Visits(at, a, b, TapsAfter(c, x, n))
  {
    forall k | a <= k < b ensures at[k] == Nth(TapsAfter(c, x, n), k - a) {
      var m: nat := k - a;
      RunOfTaps(c, x, n, v, p, d, m + 1);
      assert at[k] == Nth(PhaseSteps(v, if p == 0 then 1 else p, d), m);
    }
  }

  lemma Distribute(a: int, b: int, x: int)
    ensures (a + b) * x == a * x + b * x
  {
  }

  lemma Associate(a: int, b: int, x: int)
    ensures a * b * x == a * (b * x)
  {
  }

  lemma EndBound(c: Taps, end: nat, d0: nat, d: nat)
    requires end >= c.opa && (d0 > 0 ==> end >= c.opa + c.dchain) && d0 <= d
    ensures end + (d - d0) * c.dchain - (if d == 0 then 0 else c.dchain) >= if d0 == 0 then end else c.opa
  {
    if d > d0 {
      Distribute(d - d0 - 1, 1, c.dchain);
    }
  }

  /** Past the last phase tap is tap 0 of the next VFIFO step. */
  lemma Turn(c: Taps, k: nat, p0: int)
    ensures Moved(c, k, c.phaseMax + 1 - p0) == Moved(c, k + 1, 0 - p0)
  {
    Distribute(k, 1, c.Period());
    Distribute(c.phaseMax + 1, -p0, c.opa);
  }

  lemma TapsOn(c: Taps, k: nat, p0: int, p: nat, q: nat)
    requires p <= q
    ensures Moved(c, k, q - p0) == Moved(c, k, p - p0) + (q - p) * c.opa
    ensures (q - p) * c.opa >= if q > p then c.opa else 0
  {
    Distribute(p - p0, q - p, c.opa);
    if q > p {
      Distribute(q - p - 1, 1, c.opa);
    }
  }

  lemma BackOff(c: Taps, k: nat, x: int, p1: nat)
    ensures Moved(c, k, x) - (if p1 == 1 then 2 else 1) * c.opa == Moved(c, k, x - if p1 == 1 then 2 else 1)
  {
    Distribute(x, if p1 == 1 then -2 else -1, c.opa);
  }

  lemma PassesOn(answers: nat -> bool, a: nat, b: nat, e: nat, excused: bool, first: bool)
    requires Passes(answers, a, b, excused) && Passes(answers, b, e, first) && (first ==> a == b)
    ensures Passes(answers, a, e, excused || first)
  {
  }

  lemma AtLeast(n: nat, k: nat, x: nat)
    requires n >= k
    ensures n * x >= k * x
  {
  }

  lemma WorkBounds(c: Taps, s: Setting)
    requires s.p >= 1
    ensures var work := Delay(c, s);
            && work >= c.opa
            && (s.p >= 2 ==> work >= 2 * c.opa)
            && (s.d > 0 ==> work >= c.opa + c.dchain)
  {
    var x, y, z := s.d * c.dchain, s.i * c.Period(), s.p * c.opa;
    assert Delay(c, s) == x + y + z && y >= 0;
    AtLeast(s.p, if s.p >= 2 then 2 else 1, c.opa);
    AtLeast(s.d, if s.d > 0 then 1 else 0, c.dchain);
  }

  lemma TapsGrow(c: Taps, d: nat, e: nat)
    requires d <= e
    ensures d * c.dchain <= e * c.dchain
  {
  }

  lemma StepFits(c: Taps, dtaps: nat)
    requires c.Valid() && c.Fits() && OneLess(c, dtaps)
    ensures dtaps <= c.delayMax
  {
    if c.delayMax < dtaps {
      TapsGrow(c, c.delayMax, dtaps);
    }
  }

  /** A delay beyond phase tap p, not beyond the next, and beyond the end of the
      delay chain. */
  ghost predicate TooFar(c: Taps, m: nat, p: nat) {
    c.opa < m && p * c.opa + c.delayMax * c.dchain < m <= (p + 1) * c.opa
  }

  lemma FitsReaches(c: Taps, p: nat, m: nat)
    requires c.Valid() && c.Fits()
    ensures !TooFar(c, m, p)
  {
    Distribute(p, 1, c.opa);
  }

  /** The delay chain reaches every middle exactly when it spans a phase tap;
      otherwise step 6 programs one delay tap past the end of the chain, for
      instance when the middle falls on a phase tap. */
  lemma FitsExactly(c: Taps)
    requires c.Valid()
    ensures c.Fits() <==> forall p: nat, m: nat :: 1 <= p <= c.phaseMax ==> !TooFar(c, m, p)
  {
    if c.Fits() {
      forall p: nat, m: nat ensures !TooFar(c, m, p) {
        FitsReaches(c, p, m);
      }
    } else {
      assert TooFar(c, 2 * c.opa, 1);
    }
  }

  /** m is x less a whole number of VFIFO steps, in the first step. */
  ghost predicate IsReduced(c: Taps, x: nat, m: nat) {
    0 < m <= c.Period() && exists k: nat :: x == m + k * c.Period()
  }

  /** The setting for a delay m: the first one not below it, in steps of one
      delay tap, except that a target within phase tap 0 snaps to tap 1. */
  ghost predicate IsPlaced(c: Taps, m: nat, phase: nat, delay: nat) {
    && 1 <= phase <= c.phaseMax && delay <= c.delayMax
    && (if m <= c.opa then phase == 1 && delay == 0
        else m <= phase * c.opa + delay * c.dchain < m + c.dchain && phase * c.opa < m <= (phase + 1) * c.opa)
  }

  /** Backed off from the n-th tap that step 4a tries, the end has moved on by that
      many phase taps but one, and by one more for each VFIFO step. */
  lemma EndMoves(c: Taps, k: nat, p1: nat, q: nat, n: nat)
    requires 1 <= p1 && n == k * c.phaseMax + p1 - q
    ensures Moved(c, k, p1 - q - if p1 == 1 then 2 else 1) == (n + k - if p1 == 1 then 2 else 1) * c.opa
  {
    var x := p1 - q - if p1 == 1 then 2 else 1;
    Associate(k, c.phaseMax + 1, c.opa);
    Distribute(k, x, c.opa);
    Distribute(c.phaseMax, 1, k);
    Distribute(k * (c.phaseMax + 1), x, c.opa);
  }

  /** Steps 4a and 5a leave the end at or after where they began, and a phase tap
      after it when the beginning was moved. */
  lemma EndIsLater(c: Taps, answers: nat -> bool, b: nat, e: nat, i: nat, q: nat, work: nat,
                   moved: bool, k: nat, p1: nat, end: nat)
    requires c.Valid() && q <= c.phaseMax && Ends(c, answers, b, e, i, q, work, moved, k, p1, end)
    ensures end >= work + if moved then c.opa else 0
  {
    EndMoves(c, k, p1, q, e - b);
    assert moved ==> e - b >= 2;
    assert k == 0 && p1 == 1 ==> q == 0 && e - b == 1;
    AtLeast(e - b + k - if p1 == 1 then 2 else 1, if moved then 1 else 0, c.opa);
  }

  /** Without delay taps the window is never empty, whatever the answers. */
  lemma NeverEmpty(c: Taps, answers: nat -> bool, a: nat, first: Setting, t: Trail, bgn: nat, end: nat)
    requires c.Valid() && WindowOf(c, answers, a, first, t, bgn, end) && first.d == 0 && 1 <= first.p <= c.phaseMax
    ensures bgn <= end
  {
    EndIsLater(c, answers, t.b, t.e, first.i, Restored(c, first.p), Delay(c, first), t.moved, t.k, t.p, t.end);
    if t.d > 0 {
      AtLeast(t.d, 1, c.dchain);
    }
  }

  /** With delay taps it is empty exactly when the first setting fails on being
      read again. */
  lemma EmptyWhenFailing(c: Taps, answers: nat -> bool, a: nat, first: Setting, t: Trail, bgn: nat, end: nat)
    requires c.Valid() && WindowOf(c, answers, a, first, t, bgn, end) && 0 < first.d <= c.delayMax
    ensures end < bgn <==> !answers(a)
  {
    if t.d > first.d {
      AtLeast(t.d - first.d, 1, c.dchain);
    }
  }

  /** How a search went: the reads made after step 1, the delay taps step 2 may
      try, the reads after step 2, the first setting that passed, the edges around
      it, the reads after step 5, the window, the reads made when tracking was
      measured, and the middle of the window within one VFIFO step. */
  datatype Course = Course(s: nat, n: nat, w: nat, first: Setting, trail: Trail, x: nat, bgn: nat, end: nat,
                           y: nat, m: nat)

  /** Steps 0 and 1 succeed. */
  ghost predicate Starts(c: Taps, answers: nat -> bool, a: nat, r: Course) {
    && r.s <= a + c.vfifoSize && (exists k :: SecondFail(answers, a, k, r.s)) && OneLess(c, r.n)
  }

  /** Step 2 finds a setting that passes. */
  ghost predicate HasFirst(c: Taps, answers: nat -> bool, r: Course) {
    FirstAt(c, answers, r.s, r.first) && r.first.d <= r.n && r.w == ReadsTo(c, r.s, r.first)
  }

  /** Steps 3 to 5 end with a window. */
  ghost predicate HasWindow(c: Taps, answers: nat -> bool, r: Course) {
    WindowOf(c, answers, r.w, r.first, r.trail, r.bgn, r.end) && r.x == r.trail.z
  }

  ghost predicate HasMeasure(c: Taps, answers: nat -> bool, r: Course, dtaps: nat) {
    r.trail.d <= c.delayMax + 1 && exists e: nat :: Measured(c, answers, r.trail.z, r.y, e, r.trail.d, dtaps)
  }

  /** Where step 5 looked for the edge in a search that began at VFIFO step v. */
  function EdgeOf(c: Taps, a: nat, v: nat, r: Course): Position {
    EdgeAt(c, Where(c, StartOfTries(v, a, r.s), r.first).v, r.first, r.trail)
  }

  /** Where tracking was measured. */
  function TrackingOf(c: Taps, a: nat, v: nat, r: Course): Position {
    BackedOff(c, EdgeOf(c, a, v, r).v, EdgeOf(c, a, v, r).p)
  }

  /** With the answers from `a` to `z`, the course explains a success of a search
      that began at VFIFO step v0: the measured taps, the final VFIFO step and the
      final registers. */
  ghost predicate Explains(c: Taps, answers: nat -> bool, a: nat, z: nat, v0: nat, r: Course,
                           dtaps: nat, v: nat, phase: nat, delay: nat) {
    && Starts(c, answers, a, r) && HasFirst(c, answers, r) && HasWindow(c, answers, r)
    && c.opa <= r.bgn <= r.end && HasMeasure(c, answers, r, dtaps)
    && IsReduced(c, (r.bgn + r.end) / 2, r.m) && IsPlaced(c, r.m, phase, delay)
    && r.y < z <= r.y + c.vfifoSize && All(answers, r.y, z - 1, false) && answers(z - 1)
    && v == TrackingOf(c, a, v0, r).v + (z - r.y - 1)
  }

  /** Step 1 gives up: at most one fail. */
  ghost predicate NoTwoFails(c: Taps, answers: nat -> bool, a: nat, z: nat, r: Course) {
    r.s == z == a + c.vfifoSize && exists k: nat :: OneFail(answers, a, k, z)
  }

  /** Step 2 gives up: no setting that passes. */
  ghost predicate NoPass(c: Taps, answers: nat -> bool, a: nat, z: nat, r: Course) {
    Starts(c, answers, a, r) && NoFirst(c, answers, r.s, r.n, z) && r.w == z
  }

  /** Step 4a gives up: no failing edge. */
  ghost predicate NoFailingEdge(c: Taps, answers: nat -> bool, a: nat, z: nat, r: Course) {
    && Starts(c, answers, a, r) && HasFirst(c, answers, r) && r.first.d == 0 && r.trail.e == z
    && NoEnd(c, answers, r.w, r.first.i, r.first.p, Delay(c, r.first), r.trail, z)
  }

  /** Steps 1 to 5 give up. */
  ghost predicate NoWindow(c: Taps, answers: nat -> bool, a: nat, z: nat, r: Course) {
    NoTwoFails(c, answers, a, z, r) || NoPass(c, answers, a, z, r) || NoFailingEdge(c, answers, a, z, r)
  }

  /** With the answers from `a` to `z`, the course explains a failure: no window,
      an empty one, which takes a first setting with delay taps, or no passing read
      at its middle, where the registers are. */
  ghost predicate GivesUp(c: Taps, answers: nat -> bool, a: nat, z: nat, r: Course,
                          dtaps: nat, phase: nat, delay: nat) {
    || NoWindow(c, answers, a, z, r)
    || (Starts(c, answers, a, r) && HasFirst(c, answers, r) && HasWindow(c, answers, r)
        && ((z == r.x && r.first.d > 0 && r.end < r.bgn)
            || (HasMeasure(c, answers, r, dtaps)
                && IsReduced(c, (r.bgn + r.end) / 2, r.m) && IsPlaced(c, r.m, phase, delay)
                && z == r.y + c.vfifoSize && All(answers, r.y, z, false))))
  }

  /** Where a search that began at VFIFO step v0 made each of its reads from a to z,
      successful or not. The parts a failed search did not get to are empty. */
  ghost predicate ReadsAt(c: Taps, at: seq<Position>, a: nat, z: nat, v0: nat, r: Course, phase: nat, delay: nat) {
    var x := TrackingOf(c, a, v0, r);
    && SearchReads(c, at, a, v0, r.s, r.w, r.x, r.first, r.trail)
    && Visits(at, r.x, r.y, DelaySteps(x.v, x.p, r.trail.d))
    && Visits(at, r.y, z, VfifoSteps(x.v, phase, delay))
  }

  /** What tracking, step 6 and the last push add to a course with a window. */
  lemma Concludes(c: Taps, answers: nat -> bool, a: nat, z: nat, v0: nat, r: Course, y: nat, m: nat,
                  found: bool, dtaps: nat, v: nat, phase: nat, delay: nat)
    requires Starts(c, answers, a, r) && HasFirst(c, answers, r) && HasWindow(c, answers, r)
    requires c.opa <= r.bgn <= r.end && HasMeasure(c, answers, r.(y := y), dtaps)
    requires IsReduced(c, (r.bgn + r.end) / 2, m) && IsPlaced(c, m, phase, delay)
    requires if found then y < z <= y + c.vfifoSize && All(answers, y, z - 1, false) && answers(z - 1)
             else z == y + c.vfifoSize && All(answers, y, z, false)
    requires found ==> v == TrackingOf(c, a, v0, r).v + (z - y - 1)
    ensures found ==> Explains(c, answers, a, z, v0, r.(y := y, m := m), dtaps, v, phase, delay)
    ensures !found ==> GivesUp(c, answers, a, z, r.(y := y, m := m), dtaps, phase, delay)
  {
    var r' := r.(y := y, m := m);
    assert TrackingOf(c, a, v0, r') == TrackingOf(c, a, v0, r);
  }

  lemma ReadsConclude(c: Taps, was: seq<Position>, at: seq<Position>, a: nat, z: nat, v0: nat, r: Course,
                      y: nat, m: nat, phase: nat, delay: nat)
    requires was <= at && SearchReads(c, was, a, v0, r.s, r.w, r.x, r.first, r.trail)
    requires var x := TrackingOf(c, a, v0, r);
             Visits(at, r.x, y, DelaySteps(x.v, x.p, r.trail.d)) && Visits(at, y, z, VfifoSteps(x.v, phase, delay))
    ensures ReadsAt(c, at, a, z, v0, r.(y := y, m := m), phase, delay)
  {
    GrowSearchReads(was, at, c, a, v0, r.s, r.w, r.x, r.first, r.trail);
  }
}
