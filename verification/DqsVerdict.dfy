/** When the search for the DQS enable setting succeeds on steady hardware. */
module DqsVerdict {
  import opened DqsSpec
  import opened DqsOutcome
  import opened DqsEye
  import opened DqsAim

  /** Among all VFIFO steps from v0 on, two fail. */
  ghost predicate TwoFail(c: Taps, eye: int -> bool, v0: nat) {
    exists v, w :: v0 <= v < w < v0 + c.vfifoSize && FailsAt(c, eye, v) && FailsAt(c, eye, w)
  }

  /** Some setting that step 2 may try passes. */
  ghost predicate Tryable(c: Taps, eye: int -> bool) { exists x: Position :: MayTry(c, x) && eye(Total(c, x)) }

  /** Its phase tap is usable and its delay taps do not cover a phase tap. */
  predicate MayTry(c: Taps, x: Position) { 1 <= x.p <= c.phaseMax && x.d * c.dchain < c.opa }

  /** The eye has an aim, and the middle it aims at passes in some VFIFO step. */
  ghost predicate AimsWell(c: Taps, eye: int -> bool, v0: nat) {
    exists q :: Aims(c, eye, v0, q) && MiddleOpens(c, eye, q.m)
  }

  // ------------------------------------------------------------- Round the VFIFO

  lemma AroundTotal(c: Taps, eye: int -> bool, v: nat, w: nat, p: nat, d: nat, n: nat)
    requires GoesRound(c, eye) && w == v + n * c.vfifoSize
    ensures eye(Total(c, Position(v, p, d))) == eye(Total(c, Position(w, p, d)))
  {
    Distribute(v, n * c.vfifoSize, c.Period());
    Associate(n, c.vfifoSize, c.Period());
    Around(c, eye, Total(c, Position(v, p, d)), n);
  }

  /** Every VFIFO step comes round among the ones from v on. */
  lemma SameStep(c: Taps, eye: int -> bool, v: nat, w: nat, p: nat, d: nat) returns (n: nat)
    requires c.Valid() && GoesRound(c, eye)
    ensures n < c.vfifoSize && eye(Total(c, Position(v + n, p, d))) == eye(Total(c, Position(w, p, d)))
  {
    n := (w - v) % c.vfifoSize;
    var q := (w - v) / c.vfifoSize;
    assert w == v + n + q * c.vfifoSize;
    if q >= 0 {
      AroundTotal(c, eye, v + n, w, p, d, q);
    } else {
      assert v + n == w + -q * c.vfifoSize;
      AroundTotal(c, eye, w, v + n, p, d, -q);
    }
  }

  // -------------------------------------------------------------- Steps 1 and 2

  lemma TwoFailed(c: Taps, answers: nat -> bool, eye: int -> bool, a: nat, v0: nat, k: nat, s: nat)
    requires SecondFail(answers, a, k, s) && s <= a + c.vfifoSize
    requires Sees(c, answers, eye, a, s, VfifoSteps(v0, 1, 0))
    ensures TwoFail(c, eye, v0)
  {
    var last: nat := s - 1;
    assert answers(k) == eye(Total(c, Nth(VfifoSteps(v0, 1, 0), k - a)));
    assert answers(last) == eye(Total(c, Nth(VfifoSteps(v0, 1, 0), last - a)));
    var v: nat, w: nat := v0 + (k - a), v0 + (last - a);
    assert FailsAt(c, eye, v) && FailsAt(c, eye, w);
  }

  lemma NotTwoFail(c: Taps, answers: nat -> bool, eye: int -> bool, a: nat, v0: nat, k: nat, z: nat)
    requires OneFail(answers, a, k, z) && z == a + c.vfifoSize
    requires Sees(c, answers, eye, a, z, VfifoSteps(v0, 1, 0))
    ensures !TwoFail(c, eye, v0)
  {
    forall v | v0 <= v < v0 + c.vfifoSize && FailsAt(c, eye, v) ensures v - v0 == k - a {
      var j: nat := a + (v - v0);
      assert answers(j) == eye(Total(c, Nth(VfifoSteps(v0, 1, 0), j - a)));
    }
  }

  lemma TotalFrom(c: Taps, v: nat, s: Setting)
    ensures Total(c, Position(v + s.i, s.p, s.d)) == v * c.Period() + Delay(c, s)
  {
    Distribute(v, s.i, c.Period());
  }

  /** Fewer delay taps than cover a phase tap are at most those step 2 tries. */
  lemma TapsTried(c: Taps, n: nat, d: nat)
    requires c.Valid() && OneLess(c, n)
    ensures d <= n <==> d * c.dchain < c.opa
  {
    TapsGrowIf(c, d, n);
    TapsGrowIf(c, n + 1, d);
  }

  lemma TapsGrowIf(c: Taps, d: nat, e: nat)
    ensures d <= e ==> d * c.dchain <= e * c.dchain
  {
    if d <= e {
      TapsGrow(c, d, e);
    }
  }

  /** Step 2 gives up only when it tried every setting it may try, in vain. */
  lemma TapFailed(c: Taps, answers: nat -> bool, eye: int -> bool, a: nat, v: nat, n: nat, z: nat, y: Position)
    requires c.Valid() && GoesRound(c, eye) && NoFirst(c, answers, a, n, z) && OneLess(c, n) && MayTry(c, y)
    requires Sees(c, answers, eye, a, z, Tries(c, v, 0))
    ensures !eye(Total(c, y))
  {
    var i := SameStep(c, eye, v, y.v, y.p, y.d);
    TapsTried(c, n, y.d);
    SettingFailed(c, answers, eye, a, v, n, z, Setting(y.d, i, y.p));
    TotalFrom(c, v, Setting(y.d, i, y.p));
  }

  lemma SettingFailed(c: Taps, answers: nat -> bool, eye: int -> bool, a: nat, v: nat, n: nat, z: nat, s: Setting)
    requires c.Valid() && GoesRound(c, eye) && NoFirst(c, answers, a, n, z) && Usable(c, s) && s.d <= n
    requires Sees(c, answers, eye, a, z, Tries(c, v, 0))
    ensures !eye(v * c.Period() + Delay(c, s))
  {
    SettingsInOrder(c, a, s, n);
    ReadsFrom(c, a, s);
    Tried(c, answers, eye, a, z, v, s);
    var k: nat := ReadsTo(c, a, s) - 1;
    assert !answers(k);
  }

  // --------------------------------------------------------------------- Step 4a

  /** The usable taps from tap q of VFIFO step i to tap 1 of the step that is a
      round after the first. */
  function Steps(c: Taps, i: nat, q: nat): (n: nat)
    requires i < c.vfifoSize && q <= c.phaseMax
  {
    (c.vfifoSize - 1 - i) * c.phaseMax + c.phaseMax + 1 - q
  }

  /** Step 4a reads enough taps to come round to phase tap 1 of the VFIFO step at
      which step 2 started. */
  lemma ComesRound(c: Taps, i: nat, q: nat, n: nat)
    requires c.Valid() && i < c.vfifoSize && 1 <= q <= c.phaseMax && n == Steps(c, i, q)
    ensures 1 <= n <= Rounds(c, i, q) * c.phaseMax - q && (n == 1 ==> q == c.phaseMax)
  {
    var k, rounds := c.vfifoSize - i, Rounds(c, i, q);
    Distribute(k, 1, c.phaseMax);
    AtLeast(k, 1, c.phaseMax);
    AtLeast(rounds, k + 1, c.phaseMax);
  }

  lemma ReadAround(c: Taps, answers: nat -> bool, eye: int -> bool, b: nat, z: nat, v: nat, i: nat, x: Position)
    returns (n: nat)
    requires c.Valid() && GoesRound(c, eye) && i < c.vfifoSize && FailsAt(c, eye, v)
    requires 1 <= x.p <= c.phaseMax && x.v == v + i && x.d == 0
    requires Sees(c, answers, eye, b, z, TapsAfter(c, x, 0))
    ensures 1 <= n <= Rounds(c, i, x.p) * c.phaseMax - x.p && (n == 1 ==> x.p == c.phaseMax)
    ensures b + n <= z ==> !answers(b + n - 1)
  {
    n := Steps(c, i, x.p);
    ComesRound(c, i, x.p, n);
    TapAt(c, x, n, c.vfifoSize - i, 1);
    AroundTotal(c, eye, v, v + c.vfifoSize, 1, 0, 1);
    var j: nat := b + n - 1;
    assert j < z ==> answers(j) == eye(Total(c, Nth(TapsAfter(c, x, 0), j - b)));
  }

  /** Step 4a finds an end, there at the latest, because step 1 saw a fail there. */
  lemma EndIsThere(c: Taps, answers: nat -> bool, eye: int -> bool, b: nat, z: nat, v: nat, i: nat,
                   x: Position, moved: bool)
    requires c.Valid() && GoesRound(c, eye) && i < c.vfifoSize && FailsAt(c, eye, v)
    requires 1 <= x.p <= c.phaseMax && x.v == v + i && x.d == 0
    requires Sees(c, answers, eye, b, z, TapsAfter(c, x, 0))
    ensures !Exhausted(c, answers, b, z, i, x.p, moved)
  {
    var n := ReadAround(c, answers, eye, b, z, v, i, x);
    FailIsSeen(c, answers, b, z, i, x.p, moved, n);
  }

  lemma FailIsSeen(c: Taps, answers: nat -> bool, b: nat, z: nat, i: nat, q: nat, moved: bool, n: nat)
    requires 1 <= n <= Rounds(c, i, q) * c.phaseMax - q && (n == 1 ==> q == c.phaseMax)
    requires b + n <= z ==> !answers(b + n - 1)
    ensures !Exhausted(c, answers, b, z, i, q, moved)
  {
  }

  // ------------------------------------------------------------------ The verdict

  /** Steady hardware, read as the contract of the search says. */
  ghost predicate Observed(c: Taps, answers: nat -> bool, at: seq<Position>, eye: int -> bool, a: nat, z: nat,
                           v0: nat, r: Course, phase: nat, delay: nat) {
    Steady(c, answers, at, a, z, eye) && ReadsAt(c, at, a, z, v0, r, phase, delay)
  }

  lemma StartsOnFails(c: Taps, answers: nat -> bool, at: seq<Position>, eye: int -> bool, a: nat, z: nat,
                      v0: nat, r: Course, phase: nat, delay: nat)
    requires Observed(c, answers, at, eye, a, z, v0, r, phase, delay) && Starts(c, answers, a, r) && r.s <= z
    ensures TwoFail(c, eye, v0) && FailsAt(c, eye, StartOfTries(v0, a, r.s))
  {
    SteadySees(c, answers, at, a, z, eye, a, r.s, VfifoSteps(v0, 1, 0));
    var k :| SecondFail(answers, a, k, r.s);
    TwoFailed(c, answers, eye, a, v0, k, r.s);
    StartFails(c, answers, eye, a, v0, k, r.s);
  }

  lemma FirstMayBeTried(c: Taps, eye: int -> bool, v: nat, n: nat, s: Setting)
    requires c.Valid() && OneLess(c, n) && s.d <= n && IsFirst(c, eye, v * c.Period(), s)
    ensures Tryable(c, eye)
  {
    TotalFrom(c, v, s);
    TapsTried(c, n, s.d);
    var x := Position(v + s.i, s.p, s.d);
    assert MayTry(c, x) && eye(Total(c, x));
  }

  lemma FailsAreFound(c: Taps, answers: nat -> bool, at: seq<Position>, eye: int -> bool, a: nat, z: nat,
                      v0: nat, r: Course, phase: nat, delay: nat)
    requires Observed(c, answers, at, eye, a, z, v0, r, phase, delay) && TwoFail(c, eye, v0)
    ensures !NoTwoFails(c, answers, a, z, r)
  {
    if NoTwoFails(c, answers, a, z, r) {
      SteadySees(c, answers, at, a, z, eye, a, z, VfifoSteps(v0, 1, 0));
      var k: nat :| OneFail(answers, a, k, z);
      NotTwoFail(c, answers, eye, a, v0, k, z);
    }
  }

  lemma PassIsFound(c: Taps, answers: nat -> bool, at: seq<Position>, eye: int -> bool, a: nat, z: nat,
                    v0: nat, r: Course, phase: nat, delay: nat)
    requires c.Valid() && GoesRound(c, eye) && Tryable(c, eye) && OneLess(c, r.n)
    requires Observed(c, answers, at, eye, a, z, v0, r, phase, delay) && a <= r.s && r.w == z
    ensures !NoFirst(c, answers, r.s, r.n, z)
  {
    SteadySees(c, answers, at, a, z, eye, r.s, z, Tries(c, StartOfTries(v0, a, r.s), 0));
    if NoFirst(c, answers, r.s, r.n, z) {
      var y: Position :| MayTry(c, y) && eye(Total(c, y));
      TapFailed(c, answers, eye, r.s, StartOfTries(v0, a, r.s), r.n, z, y);
    }
  }

  lemma EndIsFound(c: Taps, answers: nat -> bool, at: seq<Position>, eye: int -> bool, a: nat, z: nat,
                   v0: nat, r: Course, phase: nat, delay: nat)
    requires c.Valid() && c.phaseMax >= 2 && GoesRound(c, eye)
    requires Observed(c, answers, at, eye, a, z, v0, r, phase, delay)
    requires Starts(c, answers, a, r) && HasFirst(c, answers, r) && r.first.d == 0 && r.trail.e == z
    ensures !NoEnd(c, answers, r.w, r.first.i, r.first.p, Delay(c, r.first), r.trail, z)
  {
    var t, s, u := r.trail, r.first, Found(c, a, v0, r);
    CourseInOrder(c, answers, a, r);
    if r.w <= t.b < z {
      StartsOnFails(c, answers, at, eye, a, z, v0, r, phase, delay);
      SteadySees(c, answers, at, a, z, eye, t.b, z, TapsAfter(c, AfterRestore(c, u, s.p), 0));
      EndIsThere(c, answers, eye, t.b, z, StartOfTries(v0, a, r.s), s.i, AfterRestore(c, u, s.p), t.moved);
    }
  }

  lemma StepTwoSucceeds(c: Taps, answers: nat -> bool, at: seq<Position>, eye: int -> bool, a: nat, z: nat,
                        v0: nat, r: Course, phase: nat, delay: nat)
    requires c.Valid() && GoesRound(c, eye) && Tryable(c, eye)
    requires Observed(c, answers, at, eye, a, z, v0, r, phase, delay)
    ensures !NoPass(c, answers, a, z, r)
  {
    if NoPass(c, answers, a, z, r) {
      PassIsFound(c, answers, at, eye, a, z, v0, r, phase, delay);
    }
  }

  lemma StepFourSucceeds(c: Taps, answers: nat -> bool, at: seq<Position>, eye: int -> bool, a: nat, z: nat,
                         v0: nat, r: Course, phase: nat, delay: nat)
    requires c.Valid() && c.phaseMax >= 2 && GoesRound(c, eye)
    requires Observed(c, answers, at, eye, a, z, v0, r, phase, delay)
    ensures !NoFailingEdge(c, answers, a, z, r)
  {
    if NoFailingEdge(c, answers, a, z, r) {
      EndIsFound(c, answers, at, eye, a, z, v0, r, phase, delay);
    }
  }

  /** With two fails and a setting to be found, steps 1 to 5 find a window. */
  lemma HasAWindow(c: Taps, answers: nat -> bool, at: seq<Position>, eye: int -> bool, a: nat, z: nat,
                   v0: nat, r: Course, phase: nat, delay: nat)
    requires c.Valid() && c.phaseMax >= 2 && GoesRound(c, eye) && TwoFail(c, eye, v0) && Tryable(c, eye)
    requires Observed(c, answers, at, eye, a, z, v0, r, phase, delay)
    ensures !NoWindow(c, answers, a, z, r)
  {
    FailsAreFound(c, answers, at, eye, a, z, v0, r, phase, delay);
    StepTwoSucceeds(c, answers, at, eye, a, z, v0, r, phase, delay);
    StepFourSucceeds(c, answers, at, eye, a, z, v0, r, phase, delay);
  }

  /** On steady hardware no window is empty: read again, the first setting passes
      again. */
  lemma SteadyNotEmpty(c: Taps, answers: nat -> bool, at: seq<Position>, eye: int -> bool, a: nat, z: nat,
                       v0: nat, r: Course, phase: nat, delay: nat)
    requires c.Valid() && c.Fits() && GoesRound(c, eye) && r.x <= z
    requires Starts(c, answers, a, r) && HasFirst(c, answers, r) && HasWindow(c, answers, r)
    requires Observed(c, answers, at, eye, a, z, v0, r, phase, delay)
    ensures r.bgn <= r.end
  {
    if r.first.d == 0 {
      NeverEmpty(c, answers, r.w, r.first, r.trail, r.bgn, r.end);
    } else {
      CourseInOrder(c, answers, a, r);
      RunStartsAtEye(c, answers, at, eye, a, z, v0, r, phase, delay);
      WindowLegs(c, answers, at, eye, a, z, v0, r, phase, delay);
      DelayNotEmpty(c, answers, eye, a, v0, r);
    }
  }

  lemma DelayNotEmpty(c: Taps, answers: nat -> bool, eye: int -> bool, a: nat, v0: nat, r: Course)
    requires c.Valid() && c.Fits() && GoesRound(c, eye) && HasWindow(c, answers, r)
    requires OneLess(c, r.n) && 0 < r.first.d <= r.n && WindowSees(c, answers, eye, a, v0, r)
    requires IsFirst(c, eye, StartOfTries(v0, a, r.s) * c.Period(), r.first)
    ensures r.bgn <= r.end
  {
    StepFits(c, r.n);
    FirstReadAgain(c, answers, eye, r.w, StartOfTries(v0, a, r.s), r.first, r.trail, r.bgn, r.end);
  }

  lemma FirstReadAgain(c: Taps, answers: nat -> bool, eye: int -> bool, a: nat, v: nat, s: Setting,
                       t: Trail, bgn: nat, end: nat)
    requires c.Valid() && GoesRound(c, eye) && WindowOf(c, answers, a, s, t, bgn, end) && 0 < s.d <= c.delayMax
    requires eye(v * c.Period() + Delay(c, s))
    requires Sees(c, answers, eye, a, t.z, DelaySteps(Where(c, v, s).v, s.p, s.d))
    ensures bgn <= end
  {
    TotalOfSetting(c, v, s);
    Around(c, eye, v * c.Period() + Delay(c, s), s.d);
    EmptyWhenFailing(c, answers, a, s, t, bgn, end);
    LastPasses(c, answers, eye, a, t.z, Where(c, v, s).v, s.p, s.d, Delay(c, s), t.d, end);
  }

  /** The last push goes through all VFIFO steps. */
  lemma PushMisses(c: Taps, answers: nat -> bool, eye: int -> bool, y: nat, v: nat, m: nat, phase: nat, delay: nat)
    requires c.Valid() && GoesRound(c, eye) && IsPlaced(c, m, phase, delay)
    requires Sees(c, answers, eye, y, y + c.vfifoSize, VfifoSteps(v, phase, delay))
    requires All(answers, y, y + c.vfifoSize, false)
    ensures !MiddleOpens(c, eye, m)
  {
    forall x: Position | IsPlaced(c, m, x.p, x.d) ensures !eye(Total(c, x)) {
      PlaceIsDetermined(c, m, phase, delay, x.p, x.d);
      var n := SameStep(c, eye, v, x.v, phase, delay);
      LegAt(c, answers, eye, y, y + c.vfifoSize, VfifoSteps(v, phase, delay), y + n);
      assert x == Position(x.v, phase, delay);
    }
  }

  lemma MeasureInOrder(c: Taps, answers: nat -> bool, a: nat, r: Course, dtaps: nat)
    requires Starts(c, answers, a, r) && HasFirst(c, answers, r) && HasWindow(c, answers, r)
    requires HasMeasure(c, answers, r, dtaps)
    ensures a <= r.x <= r.y
  {
    CourseInOrder(c, answers, a, r);
  }

  /** A failure after the window was found means that its middle passes nowhere. */
  lemma MiddleMisses(c: Taps, answers: nat -> bool, at: seq<Position>, eye: int -> bool, a: nat, z: nat,
                     v0: nat, r: Course, phase: nat, delay: nat, dtaps: nat)
    requires c.Valid() && GoesRound(c, eye) && NoneAtMiddle(c, answers, a, z, r, dtaps, phase, delay)
    requires Observed(c, answers, at, eye, a, z, v0, r, phase, delay)
    ensures !MiddleOpens(c, eye, r.m)
  {
    MeasureInOrder(c, answers, a, r, dtaps);
    SteadySees(c, answers, at, a, z, eye, r.y, z, VfifoSteps(TrackingOf(c, a, v0, r).v, phase, delay));
    PushMisses(c, answers, eye, r.y, TrackingOf(c, a, v0, r).v, r.m, phase, delay);
  }

  lemma MiddleIsSeen(c: Taps, eye: int -> bool, m: nat, v: nat, phase: nat, delay: nat)
    requires IsPlaced(c, m, phase, delay) && eye(Total(c, Position(v, phase, delay)))
    ensures MiddleOpens(c, eye, m)
  {
    var x := Position(v, phase, delay);
    assert IsPlaced(c, m, x.p, x.d) && eye(Total(c, x));
  }

  /** A success ends at a setting in the eye. */
  lemma MiddleHits(c: Taps, answers: nat -> bool, at: seq<Position>, eye: int -> bool, a: nat, z: nat,
                   v0: nat, r: Course, phase: nat, delay: nat, dtaps: nat, v: nat)
    requires Explains(c, answers, a, z, v0, r, dtaps, v, phase, delay)
    requires Observed(c, answers, at, eye, a, z, v0, r, phase, delay)
    ensures eye(Total(c, Position(v, phase, delay)))
  {
    MeasureInOrder(c, answers, a, r, dtaps);
    var last: nat, x := z - 1, TrackingOf(c, a, v0, r);
    SteadySees(c, answers, at, a, z, eye, r.y, z, VfifoSteps(x.v, phase, delay));
    assert answers(last) == eye(Total(c, Nth(VfifoSteps(x.v, phase, delay), last - r.y)));
  }

  /** An eye with an aim has two fails and a setting to be found. */
  lemma AimsNeed(c: Taps, eye: int -> bool, v0: nat, q: Aim)
    requires c.Valid() && Aims(c, eye, v0, q)
    ensures TwoFail(c, eye, v0) && Tryable(c, eye)
  {
    var u :| TwoFailing(c, eye, v0, u, q.v);
    assert FailsAt(c, eye, u) && FailsAt(c, eye, q.v);
    FirstMayBeTried(c, eye, q.v, q.n, q.first);
  }

  /** What the search reports, explained by a course and read where the course says. */
  ghost predicate Reports(c: Taps, answers: nat -> bool, a: nat, z: nat, v0: nat, r: Course,
                          dtaps: nat, v: nat, phase: nat, delay: nat, found: bool) {
    if found then Explains(c, answers, a, z, v0, r, dtaps, v, phase, delay)
    else GivesUp(c, answers, a, z, r, dtaps, phase, delay)
  }

  lemma SuccessAimsWell(c: Taps, answers: nat -> bool, at: seq<Position>, eye: int -> bool, a: nat, z: nat,
                        v0: nat, r: Course, phase: nat, delay: nat, dtaps: nat, v: nat) returns (q: Aim)
    requires c.Valid() && GoesRound(c, eye) && Explains(c, answers, a, z, v0, r, dtaps, v, phase, delay)
    requires Observed(c, answers, at, eye, a, z, v0, r, phase, delay)
    ensures Aims(c, eye, v0, q) && AimOfCourse(a, v0, r, q)
    ensures IsPlaced(c, q.m, phase, delay) && eye(Total(c, Position(v, phase, delay)))
  {
    MeasureInOrder(c, answers, a, r, dtaps);
    MiddleHits(c, answers, at, eye, a, z, v0, r, phase, delay, dtaps, v);
    q := RunAims(c, answers, at, eye, a, z, v0, r, phase, delay);
  }

  lemma ExhaustedOnLeg(c: Taps, answers: nat -> bool, eye: int -> bool, b: nat, z: nat, f: Order,
                       i: nat, q: nat, moved: bool)
    requires Sees(c, answers, eye, b, z, f) && Exhausted(c, answers, b, z, i, q, moved)
    ensures Exhausted(c, Leg(c, eye, f), 0, z - b, i, q, moved)
  {
    LegAt(c, answers, eye, b, z, f, b);
    PassesOnLeg(c, answers, eye, b, z, f, z, moved);
  }

  /** An eye with an aim lets step 4a find its end. */
  lemma AimHasEnd(c: Taps, answers: nat -> bool, at: seq<Position>, eye: int -> bool, a: nat, z: nat,
                  v0: nat, r: Course, phase: nat, delay: nat, q: Aim)
    requires c.Valid() && GoesRound(c, eye) && Aims(c, eye, v0, q)
    requires Observed(c, answers, at, eye, a, z, v0, r, phase, delay)
    requires Starts(c, answers, a, r) && HasFirst(c, answers, r) && r.first.d == 0 && r.trail.e == z
    ensures !NoEnd(c, answers, r.w, r.first.i, r.first.p, Delay(c, r.first), r.trail, z)
  {
    var t, s := r.trail, r.first;
    CourseInOrder(c, answers, a, r);
    if r.w <= t.b < z {
      SameStart(c, answers, at, eye, a, z, v0, r, phase, delay, q);
      var y := AfterRestore(c, Found(c, a, v0, r), s.p);
      SteadySees(c, answers, at, a, z, eye, t.b, z, TapsAfter(c, y, 0));
      if Exhausted(c, answers, t.b, z, s.i, y.p, t.moved) {
        ExhaustedOnLeg(c, answers, eye, t.b, z, TapsAfter(c, y, 0), s.i, y.p, t.moved);
        EndsAreNotExhausted(c, eye, y, s, q.trail, q.end, z - t.b, t.moved);
      }
    }
  }

  lemma EndsAreNotExhausted(c: Taps, eye: int -> bool, y: Position, s: Setting, t: Trail, end: nat, z: nat, moved: bool)
    requires EyeEnd(c, eye, y, s, t, end) && y.p == Restored(c, s.p)
    ensures !Exhausted(c, Leg(c, eye, TapsAfter(c, y, 0)), 0, z, s.i, y.p, moved)
  {
    EndExcludesExhausted(c, Leg(c, eye, TapsAfter(c, y, 0)), 0, t.e, s.i, y.p, Delay(c, s),
                         t.moved, t.k, t.p, t.end, z, moved);
  }

  /** The run starts where the aim says, and finds its first setting. */
  lemma SameStart(c: Taps, answers: nat -> bool, at: seq<Position>, eye: int -> bool, a: nat, z: nat,
                  v0: nat, r: Course, phase: nat, delay: nat, q: Aim)
    requires c.Valid() && GoesRound(c, eye) && Aims(c, eye, v0, q)
    requires Observed(c, answers, at, eye, a, z, v0, r, phase, delay)
    requires Starts(c, answers, a, r) && HasFirst(c, answers, r) && r.w <= z
    ensures q.v == StartOfTries(v0, a, r.s) && q.first == r.first
  {
    RunStartsAtEye(c, answers, at, eye, a, z, v0, r, phase, delay);
    var u :| TwoFailing(c, eye, v0, u, StartOfTries(v0, a, r.s));
    var u' :| TwoFailing(c, eye, v0, u', q.v);
    TwoFailingIsDetermined(c, eye, v0, u, StartOfTries(v0, a, r.s), u', q.v);
    IsFirstIsDetermined(c, eye, q.v * c.Period(), q.first, r.first);
  }

  lemma AimHasWindow(c: Taps, answers: nat -> bool, at: seq<Position>, eye: int -> bool, a: nat, z: nat,
                     v0: nat, r: Course, phase: nat, delay: nat, q: Aim)
    requires c.Valid() && GoesRound(c, eye) && Aims(c, eye, v0, q)
    requires Observed(c, answers, at, eye, a, z, v0, r, phase, delay)
    ensures !NoWindow(c, answers, a, z, r)
  {
    AimsNeed(c, eye, v0, q);
    FailsAreFound(c, answers, at, eye, a, z, v0, r, phase, delay);
    StepTwoSucceeds(c, answers, at, eye, a, z, v0, r, phase, delay);
    AimHasEdge(c, answers, at, eye, a, z, v0, r, phase, delay, q);
  }

  lemma AimHasEdge(c: Taps, answers: nat -> bool, at: seq<Position>, eye: int -> bool, a: nat, z: nat,
                   v0: nat, r: Course, phase: nat, delay: nat, q: Aim)
    requires c.Valid() && GoesRound(c, eye) && Aims(c, eye, v0, q)
    requires Observed(c, answers, at, eye, a, z, v0, r, phase, delay)
    ensures !NoFailingEdge(c, answers, a, z, r)
  {
    if NoFailingEdge(c, answers, a, z, r) {
      AimHasEnd(c, answers, at, eye, a, z, v0, r, phase, delay, q);
    }
  }

  lemma FailureAimsBadly(c: Taps, answers: nat -> bool, at: seq<Position>, eye: int -> bool, a: nat, z: nat,
                         v0: nat, r: Course, phase: nat, delay: nat, dtaps: nat)
    requires c.Valid() && c.Fits() && GoesRound(c, eye) && GivesUp(c, answers, a, z, r, dtaps, phase, delay)
    requires Observed(c, answers, at, eye, a, z, v0, r, phase, delay)
    ensures !AimsWell(c, eye, v0)
  {
    forall q | Aims(c, eye, v0, q) ensures !MiddleOpens(c, eye, q.m) {
      AimHasWindow(c, answers, at, eye, a, z, v0, r, phase, delay, q);
      NotEmptyAtEnd(c, answers, at, eye, a, z, v0, r, phase, delay, dtaps);
      MeasureInOrder(c, answers, a, r, dtaps);
      MiddleMisses(c, answers, at, eye, a, z, v0, r, phase, delay, dtaps);
      var q' := RunAims(c, answers, at, eye, a, z, v0, r, phase, delay);
      AimIsDetermined(c, eye, v0, q, q');
    }
  }

  /** A search that fails on steady hardware after finding a window fails at its middle. */
  lemma NotEmptyAtEnd(c: Taps, answers: nat -> bool, at: seq<Position>, eye: int -> bool, a: nat, z: nat,
                      v0: nat, r: Course, phase: nat, delay: nat, dtaps: nat)
    requires c.Valid() && c.Fits() && GoesRound(c, eye)
    requires GivesUp(c, answers, a, z, r, dtaps, phase, delay) && !NoWindow(c, answers, a, z, r)
    requires Observed(c, answers, at, eye, a, z, v0, r, phase, delay)
    ensures NoneAtMiddle(c, answers, a, z, r, dtaps, phase, delay)
  {
    if HasMeasure(c, answers, r, dtaps) && z == r.y + c.vfifoSize {
      MeasureInOrder(c, answers, a, r, dtaps);
    }
    SteadyNotEmpty(c, answers, at, eye, a, z, v0, r, phase, delay);
  }

  /** Steady hardware, any eye and any tap sizes: the search succeeds if and only if
      the middle that the eye makes it aim at passes, at its setting, in some VFIFO
      step. Then the final setting is such a one. */
  lemma SteadyVerdict(c: Taps, answers: nat -> bool, at: seq<Position>, eye: int -> bool, a: nat, z: nat,
                      v0: nat, r: Course, phase: nat, delay: nat, dtaps: nat,
                      v: nat, found: bool)
    requires c.Valid() && c.Fits() && GoesRound(c, eye)
    requires Reports(c, answers, a, z, v0, r, dtaps, v, phase, delay, found)
    requires Observed(c, answers, at, eye, a, z, v0, r, phase, delay)
    ensures found <==> AimsWell(c, eye, v0)
    ensures found ==> eye(Total(c, Position(v, phase, delay)))
    ensures found ==> exists q :: Aims(c, eye, v0, q) && AimOfCourse(a, v0, r, q) && IsPlaced(c, q.m, phase, delay)
  {
    if found {
      var q := SuccessAimsWell(c, answers, at, eye, a, z, v0, r, phase, delay, dtaps, v);
      MiddleIsSeen(c, eye, q.m, v, phase, delay);
    } else {
      FailureAimsBadly(c, answers, at, eye, a, z, v0, r, phase, delay, dtaps);
    }
  }

  /** The eye has an aim, and the run has the same, if and only if two VFIFO steps fail
      and some setting that may be tried passes. */
  lemma AimExists(c: Taps, answers: nat -> bool, at: seq<Position>, eye: int -> bool, a: nat, z: nat,
                  v0: nat, r: Course, phase: nat, delay: nat, dtaps: nat,
                  v: nat, found: bool)
    requires c.Valid() && c.Fits() && c.phaseMax >= 2 && GoesRound(c, eye)
    requires Reports(c, answers, a, z, v0, r, dtaps, v, phase, delay, found)
    requires Observed(c, answers, at, eye, a, z, v0, r, phase, delay)
    ensures (exists q :: Aims(c, eye, v0, q)) <==> TwoFail(c, eye, v0) && Tryable(c, eye)
    ensures TwoFail(c, eye, v0) && Tryable(c, eye) ==> exists q :: Aims(c, eye, v0, q) && AimOfCourse(a, v0, r, q)
  {
    if q :| Aims(c, eye, v0, q) {
      AimsNeed(c, eye, v0, q);
    }
    if TwoFail(c, eye, v0) && Tryable(c, eye) {
      if !found {
        HasAWindow(c, answers, at, eye, a, z, v0, r, phase, delay);
        NotEmptyAtEnd(c, answers, at, eye, a, z, v0, r, phase, delay, dtaps);
      }
      MeasureInOrder(c, answers, a, r, dtaps);
      var q := RunAims(c, answers, at, eye, a, z, v0, r, phase, delay);
    }
  }
}
