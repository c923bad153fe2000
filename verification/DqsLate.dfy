/** A run of the DQS enable search on steady hardware that finds its first setting at
    phase tap 1: what step 3a restores is one phase tap further, and the middle comes
    out half a phase tap low. */
module DqsLate {
  import opened DqsSpec
  import opened DqsEnable
  import opened DqsOutcome
  import opened DqsEye
  import opened DqsAim
  import opened DqsVerdict
  import opened DqsRoomy
  import opened DqsRun

  /** An eye 2800 ps wide, which opens 100 ps past VFIFO step 2. */
  function LateEye(t: int): bool { In(5092, 2800, t) }

  lemma LateEyeIsRoomy()
    ensures Fine(BUILD_TAPS) && GoesRound(BUILD_TAPS, LateEye)
    ensures Wide(BUILD_TAPS, LateEye) && Roomy(BUILD_TAPS, LateEye)
  {
    InIsWide(5092, 2800, LateEye);
    InIsRoomy(5092, 2800, LateEye);
  }

  /** What it answers. */
  function LateAnswer(k: nat): bool { 9 <= k < 16 || 17 <= k < 21 || 22 <= k < 47 || k == 48 }

  const LATE :=
    Course(2, 12, 10, Setting(0, 1, 1), Trail(10, 2808, false, 1, 2, 17, 4992, 4, 22), 22, 2808, 5067, 48, 1441)

  lemma LateStarts()
    ensures Starts(BUILD_TAPS, LateAnswer, 0, LATE) && HasFirst(BUILD_TAPS, LateAnswer, LATE)
  {
    assert SecondFail(LateAnswer, 0, 0, 2);
  }

  /** Step 3a leaves phase tap 2, not the tap 1 that it found. */
  lemma RestoresTooFar()
    ensures LATE.first.p == 1 && Restored(BUILD_TAPS, LATE.first.p) == 2
  {
  }

  lemma LateBegins()
    ensures Begins(BUILD_TAPS, LateAnswer, LATE.w, LATE.trail.b, LATE.first.p, 2808, LATE.trail.bgn)
  {
  }

  lemma LateGoesOn()
    ensures Passes(LateAnswer, 10, 16, false) && !LateAnswer(16) && 4992 == 2808 + Moved(BUILD_TAPS, 1, -1)
  {
  }

  lemma LateEnds()
    ensures Ends(BUILD_TAPS, LateAnswer, LATE.trail.b, LATE.trail.e, LATE.first.i, Restored(BUILD_TAPS, LATE.first.p),
                 2808, LATE.trail.moved, LATE.trail.k, LATE.trail.p, LATE.trail.end)
  {
    LateGoesOn();
  }

  lemma LateLasts()
    ensures LastsTo(BUILD_TAPS, LateAnswer, LATE.trail.e, LATE.trail.z, 0, LATE.trail.end, LATE.trail.d, LATE.end)
  {
  }

  lemma LateNumbers()
    ensures Delay(BUILD_TAPS, LATE.first) == 2808
    ensures LATE.bgn == if LATE.trail.moved then 2808 + BUILD_TAPS.opa else LATE.trail.bgn
  {
  }

  lemma HasAllParts(c: Taps, answers: nat -> bool, r: Course)
    requires Delay(c, r.first) == 2808 && r.first.d == 0 && r.x == r.trail.z
    requires Begins(c, answers, r.w, r.trail.b, r.first.p, 2808, r.trail.bgn)
    requires Ends(c, answers, r.trail.b, r.trail.e, r.first.i, Restored(c, r.first.p), 2808,
                  r.trail.moved, r.trail.k, r.trail.p, r.trail.end)
    requires r.bgn == if r.trail.moved then 2808 + c.opa else r.trail.bgn
    requires LastsTo(c, answers, r.trail.e, r.trail.z, 0, r.trail.end, r.trail.d, r.end)
    ensures HasWindow(c, answers, r)
  {
  }

  lemma LateHasWindow()
    ensures HasWindow(BUILD_TAPS, LateAnswer, LATE)
  {
    LateBegins();
    LateEnds();
    LateLasts();
    LateNumbers();
    HasAllParts(BUILD_TAPS, LateAnswer, LATE);
  }

  lemma LateHasMeasure()
    ensures HasMeasure(BUILD_TAPS, LateAnswer, LATE, 25)
  {
    assert Measured(BUILD_TAPS, LateAnswer, 22, 48, 22, 4, 25);
  }

  lemma LateIsPlaced()
    ensures IsReduced(BUILD_TAPS, (LATE.bgn + LATE.end) / 2, LATE.m) && IsPlaced(BUILD_TAPS, LATE.m, 4, 8)
  {
    assert (LATE.bgn + LATE.end) / 2 == LATE.m + 1 * BUILD_TAPS.Period();
  }

  lemma LateStops()
    ensures LATE.y < 49 <= LATE.y + BUILD_TAPS.vfifoSize && All(LateAnswer, LATE.y, 49 - 1, false) && LateAnswer(49 - 1)
    ensures 18 == TrackingOf(BUILD_TAPS, 0, 0, LATE).v + (49 - LATE.y - 1)
  {
  }

  lemma Together(c: Taps, answers: nat -> bool, r: Course)
    requires Starts(c, answers, 0, r) && HasFirst(c, answers, r) && HasWindow(c, answers, r)
    requires c.opa <= r.bgn <= r.end && HasMeasure(c, answers, r, 25)
    requires IsReduced(c, (r.bgn + r.end) / 2, r.m) && IsPlaced(c, r.m, 4, 8)
    requires r.y < 49 <= r.y + c.vfifoSize && All(answers, r.y, 49 - 1, false) && answers(49 - 1)
    requires 18 == TrackingOf(c, 0, 0, r).v + (49 - r.y - 1)
    ensures Explains(c, answers, 0, 49, 0, r, 25, 18, 4, 8)
  {
  }

  lemma LateSucceeds()
    ensures Explains(BUILD_TAPS, LateAnswer, 0, 49, 0, LATE, 25, 18, 4, 8)
  {
    LateStarts();
    LateHasWindow();
    LateHasMeasure();
    LateIsPlaced();
    LateStops();
    Together(BUILD_TAPS, LateAnswer, LATE);
  }

  /** Where the run makes its reads. */
  ghost predicate LateLegs(at: seq<Position>) {
    && Visits(at, 0, 2, VfifoSteps(0, 1, 0)) && Visits(at, 2, 10, Tries(BUILD_TAPS, 1, 0))
    && Visits(at, 10, 17, TapsAfter(BUILD_TAPS, Position(2, 2, 0), 0))
    && Visits(at, 17, 22, DelaySteps(3, 1, 0)) && Visits(at, 22, 48, DelaySteps(18, 7, 4))
    && Visits(at, 48, 49, VfifoSteps(18, 4, 8))
  }

  lemma LateHasLegs(at: seq<Position>)
    requires ReadsAt(BUILD_TAPS, at, 0, 49, 0, LATE, 4, 8)
    ensures LateLegs(at)
  {
  }

  /** The total delays of the reads. */
  function LateTotal(k: nat): nat {
    if k < 2 then 312 + 2496 * k
    else if k < 9 then 2808 + 312 * (k - 2)
    else if k < 10 then 5304
    else if k < 15 then 5928 + 312 * (k - 10)
    else if k < 17 then 7800 + 312 * (k - 15)
    else if k < 22 then 7800 + 25 * (k - 17)
    else if k < 48 then 47212 + 25 * (k - 22)
    else 46376
  }

  lemma LateTotals(at: seq<Position>, k: nat)
    requires |at| == 49 && LateLegs(at) && k < 49
    ensures Total(BUILD_TAPS, at[k]) == LateTotal(k)
  {
    if k < 2 {
      VfifoLeg(at, 0, 2, 0, 1, 0, k);
    } else if k < 9 {
      TryLeg(at, 2, 10, 1, 0, k - 1, k);
    } else if k < 10 {
      TryLeg(at, 2, 10, 1, 1, 1, k);
    } else if k < 15 {
      TapLeg(at, 10, 17, 2, 2, 0, k - 7, k);
    } else if k < 17 {
      TapLeg(at, 10, 17, 2, 2, 1, k - 14, k);
    } else if k < 22 {
      DelayLeg(at, 17, 22, 3, 1, 0, k);
    } else if k < 48 {
      DelayLeg(at, 22, 48, 18, 7, 4, k);
    } else {
      VfifoLeg(at, 48, 49, 18, 4, 8, k);
    }
  }

  lemma LateAnswers(k: nat)
    requires k < 49
    ensures LateAnswer(k) == LateEye(LateTotal(k))
  {
    var t := LateTotal(k);
    InRound(5092, 2800, t, if t < 5092 then -1 else if t < 45028 then 0 else 1);
  }

  /** Read where the run reads, the eye gives these answers. */
  lemma LateIsSteady(at: seq<Position>)
    requires |at| == 49 && ReadsAt(BUILD_TAPS, at, 0, 49, 0, LATE, 4, 8)
    ensures Steady(BUILD_TAPS, LateAnswer, at, 0, 49, LateEye)
  {
    LateHasLegs(at);
    forall k: nat | k < 49 ensures LateAnswer(k) == LateEye(Total(BUILD_TAPS, at[k])) {
      LateTotals(at, k);
      LateAnswers(k);
    }
  }

  /** No other end, window or places of reads agree with the contract of the search. */
  lemma OnlyThisEnd(c: Taps, answers: nat -> bool, at: seq<Position>, r: Course, found: bool, z: nat, r': Course,
                    dtaps: nat, v: nat, phase: nat, delay: nat)
    requires Explains(c, answers, 0, 49, 0, r, 25, 18, 4, 8)
    requires Reports(c, answers, 0, z, 0, r', dtaps, v, phase, delay, found)
    requires ReadsAt(c, at, 0, z, 0, r', phase, delay)
    ensures found && v == 18 && phase == 4 && delay == 8 && z == 49
    ensures r'.first == r.first && r'.bgn == r.bgn && r'.end == r.end && ReadsAt(c, at, 0, 49, 0, r, 4, 8)
  {
    OutcomeIsDetermined(c, answers, 0, 0, 49, r, 25, 18, 4, 8, found, z, r', dtaps, v, phase, delay);
    SuccessReads(c, answers, at, 0, 0, 49, r, 25, 18, 4, 8, z, r', dtaps, v, phase, delay);
    CourseIsDetermined(c, answers, 0, r, r');
  }

  lemma LateEndsSo(at: seq<Position>, found: bool, z: nat, r: Course, dtaps: nat, v: nat, phase: nat, delay: nat)
    requires |at| == z && Reports(BUILD_TAPS, LateAnswer, 0, z, 0, r, dtaps, v, phase, delay, found)
    requires ReadsAt(BUILD_TAPS, at, 0, z, 0, r, phase, delay)
    ensures found && v == 18 && phase == 4 && delay == 8 && r.first == Setting(0, 1, 1)
    ensures r.bgn == 2808 && r.end == 5067 && Steady(BUILD_TAPS, LateAnswer, at, 0, z, LateEye)
  {
    LateSucceeds();
    OnlyThisEnd(BUILD_TAPS, LateAnswer, at, LATE, found, z, r, dtaps, v, phase, delay);
    LateIsSteady(at);
  }

  /** The eye is open from the recorded beginning to a phase tap past the recorded end. */
  lemma OpenPastTheEnd()
    ensures Open(LateEye, 2496 + 2808, 2496 + 5067 + 312) && !LateEye(2496 + 5067 + 312 + 25)
  {
    forall t | 2496 + 2808 <= t <= 2496 + 5067 + 312 ensures LateEye(t) {
      InRound(5092, 2800, t, 0);
    }
    InRound(5092, 2800, 7900, 0);
  }

  /** The reads of this run are those of the eye, counted from VFIFO step 1, at 2496 ps.
      Step 2 ends at phase tap 1, and step 3a restores phase tap 2. The search takes the
      eye from 2808 to 5067 ps; it goes on to 5379. */
  method RunLate() returns (phy: Phy, found: bool, ghost r: Course)
    ensures fresh(phy) && phy.c == BUILD_TAPS
    ensures Steady(BUILD_TAPS, phy.answers, phy.at, 0, phy.asked, LateEye)
    ensures found && phy.v == 18 && phy.phase == 4 && phy.delay == 8
    ensures r.first == Setting(0, 1, 1) && Restored(BUILD_TAPS, r.first.p) == 2
    ensures r.bgn == 2808 && r.end == 5067
    ensures Open(LateEye, 2496 + r.bgn, 2496 + r.end + 312) && !LateEye(2496 + r.end + 312 + 25)
  {
    phy := new Phy(BUILD_TAPS, LateAnswer);
    var dtaps;
    found, dtaps, r := phy.FindDqsEnPhase();
    LateEndsSo(phy.at, found, phy.asked, r, dtaps, phy.v, phy.phase, phy.delay);
    RestoresTooFar();
    OpenPastTheEnd();
  }
}
