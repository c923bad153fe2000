/** A run of the DQS enable search on steady hardware whose eye is thinner than a phase
    tap: step 2 needs delay taps, and tracking meets fails before it meets the eye. */
module DqsThin {
  import opened DqsSpec
  import opened DqsEnable
  import opened DqsOutcome
  import opened DqsEye
  import opened DqsVerdict
  import opened DqsInFull
  import opened DqsRun

  /** An eye 100 ps wide, which opens 724 ps past VFIFO step 1. */
  function ThinEye(t: int): bool { In(3220, 100, t) }

  /** What it answers. */
  function ThinAnswer(k: nat): bool { 451 <= k < 456 || 466 <= k < 470 || k == 471 }

  const THIN :=
    Course(2, 12, 452, Setting(4, 0, 2), Trail(0, 0, false, 0, 0, 0, 0, 8, 457), 457, 724, 799, 471, 761)

  lemma ThinStarts()
    ensures Starts(BUILD_TAPS, ThinAnswer, 0, THIN) && HasFirst(BUILD_TAPS, ThinAnswer, THIN)
  {
    assert SecondFail(ThinAnswer, 0, 0, 2);
  }

  lemma ThinHasWindow()
    ensures HasWindow(BUILD_TAPS, ThinAnswer, THIN)
  {
    assert Delay(BUILD_TAPS, THIN.first) == 724;
    assert LastsTo(BUILD_TAPS, ThinAnswer, 452, 457, 4, 724, 8, 799);
  }

  lemma ThinHasMeasure()
    ensures HasMeasure(BUILD_TAPS, ThinAnswer, THIN, 13)
  {
    assert Measured(BUILD_TAPS, ThinAnswer, 457, 471, 466, 8, 13);
  }

  lemma ThinIsPlaced()
    ensures IsReduced(BUILD_TAPS, (THIN.bgn + THIN.end) / 2, THIN.m) && IsPlaced(BUILD_TAPS, THIN.m, 2, 6)
  {
    assert (THIN.bgn + THIN.end) / 2 == THIN.m + 0 * BUILD_TAPS.Period();
  }

  lemma ThinStops()
    ensures THIN.y < 472 <= THIN.y + BUILD_TAPS.vfifoSize
    ensures All(ThinAnswer, THIN.y, 472 - 1, false) && ThinAnswer(472 - 1)
    ensures 65 == TrackingOf(BUILD_TAPS, 0, 0, THIN).v + (472 - THIN.y - 1)
  {
  }

  lemma Together(c: Taps, answers: nat -> bool, r: Course)
    requires Starts(c, answers, 0, r) && HasFirst(c, answers, r) && HasWindow(c, answers, r)
    requires c.opa <= r.bgn <= r.end && HasMeasure(c, answers, r, 13)
    requires IsReduced(c, (r.bgn + r.end) / 2, r.m) && IsPlaced(c, r.m, 2, 6)
    requires r.y < 472 <= r.y + c.vfifoSize && All(answers, r.y, 472 - 1, false) && answers(472 - 1)
    requires 65 == TrackingOf(c, 0, 0, r).v + (472 - r.y - 1)
    ensures Explains(c, answers, 0, 472, 0, r, 13, 65, 2, 6)
  {
  }

  lemma ThinSucceeds()
    ensures Explains(BUILD_TAPS, ThinAnswer, 0, 472, 0, THIN, 13, 65, 2, 6)
  {
    ThinStarts();
    ThinHasWindow();
    ThinHasMeasure();
    ThinIsPlaced();
    ThinStops();
    Together(BUILD_TAPS, ThinAnswer, THIN);
  }

  /** Where the run makes its reads. */
  ghost predicate ThinLegs(at: seq<Position>) {
    && Visits(at, 0, 2, VfifoSteps(0, 1, 0)) && Visits(at, 2, 452, Tries(BUILD_TAPS, 1, 0))
    && Visits(at, 452, 457, DelaySteps(65, 2, 4)) && Visits(at, 457, 471, DelaySteps(65, 1, 8))
    && Visits(at, 471, 472, VfifoSteps(65, 2, 6))
  }

  lemma ThinHasLegs(at: seq<Position>)
    requires ReadsAt(BUILD_TAPS, at, 0, 472, 0, THIN, 2, 6)
    ensures ThinLegs(at)
  {
  }

  /** Only the last setting that step 2 tries is in the eye. */
  lemma ThinTry(at: seq<Position>, k: nat)
    requires Visits(at, 2, 452, Tries(BUILD_TAPS, 1, 0)) && 2 <= k < 452
    ensures ThinEye(Total(BUILD_TAPS, at[k])) <==> k == 451
  {
    SettingIndex(BUILD_TAPS, k - 2);
    assert at[k] == Nth(Tries(BUILD_TAPS, 1, 0), k - 2);
    var s := NthSetting(BUILD_TAPS, k - 2);
    BuildTotal(at[k]);
    ThinSetting(s.d, s.i, s.p, Total(BUILD_TAPS, at[k]));
  }

  lemma ThinSetting(d: nat, i: nat, p: nat, t: int)
    requires i < 16 && 1 <= p <= 7 && (d * 16 + i) * 7 + p <= 450
    requires t == 2496 * (1 + d * 16 + i) + 312 * p + 25 * d
    ensures ThinEye(t) <==> (d * 16 + i) * 7 + p == 450
  {
    InRound(3220, 100, t, if i == 0 && 312 * p + 25 * d < 724 then d - 1 else d);
  }

  /** The total delays of the other reads. */
  function ThinTotal(k: nat): nat {
    if k < 2 then 312 + 2496 * k
    else if k < 457 then 162240 + 724 + 25 * (k - 452)
    else if k < 471 then 162240 + 512 + 25 * (k - 457)
    else 162240 + 774
  }

  lemma ThinTotals(at: seq<Position>, k: nat)
    requires |at| == 472 && ThinLegs(at) && k < 472 && (k < 2 || k >= 452)
    ensures Total(BUILD_TAPS, at[k]) == ThinTotal(k)
  {
    if k < 2 {
      VfifoLeg(at, 0, 2, 0, 1, 0, k);
    } else if k < 457 {
      DelayLeg(at, 452, 457, 65, 2, 4, k);
    } else if k < 471 {
      DelayLeg(at, 457, 471, 65, 1, 8, k);
    } else {
      VfifoLeg(at, 471, 472, 65, 2, 6, k);
    }
  }

  lemma ThinAnswers(k: nat)
    requires k < 472 && (k < 2 || k >= 452)
    ensures ThinAnswer(k) == ThinEye(ThinTotal(k))
  {
    var t := ThinTotal(k);
    InRound(3220, 100, t, if t < 3220 then -1 else if t < 162964 then 3 else 4);
  }

  /** Read where the run reads, the eye gives these answers. */
  lemma ThinIsSteady(at: seq<Position>)
    requires |at| == 472 && ReadsAt(BUILD_TAPS, at, 0, 472, 0, THIN, 2, 6)
    ensures Steady(BUILD_TAPS, ThinAnswer, at, 0, 472, ThinEye)
  {
    ThinHasLegs(at);
    forall k: nat | k < 472 ensures ThinAnswer(k) == ThinEye(Total(BUILD_TAPS, at[k])) {
      if 2 <= k < 452 {
        ThinTry(at, k);
      } else {
        ThinTotals(at, k);
        ThinAnswers(k);
      }
    }
  }

  /** No other end, window or places of reads agree with the contract of the search. */
  lemma OnlyThisEnd(c: Taps, answers: nat -> bool, at: seq<Position>, r: Course, found: bool, z: nat, r': Course,
                    dtaps: nat, v: nat, phase: nat, delay: nat)
    requires Explains(c, answers, 0, 472, 0, r, 13, 65, 2, 6)
    requires Reports(c, answers, 0, z, 0, r', dtaps, v, phase, delay, found)
    requires ReadsAt(c, at, 0, z, 0, r', phase, delay)
    ensures found && dtaps == 13 && v == 65 && phase == 2 && delay == 6 && z == 472
    ensures r'.first == r.first && r'.bgn == r.bgn && r'.end == r.end && r'.x == r.x && r'.y == r.y
    ensures ReadsAt(c, at, 0, 472, 0, r, 2, 6)
  {
    OutcomeIsDetermined(c, answers, 0, 0, 472, r, 13, 65, 2, 6, found, z, r', dtaps, v, phase, delay);
    SuccessReads(c, answers, at, 0, 0, 472, r, 13, 65, 2, 6, z, r', dtaps, v, phase, delay);
    CourseIsDetermined(c, answers, 0, r, r');
    TrackingIsDetermined(c, answers, r, 13, r', dtaps);
  }

  lemma ThinEndsSo(at: seq<Position>, found: bool, z: nat, r: Course, dtaps: nat, v: nat, phase: nat, delay: nat)
    requires |at| == z && Reports(BUILD_TAPS, ThinAnswer, 0, z, 0, r, dtaps, v, phase, delay, found)
    requires ReadsAt(BUILD_TAPS, at, 0, z, 0, r, phase, delay)
    ensures found && dtaps == 13 && v == 65 && phase == 2 && delay == 6 && z == 472
    ensures r.first == Setting(4, 0, 2) && r.bgn == 724 && r.end == 799 && r.x == 457 && r.y == 471
    ensures Steady(BUILD_TAPS, ThinAnswer, at, 0, z, ThinEye)
    ensures z == 472 ==> at[457] == Position(65, 1, 8) && at[470] == Position(65, 1, 21)
  {
    ThinSucceeds();
    OnlyThisEnd(BUILD_TAPS, ThinAnswer, at, THIN, found, z, r, dtaps, v, phase, delay);
    ThinHasLegs(at);
    ThinEnds(at);
    ThinIsSteady(at);
  }

  lemma ThinEnds(at: seq<Position>)
    requires ThinLegs(at)
    ensures at[457] == Position(65, 1, 8) && at[470] == Position(65, 1, 21)
  {
    assert at[457] == Nth(DelaySteps(65, 1, 8), 0) && at[470] == Nth(DelaySteps(65, 1, 8), 13);
  }

  lemma ThinTracking()
    ensures !ThinAnswer(457) && ThinAnswer(466) && ThinAnswer(469) && !ThinAnswer(470)
  {
  }

  /** The reads of this run are those of the eye. The first setting has four delay taps.
      Tracking, from delay tap 8 of phase tap 1 on, first fails nine times, and measures
      thirteen delay taps up to the fail at delay tap 21; the nominal value is twelve. */
  method RunThin() returns (phy: Phy, found: bool, dtaps: nat, ghost r: Course)
    ensures fresh(phy) && phy.c == BUILD_TAPS && phy.asked == |phy.at| == 472
    ensures Steady(BUILD_TAPS, phy.answers, phy.at, 0, phy.asked, ThinEye)
    ensures found && dtaps == 13 && phy.v == 65 && phy.phase == 2 && phy.delay == 6
    ensures r.first == Setting(4, 0, 2) && r.bgn == 724 && r.end == 799
    ensures phy.at[457] == Position(65, 1, 8) && phy.at[470] == Position(65, 1, 21)
    ensures !phy.answers(457) && phy.answers(466) && phy.answers(469) && !phy.answers(470)
  {
    phy := new Phy(BUILD_TAPS, ThinAnswer);
    found, dtaps, r := phy.FindDqsEnPhase();
    ThinEndsSo(phy.at, found, phy.asked, r, dtaps, phy.v, phy.phase, phy.delay);
    ThinTracking();
  }
}
