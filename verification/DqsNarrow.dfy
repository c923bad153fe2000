/** A run of the DQS enable search on steady hardware whose eye is narrower than a
    phase tap: two VFIFO steps fail and settings pass, but the search gives up. */
module DqsNarrow {
  import opened DqsSpec
  import opened DqsEnable
  import opened DqsOutcome
  import opened DqsEye
  import opened DqsAim
  import opened DqsVerdict
  import opened DqsRoomy
  import opened DqsRun

  /** An eye 300 ps wide around phase tap 2 of VFIFO step 1. */
  function Slit(t: int): bool { In(3096, 300, t) }

  /** What it answers. */
  function SlitAnswer(k: nat): bool { k == 3 || k == 16 || 20 <= k < 32 }

  const MISS :=
    Course(2, 12, 4, Setting(0, 0, 2), Trail(17, 612, true, 0, 4, 19, 936, 0, 20), 20, 936, 936, 33, 936)

  lemma MissStarts()
    ensures Starts(BUILD_TAPS, SlitAnswer, 0, MISS) && HasFirst(BUILD_TAPS, SlitAnswer, MISS)
  {
    assert SecondFail(SlitAnswer, 0, 0, 2);
  }

  lemma MissBegins()
    ensures Begins(BUILD_TAPS, SlitAnswer, MISS.w, MISS.trail.b, MISS.first.p, 624, MISS.trail.bgn)
  {
  }

  /** The first tap of step 4a fails, and so does the next. */
  lemma MissTurnsBack()
    ensures Passes(SlitAnswer, 17, 18, true) && !SlitAnswer(17) && !SlitAnswer(18)
    ensures 936 == 624 + Moved(BUILD_TAPS, 0, 1) && 0 < Rounds(BUILD_TAPS, 0, 2)
  {
  }

  lemma MissEnds()
    ensures Ends(BUILD_TAPS, SlitAnswer, MISS.trail.b, MISS.trail.e, MISS.first.i, Restored(BUILD_TAPS, MISS.first.p),
                 624, MISS.trail.moved, MISS.trail.k, MISS.trail.p, MISS.trail.end)
  {
    MissTurnsBack();
  }

  lemma MissLasts()
    ensures LastsTo(BUILD_TAPS, SlitAnswer, MISS.trail.e, MISS.trail.z, 0, MISS.trail.end, MISS.trail.d, MISS.end)
  {
  }

  lemma MissNumbers()
    ensures Delay(BUILD_TAPS, MISS.first) == 624
    ensures MISS.bgn == if MISS.trail.moved then 624 + BUILD_TAPS.opa else MISS.trail.bgn
  {
  }

  lemma HasAllParts(c: Taps, answers: nat -> bool, r: Course)
    requires Delay(c, r.first) == 624 && r.first.d == 0 && r.x == r.trail.z
    requires Begins(c, answers, r.w, r.trail.b, r.first.p, 624, r.trail.bgn)
    requires Ends(c, answers, r.trail.b, r.trail.e, r.first.i, Restored(c, r.first.p), 624,
                  r.trail.moved, r.trail.k, r.trail.p, r.trail.end)
    requires r.bgn == if r.trail.moved then 624 + c.opa else r.trail.bgn
    requires LastsTo(c, answers, r.trail.e, r.trail.z, 0, r.trail.end, r.trail.d, r.end)
    ensures HasWindow(c, answers, r)
  {
  }

  lemma MissHasWindow()
    ensures HasWindow(BUILD_TAPS, SlitAnswer, MISS)
  {
    MissBegins();
    MissEnds();
    MissLasts();
    MissNumbers();
    HasAllParts(BUILD_TAPS, SlitAnswer, MISS);
  }

  lemma MissHasMeasure()
    ensures HasMeasure(BUILD_TAPS, SlitAnswer, MISS, 12)
  {
    assert Measured(BUILD_TAPS, SlitAnswer, 20, 33, 20, 0, 12);
  }

  lemma MissIsPlaced()
    ensures IsReduced(BUILD_TAPS, (MISS.bgn + MISS.end) / 2, MISS.m) && IsPlaced(BUILD_TAPS, MISS.m, 2, 13)
  {
    assert (MISS.bgn + MISS.end) / 2 == MISS.m + 0 * BUILD_TAPS.Period();
  }

  lemma MissEndsFailing()
    ensures All(SlitAnswer, MISS.y, 49, false) && 49 == MISS.y + BUILD_TAPS.vfifoSize
  {
  }

  lemma AllMiss(c: Taps, answers: nat -> bool, r: Course)
    requires Starts(c, answers, 0, r) && HasFirst(c, answers, r) && HasWindow(c, answers, r)
    requires r.bgn <= r.end && HasMeasure(c, answers, r, 12)
    requires IsReduced(c, (r.bgn + r.end) / 2, r.m) && IsPlaced(c, r.m, 2, 13)
    requires 49 == r.y + c.vfifoSize && All(answers, r.y, 49, false)
    ensures NoneAtMiddle(c, answers, 0, 49, r, 12, 2, 13)
  {
  }

  lemma MissHasNone()
    ensures NoneAtMiddle(BUILD_TAPS, SlitAnswer, 0, 49, MISS, 12, 2, 13)
  {
    MissStarts();
    MissHasWindow();
    MissHasMeasure();
    MissIsPlaced();
    MissEndsFailing();
    AllMiss(BUILD_TAPS, SlitAnswer, MISS);
  }

  lemma SlitFails()
    ensures TwoFail(BUILD_TAPS, Slit, 0)
  {
    BuildTotal(Position(0, 1, 0));
    BuildTotal(Position(1, 1, 0));
    InRound(3096, 300, 312, -1);
    InRound(3096, 300, 2808, -1);
    assert FailsAt(BUILD_TAPS, Slit, 0) && FailsAt(BUILD_TAPS, Slit, 1);
  }

  lemma SlitPasses()
    ensures Tryable(BUILD_TAPS, Slit)
  {
    BuildTotal(Position(1, 2, 0));
    InRound(3096, 300, 3120, 0);
    assert MayTry(BUILD_TAPS, Position(1, 2, 0)) && Slit(Total(BUILD_TAPS, Position(1, 2, 0)));
  }

  lemma SlitLacksRoom()
    ensures !Roomy(BUILD_TAPS, Slit)
  {
    InRound(3096, 300, 3120, 0);
    InRound(3096, 300, 2496, -1);
    InRound(3096, 300, 3400, 0);
    assert Slit(3120) && !Slit(2496) && !Slit(3400);
    forall lo ensures !RoomAt(BUILD_TAPS, Slit, 3120, lo) {
    }
  }

  /** The eye goes round, has wide gaps, lets a setting pass and lets two VFIFO steps
      fail; it only lacks room. */
  lemma SlitIsNarrow()
    ensures Fine(BUILD_TAPS) && GoesRound(BUILD_TAPS, Slit) && Wide(BUILD_TAPS, Slit)
    ensures TwoFail(BUILD_TAPS, Slit, 0) && Tryable(BUILD_TAPS, Slit) && !Roomy(BUILD_TAPS, Slit)
  {
    InIsWide(3096, 300, Slit);
    SlitFails();
    SlitPasses();
    SlitLacksRoom();
  }

  /** The tap after the first setting is outside the eye. */
  lemma SlitIsMissed(r: Course)
    requires r.s == 2 && r.first == Setting(0, 0, 2)
    ensures Narrow(BUILD_TAPS, Slit, Base(BUILD_TAPS, 0, 0, r), r.first)
  {
    InRound(3096, 300, 3432, 0);
  }

  /** Where the run makes its reads. */
  ghost predicate MissLegs(at: seq<Position>) {
    && Visits(at, 0, 2, VfifoSteps(0, 1, 0)) && Visits(at, 2, 4, Tries(BUILD_TAPS, 1, 0))
    && Visits(at, 4, 17, DelaySteps(1, 1, 0)) && Visits(at, 17, 19, TapsAfter(BUILD_TAPS, Position(1, 2, 0), 0))
    && Visits(at, 19, 20, DelaySteps(1, 3, 0)) && Visits(at, 20, 33, DelaySteps(1, 2, 0))
    && Visits(at, 33, 49, VfifoSteps(1, 2, 13))
  }

  lemma MissHasLegs(at: seq<Position>)
    requires ReadsAt(BUILD_TAPS, at, 0, 49, 0, MISS, 2, 13)
    ensures MissLegs(at)
  {
  }

  /** The total delays of the reads. */
  function MissTotal(k: nat): nat {
    if k < 2 then 312 + 2496 * k
    else if k < 4 then 2808 + 312 * (k - 2)
    else if k < 17 then 2808 + 25 * (k - 4)
    else if k < 19 then 3432 + 312 * (k - 17)
    else if k < 20 then 3432
    else if k < 33 then 3120 + 25 * (k - 20)
    else 3445 + 2496 * (k - 33)
  }

  lemma MissTotals(at: seq<Position>, k: nat)
    requires |at| == 49 && MissLegs(at) && k < 49
    ensures Total(BUILD_TAPS, at[k]) == MissTotal(k)
  {
    if k < 2 {
      VfifoLeg(at, 0, 2, 0, 1, 0, k);
    } else if k < 4 {
      TryLeg(at, 2, 4, 1, 0, k - 1, k);
    } else if k < 17 {
      DelayLeg(at, 4, 17, 1, 1, 0, k);
    } else if k < 19 {
      TapLeg(at, 17, 19, 1, 2, 0, k - 14, k);
    } else if k < 20 {
      DelayLeg(at, 19, 20, 1, 3, 0, k);
    } else if k < 33 {
      DelayLeg(at, 20, 33, 1, 2, 0, k);
    } else {
      VfifoLeg(at, 33, 49, 1, 2, 13, k);
    }
  }

  lemma SlitAnswers(k: nat)
    requires k < 49
    ensures SlitAnswer(k) == Slit(MissTotal(k))
  {
    var t := MissTotal(k);
    InRound(3096, 300, t, if t < 3096 then -1 else 0);
  }

  /** Read where the run reads, the eye gives these answers. */
  lemma MissIsSteady(at: seq<Position>)
    requires |at| == 49 && ReadsAt(BUILD_TAPS, at, 0, 49, 0, MISS, 2, 13)
    ensures Steady(BUILD_TAPS, SlitAnswer, at, 0, 49, Slit)
  {
    MissHasLegs(at);
    forall k: nat | k < 49 ensures SlitAnswer(k) == Slit(Total(BUILD_TAPS, at[k])) {
      MissTotals(at, k);
      SlitAnswers(k);
    }
  }

  /** No other end, window or places of reads agree with the contract of the search. */
  lemma OnlyThisMiss(c: Taps, answers: nat -> bool, at: seq<Position>, r: Course, found: bool, z: nat, r': Course,
                     dtaps: nat, v: nat, phase: nat, delay: nat)
    requires NoneAtMiddle(c, answers, 0, 49, r, 12, 2, 13)
    requires Reports(c, answers, 0, z, 0, r', dtaps, v, phase, delay, found)
    requires ReadsAt(c, at, 0, z, 0, r', phase, delay)
    ensures !found && z == 49 && ReadsAt(c, at, 0, 49, 0, r, 2, 13)
    ensures r'.s == r.s && r'.first == r.first && r'.bgn == r.bgn && r'.end == r.end
  {
    if found {
      VerdictIsDetermined(c, answers, 0, z, 0, r', dtaps, v, phase, delay, 49, r, 12, 2, 13);
    }
    FailureReads(c, answers, at, 0, 0, 49, r, 12, 2, 13, z, r', dtaps, phase, delay);
    FailureIsDetermined(c, answers, 0, 49, r, 12, 2, 13, z, r', dtaps, phase, delay);
    CourseIsDetermined(c, answers, 0, r, r');
  }

  lemma MissEndsSo(at: seq<Position>, found: bool, z: nat, r: Course, dtaps: nat, v: nat, phase: nat, delay: nat)
    requires |at| == z && Reports(BUILD_TAPS, SlitAnswer, 0, z, 0, r, dtaps, v, phase, delay, found)
    requires ReadsAt(BUILD_TAPS, at, 0, z, 0, r, phase, delay)
    ensures !found && Steady(BUILD_TAPS, SlitAnswer, at, 0, z, Slit) && r.s == 2 && r.first == Setting(0, 0, 2)
    ensures r.bgn == r.end == 936
  {
    MissHasNone();
    OnlyThisMiss(BUILD_TAPS, SlitAnswer, at, MISS, found, z, r, dtaps, v, phase, delay);
    MissIsSteady(at);
  }

  /** The reads of this run are those of the eye. Two VFIFO steps fail and a setting
      passes, yet the search fails: the tap after the first setting is outside, the
      window recorded is empty, and its middle passes in no VFIFO step. */
  method Miss() returns (phy: Phy, found: bool, ghost r: Course)
    ensures fresh(phy) && phy.c == BUILD_TAPS
    ensures Steady(BUILD_TAPS, phy.answers, phy.at, 0, phy.asked, Slit)
    ensures TwoFail(BUILD_TAPS, Slit, 0) && Tryable(BUILD_TAPS, Slit)
    ensures !found && r.bgn == r.end == 936 && !AimsWell(BUILD_TAPS, Slit, 0)
    ensures Narrow(BUILD_TAPS, Slit, Base(BUILD_TAPS, 0, 0, r), r.first)
  {
    phy := new Phy(BUILD_TAPS, SlitAnswer);
    var dtaps;
    found, dtaps, r := phy.FindDqsEnPhase();
    MissEndsSo(phy.at, found, phy.asked, r, dtaps, phy.v, phy.phase, phy.delay);
    SlitIsNarrow();
    SlitIsMissed(r);
    SteadyVerdict(BUILD_TAPS, SlitAnswer, phy.at, Slit, 0, phy.asked, 0, r, phy.phase, phy.delay, dtaps, phy.v, found);
  }
}
