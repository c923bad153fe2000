/** The DQS enable search on steady hardware as a program, and a run with the tap
    sizes of this build, followed through to the end. */
module DqsRun {
  import opened DqsSpec
  import opened DqsEnable
  import opened DqsOutcome
  import opened DqsEye
  import opened DqsAim
  import opened DqsVerdict
  import opened DqsRoomy

  /** The search when its reads turn out to be those of steady hardware, whatever the
      eye. */
  method Decide(phy: Phy, ghost eye: int -> bool) returns (found: bool, ghost r: Course)
    requires phy.Valid() && phy.c.Fits() && GoesRound(phy.c, eye)
    modifies phy
    ensures Steady(phy.c, phy.answers, phy.at, old(phy.asked), phy.asked, eye) ==>
      (found <==> AimsWell(phy.c, eye, old(phy.v)))
    ensures Steady(phy.c, phy.answers, phy.at, old(phy.asked), phy.asked, eye) && found ==>
      eye(Total(phy.c, Position(phy.v, phy.phase, phy.delay)))
    ensures Steady(phy.c, phy.answers, phy.at, old(phy.asked), phy.asked, eye) && found ==>
      exists q :: Aims(phy.c, eye, old(phy.v), q) && AimOfCourse(old(phy.asked), old(phy.v), r, q)
                  && IsPlaced(phy.c, q.m, phy.phase, phy.delay)
  {
    var dtaps;
    found, dtaps, r := phy.FindDqsEnPhase();
    if Steady(phy.c, phy.answers, phy.at, old(phy.asked), phy.asked, eye) {
      SteadyVerdict(phy.c, phy.answers, phy.at, eye, old(phy.asked), phy.asked, old(phy.v), r,
                    phy.phase, phy.delay, dtaps, phy.v, found);
    }
  }

  const BUILD_TAPS := Taps(312, 25, 7, 31, 16)

  // -------------------------------------------------- Total delays in this build

  /** An eye that is open for w ps from lo on, in every round of the VFIFO. */
  function In(lo: int, w: int, t: int): bool { (t - lo) % 39936 < w }

  lemma InRound(lo: int, w: int, t: int, n: int)
    requires 0 <= t - lo - n * 39936 < 39936
    ensures In(lo, w, t) <==> t - lo - n * 39936 < w
  {
  }

  lemma Nearby(lo: int, w: int, t: int, u: int)
    requires 0 <= (t - lo) % 39936 + (u - t) < 39936
    ensures In(lo, w, u) <==> (t - lo) % 39936 + (u - t) < w
  {
    InRound(lo, w, u, (t - lo) / 39936);
  }

  /** Such an eye repeats, and a gap of more than four phase taps is wide. */
  lemma InIsWide(lo: int, w: nat, eye: int -> bool)
    requires w + 4 * 312 < 39936 && forall t :: eye(t) == In(lo, w, t)
    ensures GoesRound(BUILD_TAPS, eye) && Wide(BUILD_TAPS, eye)
  {
    forall t, u, v | t <= u <= v <= t + 4 * BUILD_TAPS.opa && eye(t) && eye(v) ensures eye(u) {
      Nearby(lo, w, t, u);
      Nearby(lo, w, t, v);
    }
    forall t, u | u == t + Round(BUILD_TAPS) ensures eye(t) == eye(u) {
      InRound(lo, w, u, (t - lo) / 39936 + 1);
    }
  }

  lemma InIsRoomy(lo: int, w: nat, eye: int -> bool)
    requires 6 * 312 < w < 39936 && forall t :: eye(t) == In(lo, w, t)
    ensures Roomy(BUILD_TAPS, eye)
  {
    forall t | eye(t) ensures exists l :: RoomAt(BUILD_TAPS, eye, t, l) {
      var x := (t - lo) % 39936;
      var l := if x < w - 1872 then t else t - x + w - 1873;
      forall u | l <= u <= l + 1872 ensures eye(u) {
        Nearby(lo, w, t, u);
      }
      assert RoomAt(BUILD_TAPS, eye, t, l);
    }
  }

  lemma BuildTotal(x: Position)
    ensures Total(BUILD_TAPS, x) == 2496 * x.v + 312 * x.p + 25 * x.d
  {
  }

  lemma VfifoLeg(at: seq<Position>, a: nat, b: nat, v: nat, p: nat, d: nat, k: nat)
    requires Visits(at, a, b, VfifoSteps(v, p, d)) && a <= k < b
    ensures Total(BUILD_TAPS, at[k]) == 2496 * (v + k - a) + 312 * p + 25 * d
  {
    BuildTotal(at[k]);
  }

  lemma DelayLeg(at: seq<Position>, a: nat, b: nat, v: nat, p: nat, d: nat, k: nat)
    requires Visits(at, a, b, DelaySteps(v, p, d)) && a <= k < b
    ensures Total(BUILD_TAPS, at[k]) == 2496 * v + 312 * p + 25 * (d + k - a)
  {
    BuildTotal(at[k]);
  }

  /** The settings of step 2 without delay taps, i VFIFO steps on. */
  lemma TryLeg(at: seq<Position>, a: nat, b: nat, v: nat, i: nat, p: nat, k: nat)
    requires Visits(at, a, b, Tries(BUILD_TAPS, v, 0)) && a <= k < b
    requires i < 16 && 1 <= p <= 7 && k - a == 7 * i + p - 1
    ensures Total(BUILD_TAPS, at[k]) == 2496 * (v + i) + 312 * p
  {
    SettingAt(BUILD_TAPS, Setting(0, i, p), k - a);
    assert at[k] == Nth(Tries(BUILD_TAPS, v, 0), k - a);
    BuildTotal(at[k]);
  }

  /** The taps of step 4a, i VFIFO steps on. */
  lemma TapLeg(at: seq<Position>, a: nat, b: nat, v: nat, q: nat, i: nat, p: nat, k: nat)
    requires Visits(at, a, b, TapsAfter(BUILD_TAPS, Position(v, q, 0), 0)) && a <= k < b
    requires 1 <= q <= 7 && 1 <= p <= 7 && k - a + 1 == 7 * i + p - q
    ensures Total(BUILD_TAPS, at[k]) == 2496 * (v + i) + 312 * p
  {
    TapAt(BUILD_TAPS, Position(v, q, 0), k - a + 1, i, p);
    assert at[k] == Nth(TapsAfter(BUILD_TAPS, Position(v, q, 0), 0), k - a);
    BuildTotal(at[k]);
  }

  // ---------------------------------------------------------- A run that ends well

  /** An eye 2800 ps wide, which opens 450 ps past VFIFO step 1. */
  function Eye(t: int): bool { In(2946, 2800, t) }

  lemma EyeIsRoomy()
    ensures Fine(BUILD_TAPS) && GoesRound(BUILD_TAPS, Eye) && Wide(BUILD_TAPS, Eye) && Roomy(BUILD_TAPS, Eye)
  {
    InIsWide(2946, 2800, Eye);
    InIsRoomy(2946, 2800, Eye);
  }

  /** What it answers. */
  function Answer(k: nat): bool { k == 3 || 10 <= k < 18 || 19 <= k < 25 || 26 <= k < 38 || k == 54 }

  const COURSE :=
    Course(2, 12, 4, Setting(0, 0, 2), Trail(11, 462, false, 1, 3, 19, 3120, 6, 26), 26, 462, 3245, 39, 1853)

  lemma RunStarts()
    ensures Starts(BUILD_TAPS, Answer, 0, COURSE) && HasFirst(BUILD_TAPS, Answer, COURSE)
  {
    assert SecondFail(Answer, 0, 0, 2);
  }

  lemma RunHasWindow()
    ensures HasWindow(BUILD_TAPS, Answer, COURSE)
  {
    assert Begins(BUILD_TAPS, Answer, 4, 11, 2, 624, 462);
    assert Ends(BUILD_TAPS, Answer, 11, 19, 0, 2, 624, false, 1, 3, 3120);
    assert LastsTo(BUILD_TAPS, Answer, 19, 26, 0, 3120, 6, 3245);
  }

  lemma RunHasMeasure()
    ensures HasMeasure(BUILD_TAPS, Answer, COURSE, 12)
  {
    assert Measured(BUILD_TAPS, Answer, 26, 39, 26, 6, 12);
  }

  lemma RunIsPlaced()
    ensures IsReduced(BUILD_TAPS, (COURSE.bgn + COURSE.end) / 2, COURSE.m) && IsPlaced(BUILD_TAPS, COURSE.m, 5, 12)
  {
    assert (COURSE.bgn + COURSE.end) / 2 == COURSE.m + 0 * BUILD_TAPS.Period();
  }

  lemma RunEnds()
    ensures COURSE.y < 55 <= COURSE.y + BUILD_TAPS.vfifoSize && All(Answer, COURSE.y, 55 - 1, false) && Answer(55 - 1)
    ensures 17 == TrackingOf(BUILD_TAPS, 0, 0, COURSE).v + (55 - COURSE.y - 1)
  {
  }

  lemma Together(c: Taps, answers: nat -> bool, r: Course)
    requires Starts(c, answers, 0, r) && HasFirst(c, answers, r) && HasWindow(c, answers, r)
    requires c.opa <= r.bgn <= r.end && HasMeasure(c, answers, r, 12)
    requires IsReduced(c, (r.bgn + r.end) / 2, r.m) && IsPlaced(c, r.m, 5, 12)
    requires r.y < 55 <= r.y + c.vfifoSize && All(answers, r.y, 55 - 1, false) && answers(55 - 1)
    requires 17 == TrackingOf(c, 0, 0, r).v + (55 - r.y - 1)
    ensures Explains(c, answers, 0, 55, 0, r, 12, 17, 5, 12)
  {
  }

  lemma RunSucceeds()
    ensures Explains(BUILD_TAPS, Answer, 0, 55, 0, COURSE, 12, 17, 5, 12)
  {
    RunStarts();
    RunHasWindow();
    RunHasMeasure();
    RunIsPlaced();
    RunEnds();
    Together(BUILD_TAPS, Answer, COURSE);
  }

  /** Where the run makes its reads. */
  ghost predicate Legs(at: seq<Position>) {
    && Visits(at, 0, 2, VfifoSteps(0, 1, 0)) && Visits(at, 2, 4, Tries(BUILD_TAPS, 1, 0))
    && Visits(at, 4, 11, DelaySteps(1, 1, 0)) && Visits(at, 11, 19, TapsAfter(BUILD_TAPS, Position(1, 2, 0), 0))
    && Visits(at, 19, 26, DelaySteps(2, 2, 0)) && Visits(at, 26, 39, DelaySteps(2, 1, 6))
    && Visits(at, 39, 55, VfifoSteps(2, 5, 12))
  }

  lemma RunHasLegs(at: seq<Position>)
    requires ReadsAt(BUILD_TAPS, at, 0, 55, 0, COURSE, 5, 12)
    ensures Legs(at)
  {
  }

  /** The total delays of the reads. */
  function ReadTotal(k: nat): nat {
    if k < 2 then 312 + 2496 * k
    else if k < 4 then 2808 + 312 * (k - 2)
    else if k < 11 then 2808 + 25 * (k - 4)
    else if k < 16 then 3432 + 312 * (k - 11)
    else if k < 19 then 5304 + 312 * (k - 16)
    else if k < 26 then 5616 + 25 * (k - 19)
    else if k < 39 then 5454 + 25 * (k - 26)
    else 6852 + 2496 * (k - 39)
  }

  lemma RunTotals(at: seq<Position>, k: nat)
    requires |at| == 55 && Legs(at) && k < 55
    ensures Total(BUILD_TAPS, at[k]) == ReadTotal(k)
  {
    if k < 2 {
      VfifoLeg(at, 0, 2, 0, 1, 0, k);
    } else if k < 4 {
      TryLeg(at, 2, 4, 1, 0, k - 1, k);
    } else if k < 11 {
      DelayLeg(at, 4, 11, 1, 1, 0, k);
    } else if k < 16 {
      TapLeg(at, 11, 19, 1, 2, 0, k - 8, k);
    } else if k < 19 {
      TapLeg(at, 11, 19, 1, 2, 1, k - 15, k);
    } else if k < 26 {
      DelayLeg(at, 19, 26, 2, 2, 0, k);
    } else if k < 39 {
      DelayLeg(at, 26, 39, 2, 1, 6, k);
    } else {
      VfifoLeg(at, 39, 55, 2, 5, 12, k);
    }
  }

  lemma EyeAnswers(k: nat)
    requires k < 55
    ensures Answer(k) == Eye(ReadTotal(k))
  {
    var t := ReadTotal(k);
    InRound(2946, 2800, t, if t < 2946 then -1 else if t < 42882 then 0 else 1);
  }

  /** Read where the run reads, the eye gives these answers. */
  lemma RunIsSteady(at: seq<Position>)
    requires |at| == 55 && ReadsAt(BUILD_TAPS, at, 0, 55, 0, COURSE, 5, 12)
    ensures Steady(BUILD_TAPS, Answer, at, 0, 55, Eye)
  {
    RunHasLegs(at);
    forall k: nat | k < 55 ensures Answer(k) == Eye(Total(BUILD_TAPS, at[k])) {
      RunTotals(at, k);
      EyeAnswers(k);
    }
  }

  /** No other end, window or places of reads agree with the contract of the search. */
  lemma OnlyThisEnd(c: Taps, answers: nat -> bool, at: seq<Position>, r: Course, found: bool, z: nat, r': Course,
                    dtaps: nat, v: nat, phase: nat, delay: nat)
    requires Explains(c, answers, 0, 55, 0, r, 12, 17, 5, 12)
    requires Reports(c, answers, 0, z, 0, r', dtaps, v, phase, delay, found)
    requires ReadsAt(c, at, 0, z, 0, r', phase, delay)
    ensures found && dtaps == 12 && v == 17 && phase == 5 && delay == 12 && z == 55
    ensures r'.bgn == r.bgn && r'.end == r.end && ReadsAt(c, at, 0, 55, 0, r, 5, 12)
  {
    OutcomeIsDetermined(c, answers, 0, 0, 55, r, 12, 17, 5, 12, found, z, r', dtaps, v, phase, delay);
    SuccessReads(c, answers, at, 0, 0, 55, r, 12, 17, 5, 12, z, r', dtaps, v, phase, delay);
    CourseIsDetermined(c, answers, 0, r, r');
  }

  lemma RunEndsSo(at: seq<Position>, found: bool, z: nat, r: Course, dtaps: nat, v: nat, phase: nat, delay: nat)
    requires |at| == z && Reports(BUILD_TAPS, Answer, 0, z, 0, r, dtaps, v, phase, delay, found)
    requires ReadsAt(BUILD_TAPS, at, 0, z, 0, r, phase, delay)
    ensures found && dtaps == 12 && v == 17 && phase == 5 && delay == 12 && z == 55
    ensures r.bgn == 462 && r.end == 3245 && Steady(BUILD_TAPS, Answer, at, 0, z, Eye)
  {
    RunSucceeds();
    OnlyThisEnd(BUILD_TAPS, Answer, at, COURSE, found, z, r, dtaps, v, phase, delay);
    RunIsSteady(at);
  }

  /** The reads of this run are those of the eye. The search takes it from 462 to 3245
      ps and ends in its middle: 1860 ps, as five phase taps and twelve delay taps. */
  method Run() returns (phy: Phy, found: bool, dtaps: nat, ghost r: Course)
    ensures fresh(phy) && phy.c == BUILD_TAPS && phy.asked == 55
    ensures Steady(BUILD_TAPS, phy.answers, phy.at, 0, phy.asked, Eye)
    ensures found && dtaps == 12 && phy.v == 17 && phy.phase == 5 && phy.delay == 12
    ensures r.bgn == 462 && r.end == 3245
  {
    phy := new Phy(BUILD_TAPS, Answer);
    found, dtaps, r := phy.FindDqsEnPhase();
    RunEndsSo(phy.at, found, phy.asked, r, dtaps, phy.v, phy.phase, phy.delay);
  }
}
