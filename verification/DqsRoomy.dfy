/** The search for the DQS enable setting on eyes with room: every stretch of passes
    spans six phase taps and every stretch of fails four. Then nothing can go wrong but
    for want of fails or passes. */
module DqsRoomy {
  import opened DqsSpec
  import opened DqsOutcome
  import opened DqsEye
  import opened DqsAim
  import opened DqsVerdict

  /** A delay that passes has passes all around it, for six phase taps. */
  ghost predicate Roomy(c: Taps, eye: int -> bool) {
    forall t :: eye(t) ==> exists lo :: RoomAt(c, eye, t, lo)
  }

  ghost predicate RoomAt(c: Taps, eye: int -> bool, t: int, lo: int) {
    lo <= t <= lo + 6 * c.opa && Open(eye, lo, lo + 6 * c.opa)
  }

  /** Some setting passes. */
  ghost predicate SomePass(c: Taps, eye: int -> bool) { exists x: Position :: eye(Total(c, x)) }

  lemma Divide(x: nat, n: nat) returns (q: nat, rest: nat)
    requires n > 0
    ensures x == q * n + rest && rest < n
  {
    q, rest := x / n, x % n;
  }

  /** There is a usable phase tap at most two phase taps past any delay. */
  lemma UsableTap(c: Taps, lo: nat) returns (y: Position)
    requires c.Valid()
    ensures 1 <= y.p <= c.phaseMax && y.d == 0 && lo <= Total(c, y) <= lo + 2 * c.opa
  {
    var v, rest := Divide(lo, c.Period());
    var p, over := Divide(rest, c.opa);
    Distribute(p, 1, c.opa);
    if p < c.phaseMax {
      y := Position(v, p + 1, 0);
    } else {
      AtLeast(p, c.phaseMax, c.opa);
      Distribute(c.phaseMax, 1, c.opa);
      Distribute(v, 1, c.Period());
      y := Position(v + 1, 1, 0);
    }
  }

  lemma TwoRounds(c: Taps)
    requires Fine(c)
    ensures 2 * Round(c) >= 6 * c.opa
  {
    AtLeast(c.phaseMax + 1, 4, c.opa);
    AtLeast(c.vfifoSize, 1, c.Period());
  }

  /** A delay at which something passes, past 0 with all its room. */
  lemma RoomPastZero(c: Taps, eye: int -> bool, x: Position) returns (lo: nat)
    requires Fine(c) && GoesRound(c, eye) && Roomy(c, eye) && eye(Total(c, x))
    ensures Open(eye, lo, lo + 6 * c.opa)
  {
    TwoRounds(c);
    Around(c, eye, Total(c, x), 2);
    var far := Total(c, x) + 2 * Round(c);
    var l :| RoomAt(c, eye, far, l);
    NotNegative(c, x);
    lo := l;
  }

  lemma NotNegative(c: Taps, x: Position)
    ensures Total(c, x) >= 0
  {
  }

  /** When anything passes, a usable phase tap does. */
  lemma RoomForTap(c: Taps, eye: int -> bool, x: Position) returns (y: Position)
    requires Fine(c) && GoesRound(c, eye) && Roomy(c, eye) && eye(Total(c, x))
    ensures 1 <= y.p <= c.phaseMax && y.d == 0 && eye(Total(c, y))
  {
    var lo := RoomPastZero(c, eye, x);
    y := UsableTap(c, lo);
  }

  lemma RoomToTry(c: Taps, eye: int -> bool)
    requires Fine(c) && GoesRound(c, eye) && Roomy(c, eye)
    ensures SomePass(c, eye) <==> Tryable(c, eye)
  {
    if SomePass(c, eye) {
      var x: Position :| eye(Total(c, x));
      var y := RoomForTap(c, eye, x);
      assert MayTry(c, y);
    }
  }

  /** In a roomy eye the first setting is not at its end. */
  lemma NotNarrow(c: Taps, eye: int -> bool, base: int, s: Setting)
    requires Roomy(c, eye) && FirstOpens(c, eye, base, s) && c.dchain <= c.opa
    ensures !Narrow(c, eye, base, s)
  {
    var lo :| RoomAt(c, eye, base + Delay(c, s), lo);
  }

  /** And the window spans three phase taps. */
  lemma WindowIsRoomy(c: Taps, eye: int -> bool, lo: int, hi: int, below: nat, above: nat)
    requires Roomy(c, eye) && Brackets(eye, lo, hi, below, above) && below <= 2 * c.opa && above <= c.opa
    ensures hi - lo >= 3 * c.opa
  {
    assert eye(lo);
    var r :| RoomAt(c, eye, lo, r);
    var t :| lo - below <= t < lo && !eye(t);
    var u :| hi + 1 <= u < hi + above + 1 && !eye(u);
    assert t < r && r + 6 * c.opa < u;
  }

  /** The window is open, and a tap before and a tap after it there is a fail. */
  ghost predicate Finds(c: Taps, eye: int -> bool, base: int, s: Setting, bgn: nat, end: nat, d: nat) {
    Brackets(eye, base + bgn, base + end + Late(c, s), Before(c, s), Margin(c, d))
  }

  lemma RoomyWindow(c: Taps, eye: int -> bool, base: int, s: Setting, bgn: nat, end: nat, d: nat)
    requires Roomy(c, eye) && c.dchain <= c.opa
    requires FirstOpens(c, eye, base, s) && TakesTheEye(c, eye, base, s, bgn, end, d)
    ensures Finds(c, eye, base, s, bgn, end, d) && end - bgn >= 2 * c.opa
  {
    NotNarrow(c, eye, base, s);
    WindowIsRoomy(c, eye, base + bgn, base + end + Late(c, s), Before(c, s), Margin(c, d));
  }

  /** A window found in a roomy eye is the eye, to within a tap at either end, and
      spans two phase taps. */
  lemma WindowIsGood(c: Taps, answers: nat -> bool, at: seq<Position>, eye: int -> bool, a: nat, z: nat,
                     v0: nat, r: Course, phase: nat, delay: nat)
    requires Fine(c) && Wide(c, eye) && GoesRound(c, eye) && Roomy(c, eye)
    requires Starts(c, answers, a, r) && HasFirst(c, answers, r) && HasWindow(c, answers, r) && r.x <= z
    requires Observed(c, answers, at, eye, a, z, v0, r, phase, delay)
    ensures Finds(c, eye, Base(c, a, v0, r), r.first, r.bgn, r.end, r.trail.d) && r.end - r.bgn >= 2 * c.opa
  {
    WindowIsTheEye(c, answers, at, eye, a, z, v0, r, phase, delay);
    RoomyWindow(c, eye, Base(c, a, v0, r), r.first, r.bgn, r.end, r.trail.d);
  }

  /** So its middle is open, with a phase tap to spare. */
  lemma MiddleIsOpen(c: Taps, eye: int -> bool, base: int, s: Setting, bgn: nat, end: nat, d: nat)
    requires Finds(c, eye, base, s, bgn, end, d) && end - bgn >= 2 * c.opa
    ensures Open(eye, base + (bgn + end) / 2, base + (bgn + end) / 2 + c.opa)
  {
  }

  /** The middle of an open window passes at its setting. */
  lemma OpenMiddlePasses(c: Taps, eye: int -> bool, v: nat, mid: nat, m: nat, phase: nat, delay: nat)
    requires c.Valid() && c.dchain <= c.opa && IsReduced(c, mid, m) && IsPlaced(c, m, phase, delay)
    requires Open(eye, v * c.Period() + mid, v * c.Period() + mid + c.opa)
    ensures MiddleOpens(c, eye, m)
  {
    var u := SettingAtMiddle(c, v, mid, m, phase, delay);
    var x := Position(u, phase, delay);
    assert eye(Total(c, x));
  }

  lemma RoomyMiddle(c: Taps, answers: nat -> bool, at: seq<Position>, eye: int -> bool, a: nat, z: nat,
                    v0: nat, r: Course, phase: nat, delay: nat, dtaps: nat)
    requires Fine(c) && Wide(c, eye) && GoesRound(c, eye) && Roomy(c, eye)
    requires Observed(c, answers, at, eye, a, z, v0, r, phase, delay)
    ensures !NoneAtMiddle(c, answers, a, z, r, dtaps, phase, delay)
  {
    if NoneAtMiddle(c, answers, a, z, r, dtaps, phase, delay) {
      var v := StartOfTries(v0, a, r.s);
      MeasureInOrder(c, answers, a, r, dtaps);
      WindowIsGood(c, answers, at, eye, a, z, v0, r, phase, delay);
      MiddleIsOpen(c, eye, v * c.Period(), r.first, r.bgn, r.end, r.trail.d);
      OpenMiddlePasses(c, eye, v, (r.bgn + r.end) / 2, r.m, phase, delay);
      MiddleMisses(c, answers, at, eye, a, z, v0, r, phase, delay, dtaps);
    }
  }

  /** With room, the search succeeds if and only if two VFIFO steps fail and some
      setting passes, and its window is the eye to within a tap at either end. */
  lemma RoomyVerdict(c: Taps, answers: nat -> bool, at: seq<Position>, eye: int -> bool, a: nat, z: nat,
                     v0: nat, r: Course, phase: nat, delay: nat, dtaps: nat,
                     v: nat, found: bool)
    requires Fine(c) && Wide(c, eye) && GoesRound(c, eye) && Roomy(c, eye)
    requires Reports(c, answers, a, z, v0, r, dtaps, v, phase, delay, found)
    requires Observed(c, answers, at, eye, a, z, v0, r, phase, delay)
    ensures found <==> TwoFail(c, eye, v0) && SomePass(c, eye)
    ensures found ==> Finds(c, eye, Base(c, a, v0, r), r.first, r.bgn, r.end, r.trail.d)
  {
    RoomToTry(c, eye);
    if found {
      var q := SuccessAimsWell(c, answers, at, eye, a, z, v0, r, phase, delay, dtaps, v);
      AimsNeed(c, eye, v0, q);
      MeasureInOrder(c, answers, a, r, dtaps);
      WindowIsGood(c, answers, at, eye, a, z, v0, r, phase, delay);
    } else if TwoFail(c, eye, v0) && SomePass(c, eye) {
      HasAWindow(c, answers, at, eye, a, z, v0, r, phase, delay);
      NotEmptyAtEnd(c, answers, at, eye, a, z, v0, r, phase, delay, dtaps);
      RoomyMiddle(c, answers, at, eye, a, z, v0, r, phase, delay, dtaps);
    }
  }

  /** How far past a middle its setting may be: a delay tap, or a phase tap when the
      middle is within phase tap 0. */
  function Slack(c: Taps, m: nat): nat { if m <= c.opa then c.opa else c.dchain }

  /** In some VFIFO step the setting for a middle has its delay, or a little more. */
  lemma SettingAtMiddle(c: Taps, v: nat, mid: nat, m: nat, phase: nat, delay: nat) returns (u: nat)
    requires c.Valid() && IsReduced(c, mid, m) && IsPlaced(c, m, phase, delay)
    ensures 0 <= Total(c, Position(u, phase, delay)) - (v * c.Period() + mid) <= Slack(c, m)
  {
    var k: nat :| mid == m + k * c.Period();
    Distribute(v, k, c.Period());
    u := v + k;
  }

  /** WindowIsTheEye in terms of the eye's aim: where step 2 starts and its first setting
      follow from the eye, so that whether it is narrow can be told beforehand. */
  lemma AimIsTheEye(c: Taps, answers: nat -> bool, at: seq<Position>, eye: int -> bool, a: nat, z: nat,
                    v0: nat, r: Course, phase: nat, delay: nat) returns (q: Aim)
    requires Fine(c) && Wide(c, eye) && GoesRound(c, eye) && r.x <= z
    requires Starts(c, answers, a, r) && HasFirst(c, answers, r) && HasWindow(c, answers, r)
    requires IsReduced(c, (r.bgn + r.end) / 2, r.m)
    requires Observed(c, answers, at, eye, a, z, v0, r, phase, delay)
    ensures Aims(c, eye, v0, q) && AimOfCourse(a, v0, r, q)
    ensures TakesTheEye(c, eye, q.v * c.Period(), q.first, q.bgn, q.end, r.trail.d)
  {
    q := RunAims(c, answers, at, eye, a, z, v0, r, phase, delay);
    WindowIsTheEye(c, answers, at, eye, a, z, v0, r, phase, delay);
  }

  /** What the registers are for. In an eye that is not narrow they lie, in VFIFO step
      u, in the middle of the open window around the first setting: the margins to its
      two ends differ by at most twice the slack. But when the first setting is at phase
      tap 1, the upper margin is a phase tap larger, as the middle is half a phase tap
      low. */
  lemma RegistersAreCentred(c: Taps, answers: nat -> bool, at: seq<Position>, eye: int -> bool, a: nat, z: nat,
                            v0: nat, r: Course, phase: nat, delay: nat) returns (u: nat)
    requires Fine(c) && Wide(c, eye) && GoesRound(c, eye) && r.x <= z
    requires Starts(c, answers, a, r) && HasFirst(c, answers, r) && HasWindow(c, answers, r)
    requires IsReduced(c, (r.bgn + r.end) / 2, r.m) && IsPlaced(c, r.m, phase, delay)
    requires Observed(c, answers, at, eye, a, z, v0, r, phase, delay)
    requires !Narrow(c, eye, Base(c, a, v0, r), r.first)
    ensures var base, late := Base(c, a, v0, r), Late(c, r.first);
            var lo, hi, t := base + r.bgn, base + r.end + late, Total(c, Position(u, phase, delay));
            && Brackets(eye, lo, hi, Before(c, r.first), Margin(c, r.trail.d))
            && late - 2 * Slack(c, r.m) <= (hi - t) - (t - lo) <= late + 1
  {
    WindowIsTheEye(c, answers, at, eye, a, z, v0, r, phase, delay);
    u := SettingAtMiddle(c, StartOfTries(v0, a, r.s), (r.bgn + r.end) / 2, r.m, phase, delay);
  }
}
