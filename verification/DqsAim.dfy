/** What an eye settles by itself, whoever reads it: where the search for the DQS
    enable setting starts, the first setting it finds, the window it takes, and the
    middle it aims at. */
module DqsAim {
  import opened DqsSpec
  import opened DqsOutcome
  import opened DqsEye

  /** The read at phase tap 1 fails after v VFIFO steps. */
  ghost predicate FailsAt(c: Taps, eye: int -> bool, v: nat) { !eye(Total(c, Position(v, 1, 0))) }

  /** From VFIFO step v0 on, u is the first step that fails and v the second. */
  ghost predicate TwoFailing(c: Taps, eye: int -> bool, v0: nat, u: nat, v: nat) {
    && v0 <= u < v < v0 + c.vfifoSize && FailsAt(c, eye, u) && FailsAt(c, eye, v)
    && forall w :: v0 <= w <= v && FailsAt(c, eye, w) ==> w == u || w == v
  }

  predicate Usable(c: Taps, s: Setting) { s.i < c.vfifoSize && 1 <= s.p <= c.phaseMax }

  /** The first setting in the order of step 2 whose delay is in the eye. */
  ghost predicate IsFirst(c: Taps, eye: int -> bool, base: int, s: Setting) {
    && Usable(c, s) && eye(base + Delay(c, s))
    && forall t :: Usable(c, t) && ReadsTo(c, 0, t) < ReadsTo(c, 0, s) ==> !eye(base + Delay(c, t))
  }

  /** The answers of the eye to reads made in the order f. */
  ghost function Leg(c: Taps, eye: int -> bool, f: Order): nat -> bool {
    (k: nat) => eye(Total(c, Nth(f, k)))
  }

  /** The window that steps 3 to 5 take when the first setting is s and step 2 started
      at VFIFO step v. The trail counts the reads of each leg from its own start. */
  ghost predicate EyeWindow(c: Taps, eye: int -> bool, v: nat, s: Setting, t: Trail, bgn: nat, end: nat) {
    var u, work := Where(c, v, s).v, Delay(c, s);
    if s.d > 0 then
      bgn == work && LastsTo(c, Leg(c, eye, DelaySteps(u, s.p, s.d)), 0, t.z, s.d, work, t.d, end)
    else
      && s.p > 0 && Begins(c, Leg(c, eye, DelaySteps(u, s.p - 1, 0)), 0, t.b, s.p, work, t.bgn)
      && bgn == (if t.moved then work + c.opa else t.bgn)
      && EyeEnd(c, eye, AfterRestore(c, u, s.p), s, t, end)
  }

  /** Steps 4a to 5, from y on. */
  ghost predicate EyeEnd(c: Taps, eye: int -> bool, y: Position, s: Setting, t: Trail, end: nat) {
    var back := BackedOff(c, y.v + t.k, t.p);
    && Ends(c, Leg(c, eye, TapsAfter(c, y, 0)), 0, t.e, s.i, Restored(c, s.p), Delay(c, s), t.moved, t.k, t.p, t.end)
    && LastsTo(c, Leg(c, eye, DelaySteps(back.v, back.p, 0)), 0, t.z, 0, t.end, t.d, end)
  }

  /** Where step 2 starts, the delay taps it may try, the first setting, the window
      around it, and its middle within one VFIFO step. */
  datatype Aim = Aim(v: nat, n: nat, first: Setting, trail: Trail, bgn: nat, end: nat, m: nat)

  /** The eye has this aim for a search that begins at VFIFO step v0. */
  ghost predicate Aims(c: Taps, eye: int -> bool, v0: nat, q: Aim) {
    && (exists u :: TwoFailing(c, eye, v0, u, q.v)) && OneLess(c, q.n)
    && IsFirst(c, eye, q.v * c.Period(), q.first) && q.first.d <= q.n
    && EyeWindow(c, eye, q.v, q.first, q.trail, q.bgn, q.end)
    && IsReduced(c, (q.bgn + q.end) / 2, q.m)
  }

  /** The middle passes, at its setting, in some VFIFO step. */
  ghost predicate MiddleOpens(c: Taps, eye: int -> bool, m: nat) {
    exists x: Position :: IsPlaced(c, m, x.p, x.d) && eye(Total(c, x))
  }

  // ------------------------------------------------------------- One aim per eye

  lemma TwoFailingIsDetermined(c: Taps, eye: int -> bool, v0: nat, u: nat, v: nat, u': nat, v': nat)
    requires TwoFailing(c, eye, v0, u, v) && TwoFailing(c, eye, v0, u', v')
    ensures u == u' && v == v'
  {
  }

  lemma IsFirstIsDetermined(c: Taps, eye: int -> bool, base: int, s: Setting, s': Setting)
    requires IsFirst(c, eye, base, s) && IsFirst(c, eye, base, s')
    ensures s == s'
  {
    assert ReadsTo(c, 0, s) == ReadsTo(c, 0, s');
    QuotientIsDetermined(c.phaseMax, s.d * c.vfifoSize + s.i, s.p, s'.d * c.vfifoSize + s'.i, s'.p);
    QuotientIsDetermined(c.vfifoSize, s.d, s.i + 1, s'.d, s'.i + 1);
  }

  lemma EyeWindowIsDetermined(c: Taps, eye: int -> bool, v: nat, s: Setting,
                              t: Trail, bgn: nat, end: nat, t': Trail, bgn': nat, end': nat)
    requires EyeWindow(c, eye, v, s, t, bgn, end) && EyeWindow(c, eye, v, s, t', bgn', end')
    ensures bgn == bgn' && end == end'
  {
    var u, work := Where(c, v, s).v, Delay(c, s);
    if s.d > 0 {
      LastIsDetermined(c, Leg(c, eye, DelaySteps(u, s.p, s.d)), 0, s.d, work, t.z, t.d, end, t'.z, t'.d, end');
    } else {
      var y := AfterRestore(c, u, s.p);
      BeginIsDetermined(c, Leg(c, eye, DelaySteps(u, s.p - 1, 0)), 0, s.p, work, t.b, t.bgn, t'.b, t'.bgn);
      EndIsDetermined(c, Leg(c, eye, TapsAfter(c, y, 0)), 0, s.i, Restored(c, s.p), work,
                      t.e, t.moved, t.k, t.p, t.end, t'.e, t'.moved, t'.k, t'.p, t'.end);
      var back := BackedOff(c, y.v + t.k, t.p);
      LastIsDetermined(c, Leg(c, eye, DelaySteps(back.v, back.p, 0)), 0, 0, t.end, t.z, t.d, end, t'.z, t'.d, end');
    }
  }

  /** The eye leaves no choice of where to start, of the first setting, of the window
      and of its middle. */
  lemma AimIsDetermined(c: Taps, eye: int -> bool, v0: nat, q: Aim, q': Aim)
    requires Aims(c, eye, v0, q) && Aims(c, eye, v0, q')
    ensures q.v == q'.v && q.n == q'.n && q.first == q'.first && q.bgn == q'.bgn && q.end == q'.end && q.m == q'.m
  {
    var u :| TwoFailing(c, eye, v0, u, q.v);
    var u' :| TwoFailing(c, eye, v0, u', q'.v);
    TwoFailingIsDetermined(c, eye, v0, u, q.v, u', q'.v);
    OneLessIsDetermined(c, q.n, q'.n);
    IsFirstIsDetermined(c, eye, q.v * c.Period(), q.first, q'.first);
    EyeWindowIsDetermined(c, eye, q.v, q.first, q.trail, q.bgn, q.end, q'.trail, q'.bgn, q'.end);
    MiddleIsDetermined(c, (q.bgn + q.end) / 2, q.m, q'.m);
  }

  // --------------------------------------------------------- Runs have the eye's aim

  lemma LegAt(c: Taps, answers: nat -> bool, eye: int -> bool, a: nat, b: nat, f: Order, k: nat)
    requires Sees(c, answers, eye, a, b, f) && a <= k < b
    ensures answers(k) == Leg(c, eye, f)(k - a)
  {
  }

  lemma AllOnLeg(c: Taps, answers: nat -> bool, eye: int -> bool, a: nat, b: nat, f: Order, i: nat, j: nat, want: bool)
    requires Sees(c, answers, eye, a, b, f) && a <= i && j <= b && a <= j && All(answers, i, j, want)
    ensures All(Leg(c, eye, f), i - a, j - a, want)
  {
    forall k | i - a <= k < j - a ensures Leg(c, eye, f)(k) == want {
      LegAt(c, answers, eye, a, b, f, k + a);
    }
  }

  lemma BeginsOnLeg(c: Taps, answers: nat -> bool, eye: int -> bool, a: nat, b: nat, f: Order,
                    p0: nat, work: nat, bgn: nat)
    requires Sees(c, answers, eye, a, b, f) && Begins(c, answers, a, b, p0, work, bgn)
    ensures Begins(c, Leg(c, eye, f), 0, b - a, p0, work, bgn)
  {
    if p0 != 1 {
      AllOnLeg(c, answers, eye, a, b, f, a, b - 1, false);
      LegAt(c, answers, eye, a, b, f, b - 1);
    }
  }

  lemma PassesOnLeg(c: Taps, answers: nat -> bool, eye: int -> bool, a: nat, b: nat, f: Order, j: nat, excused: bool)
    requires Sees(c, answers, eye, a, b, f) && a <= j <= b && Passes(answers, a, j, excused)
    ensures Passes(Leg(c, eye, f), 0, j - a, excused)
  {
    if excused {
      LegAt(c, answers, eye, a, b, f, a);
      AllOnLeg(c, answers, eye, a, b, f, a + 1, j, true);
    } else {
      AllOnLeg(c, answers, eye, a, b, f, a, j, true);
    }
  }

  lemma EndsOnLeg(c: Taps, answers: nat -> bool, eye: int -> bool, b: nat, e: nat, f: Order, i: nat, q: nat, work: nat,
                  moved: bool, k: nat, p1: nat, end: nat)
    requires Sees(c, answers, eye, b, e, f) && Ends(c, answers, b, e, i, q, work, moved, k, p1, end)
    ensures Ends(c, Leg(c, eye, f), 0, e - b, i, q, work, moved, k, p1, end)
  {
    LegAt(c, answers, eye, b, e, f, b);
    LegAt(c, answers, eye, b, e, f, e - 1);
    PassesOnLeg(c, answers, eye, b, e, f, e - 1, moved);
  }

  lemma LastsOnLeg(c: Taps, answers: nat -> bool, eye: int -> bool, a: nat, b: nat, f: Order, d0: nat,
                   end0: nat, d: nat, end: nat)
    requires Sees(c, answers, eye, a, b, f) && LastsTo(c, answers, a, b, d0, end0, d, end)
    ensures LastsTo(c, Leg(c, eye, f), 0, b - a, d0, end0, d, end)
  {
    AllOnLeg(c, answers, eye, a, b, f, a, a + (d - d0), true);
    if d <= c.delayMax {
      LegAt(c, answers, eye, a, b, f, b - 1);
    }
  }

  lemma PhaseWindowIsEyes(c: Taps, answers: nat -> bool, eye: int -> bool, a: nat, v: nat, s: Setting,
                          t: Trail, bgn: nat, end: nat) returns (t': Trail)
    requires s.d == 0 && WindowOf(c, answers, a, s, t, bgn, end)
    requires EdgeSees(c, answers, eye, a, Where(c, v, s).v, s, t)
    ensures EyeWindow(c, eye, v, s, t', bgn, end)
  {
    var u := Where(c, v, s).v;
    BeginsOnLeg(c, answers, eye, a, t.b, DelaySteps(u, s.p - 1, 0), s.p, Delay(c, s), t.bgn);
    t' := t.(b := t.b - a, e := t.e - t.b, z := t.z - t.e);
    EndIsEyes(c, answers, eye, AfterRestore(c, u, s.p), s, t, end, t');
  }

  lemma EndIsEyes(c: Taps, answers: nat -> bool, eye: int -> bool, y: Position, s: Setting, t: Trail,
                  end: nat, t': Trail)
    requires Ends(c, answers, t.b, t.e, s.i, Restored(c, s.p), Delay(c, s), t.moved, t.k, t.p, t.end)
    requires LastsTo(c, answers, t.e, t.z, 0, t.end, t.d, end) && EndSees(c, answers, eye, t, y)
    requires t' == t.(b := t'.b, e := t.e - t.b, z := t.z - t.e)
    ensures EyeEnd(c, eye, y, s, t', end)
  {
    var back := BackedOff(c, y.v + t.k, t.p);
    EndsOnLeg(c, answers, eye, t.b, t.e, TapsAfter(c, y, 0), s.i, Restored(c, s.p), Delay(c, s),
              t.moved, t.k, t.p, t.end);
    LastsOnLeg(c, answers, eye, t.e, t.z, DelaySteps(back.v, back.p, 0), 0, t.end, t.d, end);
  }

  lemma DelayWindowIsEyes(c: Taps, answers: nat -> bool, eye: int -> bool, a: nat, v: nat, s: Setting,
                          t: Trail, bgn: nat, end: nat) returns (t': Trail)
    requires s.d > 0 && WindowOf(c, answers, a, s, t, bgn, end)
    requires Sees(c, answers, eye, a, t.z, DelaySteps(Where(c, v, s).v, s.p, s.d))
    ensures EyeWindow(c, eye, v, s, t', bgn, end)
  {
    LastsOnLeg(c, answers, eye, a, t.z, DelaySteps(Where(c, v, s).v, s.p, s.d), s.d, Delay(c, s), t.d, end);
    t' := t.(z := t.z - a);
  }

  /** Step 1 stops at the second failing VFIFO step. */
  lemma StartIsTwoFailing(c: Taps, answers: nat -> bool, eye: int -> bool, a: nat, v0: nat, k: nat, s: nat)
    requires SecondFail(answers, a, k, s) && s <= a + c.vfifoSize
    requires Sees(c, answers, eye, a, s, VfifoSteps(v0, 1, 0))
    ensures TwoFailing(c, eye, v0, v0 + (k - a), StartOfTries(v0, a, s))
  {
    var f := VfifoSteps(v0, 1, 0);
    forall w | v0 <= w <= v0 + (s - 1 - a) ensures FailsAt(c, eye, w) <==> !answers(a + (w - v0)) {
      LegAt(c, answers, eye, a, s, f, a + (w - v0));
    }
  }

  /** Step 2 stops at the first setting whose delay is in the eye. */
  lemma FoundIsFirst(c: Taps, answers: nat -> bool, eye: int -> bool, a: nat, v: nat, s: Setting)
    requires c.Valid() && GoesRound(c, eye) && FirstAt(c, answers, a, s)
    requires Sees(c, answers, eye, a, ReadsTo(c, a, s), Tries(c, v, 0))
    ensures IsFirst(c, eye, v * c.Period(), s)
  {
    Tried(c, answers, eye, a, ReadsTo(c, a, s), v, s);
    forall t | Usable(c, t) && ReadsTo(c, 0, t) < ReadsTo(c, 0, s) ensures !eye(v * c.Period() + Delay(c, t)) {
      TriedBefore(c, answers, eye, a, v, s, t);
    }
  }

  lemma TriedBefore(c: Taps, answers: nat -> bool, eye: int -> bool, a: nat, v: nat, s: Setting, t: Setting)
    requires c.Valid() && GoesRound(c, eye) && FirstAt(c, answers, a, s)
    requires Sees(c, answers, eye, a, ReadsTo(c, a, s), Tries(c, v, 0))
    requires Usable(c, t) && ReadsTo(c, 0, t) < ReadsTo(c, 0, s)
    ensures !eye(v * c.Period() + Delay(c, t))
  {
    ReadsFrom(c, a, s);
    ReadsFrom(c, a, t);
    Tried(c, answers, eye, a, ReadsTo(c, a, s), v, t);
    var k: nat := ReadsTo(c, a, t) - 1;
    assert !answers(k);
  }

  lemma ReadsFrom(c: Taps, a: nat, s: Setting)
    ensures ReadsTo(c, a, s) == a + ReadsTo(c, 0, s) && ReadsTo(c, 0, s) >= s.p
  {
  }

  /** A run on steady hardware starts where the eye says and finds its first setting. */
  lemma RunStartsAtEye(c: Taps, answers: nat -> bool, at: seq<Position>, eye: int -> bool, a: nat, z: nat,
                       v0: nat, r: Course, phase: nat, delay: nat)
    requires c.Valid() && GoesRound(c, eye) && Starts(c, answers, a, r) && HasFirst(c, answers, r) && r.w <= z
    requires Steady(c, answers, at, a, z, eye) && ReadsAt(c, at, a, z, v0, r, phase, delay)
    ensures var v := StartOfTries(v0, a, r.s);
            (exists u :: TwoFailing(c, eye, v0, u, v)) && IsFirst(c, eye, v * c.Period(), r.first)
  {
    CourseInOrder(c, answers, a, r);
    FirstLegs(c, answers, at, eye, a, z, v0, r, phase, delay);
    var k :| SecondFail(answers, a, k, r.s);
    StartIsTwoFailing(c, answers, eye, a, v0, k, r.s);
    FoundIsFirst(c, answers, eye, r.s, StartOfTries(v0, a, r.s), r.first);
  }

  /** And takes the eye's window. */
  lemma RunTakesWindow(c: Taps, answers: nat -> bool, at: seq<Position>, eye: int -> bool, a: nat, z: nat,
                       v0: nat, r: Course, phase: nat, delay: nat) returns (t: Trail)
    requires a <= r.w && HasWindow(c, answers, r) && r.x <= z
    requires Steady(c, answers, at, a, z, eye) && ReadsAt(c, at, a, z, v0, r, phase, delay)
    ensures EyeWindow(c, eye, StartOfTries(v0, a, r.s), r.first, t, r.bgn, r.end)
  {
    var v := StartOfTries(v0, a, r.s);
    WindowLegs(c, answers, at, eye, a, z, v0, r, phase, delay);
    if r.first.d > 0 {
      t := DelayWindowIsEyes(c, answers, eye, r.w, v, r.first, r.trail, r.bgn, r.end);
    } else {
      t := PhaseWindowIsEyes(c, answers, eye, r.w, v, r.first, r.trail, r.bgn, r.end);
    }
  }

  /** The aim is the one the course says. */
  ghost predicate AimOfCourse(a: nat, v0: nat, r: Course, q: Aim) {
    && q.v == StartOfTries(v0, a, r.s) && q.n == r.n && q.first == r.first
    && q.bgn == r.bgn && q.end == r.end && q.m == r.m
  }

  /** Every run with a window, whatever answers its hardware is heard to give, has the
      eye's aim. */
  lemma RunAims(c: Taps, answers: nat -> bool, at: seq<Position>, eye: int -> bool, a: nat, z: nat,
                v0: nat, r: Course, phase: nat, delay: nat) returns (q: Aim)
    requires c.Valid() && GoesRound(c, eye) && r.x <= z
    requires Starts(c, answers, a, r) && HasFirst(c, answers, r) && HasWindow(c, answers, r)
    requires IsReduced(c, (r.bgn + r.end) / 2, r.m)
    requires Steady(c, answers, at, a, z, eye) && ReadsAt(c, at, a, z, v0, r, phase, delay)
    ensures Aims(c, eye, v0, q) && AimOfCourse(a, v0, r, q)
  {
    CourseInOrder(c, answers, a, r);
    RunStartsAtEye(c, answers, at, eye, a, z, v0, r, phase, delay);
    var t := RunTakesWindow(c, answers, at, eye, a, z, v0, r, phase, delay);
    q := Aim(StartOfTries(v0, a, r.s), r.n, r.first, t, r.bgn, r.end, r.m);
  }
}
