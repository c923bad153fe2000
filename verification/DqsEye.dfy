/** The search for the DQS enable setting on steady hardware, whose read passes
    depending on the total delay of the setting alone. The delays at which it
    passes make up the eye. */
module DqsEye {
  import opened DqsSpec
  import opened DqsOutcome

  /** The total delay of a setting. */
  function Total(c: Taps, x: Position): int { x.v * c.Period() + x.p * c.opa + x.d * c.dchain }

  /** The delay of all VFIFO steps. */
  function Round(c: Taps): int { c.vfifoSize * c.Period() }

  /** Every delay from lo to hi passes. */
  ghost predicate Open(eye: int -> bool, lo: int, hi: int) { lo <= hi && forall t :: lo <= t <= hi ==> eye(t) }

  /** Some delay from lo on, and below hi, fails. */
  ghost predicate Shuts(eye: int -> bool, lo: int, hi: int) { exists t :: lo <= t < hi && !eye(t) }

  /** After the last VFIFO step comes the first. */
  ghost predicate GoesRound(c: Taps, eye: int -> bool) { forall t, u :: u == t + Round(c) ==> eye(t) == eye(u) }

  /** A stretch of fails between two passes takes more than four phase taps. */
  ghost predicate Wide(c: Taps, eye: int -> bool) {
    forall t, u, w :: t <= u <= w <= t + 4 * c.opa && eye(t) && eye(w) ==> eye(u)
  }

  /** The reads from a to z answer whether the delay is in the eye. */
  ghost predicate Steady(c: Taps, answers: nat -> bool, at: seq<Position>, a: nat, z: nat, eye: int -> bool) {
    z <= |at| && forall k :: a <= k < z ==> answers(k) == eye(Total(c, at[k]))
  }

  /** The same for reads made in the order f. */
  ghost predicate Sees(c: Taps, answers: nat -> bool, eye: int -> bool, a: nat, b: nat, f: Order) {
    forall k :: a <= k < b ==> answers(k) == eye(Total(c, Nth(f, k - a)))
  }

  lemma SteadySees(c: Taps, answers: nat -> bool, at: seq<Position>, a: nat, z: nat, eye: int -> bool,
                   lo: nat, hi: nat, f: Order)
    requires Steady(c, answers, at, a, z, eye) && Visits(at, lo, hi, f) && a <= lo && hi <= z
    ensures Sees(c, answers, eye, lo, hi, f)
  {
    forall k | lo <= k < hi ensures answers(k) == eye(Total(c, Nth(f, k - lo))) {
      assert at[k] == Nth(f, k - lo);
    }
  }

  lemma {:induction false} Around(c: Taps, eye: int -> bool, t: int, n: nat)
    requires GoesRound(c, eye)
    ensures eye(t + n * Round(c)) == eye(t)
  {
    if n > 0 {
      Around(c, eye, t, n - 1);
      Distribute(n - 1, 1, Round(c));
    }
  }

  // ------------------------------------------------------- The first setting

  /** A delay tap more in step 2 goes with a whole round of the VFIFO. */
  lemma TotalOfSetting(c: Taps, v: nat, s: Setting)
    ensures Total(c, Where(c, v, s)) == v * c.Period() + Delay(c, s) + s.d * Round(c)
  {
    Distribute(v + s.d * c.vfifoSize, s.i, c.Period());
    Distribute(v, s.d * c.vfifoSize, c.Period());
    Associate(s.d, c.vfifoSize, c.Period());
  }

  lemma SettingAt(c: Taps, s: Setting, n: nat)
    requires c.Valid() && s.i < c.vfifoSize && 1 <= s.p <= c.phaseMax
    requires n == (s.d * c.vfifoSize + s.i) * c.phaseMax + s.p - 1
    ensures NthSetting(c, n) == s
  {
    SettingIndex(c, n);
    var t := NthSetting(c, n);
    QuotientIsDetermined(c.phaseMax, s.d * c.vfifoSize + s.i, s.p, t.d * c.vfifoSize + t.i, t.p);
    QuotientIsDetermined(c.vfifoSize, s.d, s.i + 1, t.d, t.i + 1);
  }

  /** What step 2 saw at a setting it tried. */
  lemma Tried(c: Taps, answers: nat -> bool, eye: int -> bool, a: nat, w: nat, v: nat, s: Setting)
    requires c.Valid() && GoesRound(c, eye) && s.i < c.vfifoSize && 1 <= s.p <= c.phaseMax
    requires Sees(c, answers, eye, a, w, Tries(c, v, 0)) && a < ReadsTo(c, a, s) <= w
    ensures answers(ReadsTo(c, a, s) - 1) == eye(v * c.Period() + Delay(c, s))
  {
    var k: nat := ReadsTo(c, a, s) - 1;
    SettingAt(c, s, k - a);
    assert Nth(Tries(c, v, 0), k - a) == Where(c, v, s);
    TotalOfSetting(c, v, s);
    Around(c, eye, v * c.Period() + Delay(c, s), s.d);
  }

  /** The setting one delay tap, or else one phase tap, before s; tap 0 is left out. */
  function Previous(c: Taps, s: Setting): Setting
    requires s.d > 0 || s.p > 1 || s.i > 0
  {
    if s.d > 0 then s.(d := s.d - 1)
    else if s.p > 1 then s.(p := s.p - 1)
    else Setting(0, s.i - 1, c.phaseMax)
  }

  /** How far below the first setting that one is. */
  function Step(c: Taps, s: Setting): nat {
    if s.d > 0 then c.dchain else if s.p > 1 then c.opa else 2 * c.opa
  }

  lemma PreviousIsEarlier(c: Taps, a: nat, s: Setting)
    requires c.Valid() && s.i < c.vfifoSize && 1 <= s.p <= c.phaseMax && (s.d > 0 || s.p > 1 || s.i > 0)
    ensures a < ReadsTo(c, a, Previous(c, s)) < ReadsTo(c, a, s)
    ensures Delay(c, Previous(c, s)) == Delay(c, s) - Step(c, s)
  {
    var p := Previous(c, s);
    var m, n := p.d * c.vfifoSize + p.i, s.d * c.vfifoSize + s.i;
    if s.d > 0 {
      Distribute(s.d, -1, c.vfifoSize);
      Distribute(s.d, -1, c.dchain);
      Distribute(m, c.vfifoSize, c.phaseMax);
      AtLeast(c.vfifoSize, 1, c.phaseMax);
    } else if s.p > 1 {
      Distribute(s.p, -1, c.opa);
    } else {
      Distribute(s.i, -1, c.phaseMax);
      Distribute(s.i, -1, c.Period());
      Distribute(c.phaseMax, 1, c.opa);
    }
  }

  /** The setting at which step 2 starts is the one at which step 1 saw its second
      fail. */
  lemma StartFails(c: Taps, answers: nat -> bool, eye: int -> bool, a: nat, v0: nat, k: nat, s: nat)
    requires SecondFail(answers, a, k, s) && Sees(c, answers, eye, a, s, VfifoSteps(v0, 1, 0))
    ensures !eye(StartOfTries(v0, a, s) * c.Period() + c.opa)
  {
    var last: nat := s - 1;
    assert answers(last) == eye(Total(c, Nth(VfifoSteps(v0, 1, 0), last - a)));
  }

  /** The first setting of step 2 passes, and the one before it, if any, fails. */
  lemma FirstPasses(c: Taps, answers: nat -> bool, eye: int -> bool, a: nat, v: nat, s: Setting)
    requires c.Valid() && GoesRound(c, eye) && FirstAt(c, answers, a, s)
    requires Sees(c, answers, eye, a, ReadsTo(c, a, s), Tries(c, v, 0))
    ensures eye(v * c.Period() + Delay(c, s))
    ensures s.d > 0 || s.p > 1 || s.i > 0 ==> !eye(v * c.Period() + Delay(c, s) - Step(c, s))
  {
    Tried(c, answers, eye, a, ReadsTo(c, a, s), v, s);
    if s.d > 0 || s.p > 1 || s.i > 0 {
      PreviousIsEarlier(c, a, s);
      Tried(c, answers, eye, a, ReadsTo(c, a, s), v, Previous(c, s));
      var k: nat := ReadsTo(c, a, Previous(c, s)) - 1;
      assert !answers(k);
    }
  }

  /** Where total delays are counted from: the VFIFO step at which step 2 starts. */
  function Base(c: Taps, a: nat, v0: nat, r: Course): int { StartOfTries(v0, a, r.s) * c.Period() }

  /** The first setting passes, and the one before it does not. */
  ghost predicate FirstOpens(c: Taps, eye: int -> bool, base: int, s: Setting) {
    eye(base + Delay(c, s)) && !eye(base + Delay(c, s) - Step(c, s))
  }

  lemma NotAtOnce(c: Taps, eye: int -> bool, v: nat, s: Setting)
    requires !eye(v * c.Period() + c.opa) && eye(v * c.Period() + Delay(c, s)) && s.p >= 1
    ensures s.d > 0 || s.p > 1 || s.i > 0
  {
    assert Delay(c, Setting(0, 0, 1)) == c.opa;
  }

  lemma FirstAfterFail(c: Taps, answers: nat -> bool, eye: int -> bool, a: nat, v0: nat, k: nat, s: nat, first: Setting)
    requires c.Valid() && GoesRound(c, eye) && SecondFail(answers, a, k, s) && FirstAt(c, answers, s, first)
    requires Sees(c, answers, eye, a, s, VfifoSteps(v0, 1, 0))
    requires Sees(c, answers, eye, s, ReadsTo(c, s, first), Tries(c, StartOfTries(v0, a, s), 0))
    ensures FirstOpens(c, eye, StartOfTries(v0, a, s) * c.Period(), first)
    ensures first.d > 0 || first.p > 1 || first.i > 0
  {
    var v := StartOfTries(v0, a, s);
    StartFails(c, answers, eye, a, v0, k, s);
    FirstPasses(c, answers, eye, s, v, first);
    NotAtOnce(c, eye, v, first);
  }

  /** The first setting is the first pass after a fail. */
  lemma FirstEdge(c: Taps, answers: nat -> bool, eye: int -> bool, a: nat, v0: nat, r: Course)
    requires c.Valid() && GoesRound(c, eye) && Starts(c, answers, a, r) && HasFirst(c, answers, r)
    requires Sees(c, answers, eye, a, r.s, VfifoSteps(v0, 1, 0))
    requires Sees(c, answers, eye, r.s, r.w, Tries(c, StartOfTries(v0, a, r.s), 0))
    ensures FirstOpens(c, eye, Base(c, a, v0, r), r.first)
    ensures r.first.d > 0 || r.first.p > 1 || r.first.i > 0
  {
    var k :| SecondFail(answers, a, k, r.s);
    FirstAfterFail(c, answers, eye, a, v0, k, r.s, r.first);
  }

  // --------------------------------------------------------------- The beginning

  /** Delay taps read one after the other, all passing, in a wide eye. */
  lemma {:induction false} SweepIsOpen(c: Taps, answers: nat -> bool, eye: int -> bool,
                                       a: nat, b: nat, v: nat, p: nat, d: nat)
    requires Wide(c, eye) && c.dchain <= c.opa && a < b
    requires Sees(c, answers, eye, a, b, DelaySteps(v, p, d)) && All(answers, a, b, true)
    ensures Open(eye, Total(c, Position(v, p, d)), Total(c, Position(v, p, d)) + (b - a - 1) * c.dchain)
  {
    var t := Total(c, Position(v, p, d));
    TotalOnTap(c, v, p, d, b - a - 1);
    var k: nat := b - 1;
    assert eye(t + (b - a - 1) * c.dchain) by {
      assert answers(k) == eye(Total(c, Nth(DelaySteps(v, p, d), k - a)));
    }
    if b > a + 1 {
      SweepIsOpen(c, answers, eye, a, b - 1, v, p, d);
      Distribute(b - a - 2, 1, c.dchain);
      Widen(c, eye, t, t + (b - a - 2) * c.dchain, t + (b - a - 1) * c.dchain);
    }
  }

  lemma TotalOnTap(c: Taps, v: nat, p: nat, d: nat, n: nat)
    ensures Total(c, Position(v, p, d + n)) == Total(c, Position(v, p, d)) + n * c.dchain
  {
    Distribute(d, n, c.dchain);
  }

  /** A pass at most four phase taps on is in the same stretch. */
  lemma Widen(c: Taps, eye: int -> bool, lo: int, mid: int, hi: int)
    requires Wide(c, eye) && Open(eye, lo, mid) && mid <= hi <= mid + 4 * c.opa && eye(hi)
    ensures Open(eye, lo, hi)
  {
    forall t | lo <= t <= hi ensures eye(t) {
      if t > mid {
        assert eye(mid);
      }
    }
  }

  /** Step 3a, one phase tap before the first setting, whose total delay is x. */
  lemma BeginsAtEdge(c: Taps, answers: nat -> bool, eye: int -> bool, a: nat, b: nat, v: nat, p0: nat,
                     x: int, work: nat, bgn: nat)
    requires c.Valid() && c.Fits() && Begins(c, answers, a, b, p0, work, bgn) && p0 >= 2
    requires Sees(c, answers, eye, a, b, DelaySteps(v, p0 - 1, 0)) && x == Total(c, Position(v, p0, 0))
    requires eye(x) && !eye(x - c.opa)
    ensures work - c.opa < bgn <= work && eye(x - work + bgn) && Shuts(eye, x - work + bgn - c.dchain, x - work + bgn)
  {
    var last: nat := b - 1;
    var n: nat := last - a;
    TotalOnTap(c, v, p0 - 1, 0, n);
    Distribute(p0, -1, c.opa);
    assert Total(c, Position(v, p0 - 1, 0)) == x - c.opa;
    assert answers(last) == eye(Total(c, Nth(DelaySteps(v, p0 - 1, 0), last - a)));
    assert answers(last) == eye(x - c.opa + n * c.dchain);
    if answers(last) {
      assert n > 0;
      Distribute(n - 1, 1, c.dchain);
      TotalOnTap(c, v, p0 - 1, 0, n - 1);
      var k: nat := last - 1;
      assert answers(k) == eye(Total(c, Nth(DelaySteps(v, p0 - 1, 0), k - a)));
      assert !eye(x - c.opa + (n - 1) * c.dchain);
    } else {
      Distribute(n, 1, c.dchain);
      assert !eye(x - c.opa + n * c.dchain);
    }
  }

  // --------------------------------------------------------------------- The end

  /** One usable tap on is one phase tap more, or two past tap 0. */
  lemma TotalOfNextTap(c: Taps, x: Position)
    requires c.Valid() && x.p <= c.phaseMax
    ensures Total(c, NextTap(c, x)) == Total(c, x) + (if x.p < c.phaseMax then 1 else 2) * c.opa
  {
    if x.p < c.phaseMax {
      Distribute(x.p, 1, c.opa);
    } else {
      Distribute(x.v, 1, c.Period());
      Distribute(c.phaseMax, 1, c.opa);
    }
  }

  lemma {:induction false} TapIsUsable(c: Taps, x: Position, n: nat)
    requires c.Valid() && 1 <= x.p <= c.phaseMax
    ensures var y := NthTap(c, x, n); x.v <= y.v && 1 <= y.p <= c.phaseMax && y.d == x.d
  {
    if n > 0 {
      TapIsUsable(c, x, n - 1);
    }
  }

  /** The n-th usable tap after x, by its distance. */
  lemma TapAt(c: Taps, x: Position, n: nat, k: nat, p: nat)
    requires c.Valid() && 1 <= x.p <= c.phaseMax && 1 <= p <= c.phaseMax && n == k * c.phaseMax + p - x.p
    ensures NthTap(c, x, n) == Position(x.v + k, p, x.d)
  {
    TapIndex(c, x, n);
    TapIsUsable(c, x, n);
    var y := NthTap(c, x, n);
    QuotientIsDetermined(c.phaseMax, y.v - x.v, y.p, k, p);
  }

  /** The tap before the failing one is where step 5a backs off to, but for a
      round of the VFIFO. */
  lemma TapBeforeFail(c: Taps, x: Position, n: nat, k: nat, p: nat)
    requires c.Valid() && 1 <= x.p <= c.phaseMax && x.d == 0 && 1 <= p <= c.phaseMax
    requires 0 < n == k * c.phaseMax + p - x.p
    ensures var y := NthTap(c, x, n - 1);
            var back := BackedOff(c, x.v + k, p);
            && Total(c, back) == Total(c, y) + (if p == 1 then Round(c) else 0)
            && Total(c, y) == Total(c, Position(x.v + k, p, 0)) - (if p == 1 then 2 else 1) * c.opa
            && NthTap(c, x, n) == Position(x.v + k, p, 0)
  {
    TapAt(c, x, n, k, p);
    TapIsUsable(c, x, n - 1);
    var y := NthTap(c, x, n - 1);
    TotalOfNextTap(c, y);
    if p == 1 {
      Distribute(y.v, c.vfifoSize, c.Period());
    }
  }

  /** Usable taps read one after the other after a pass, all passing, in a wide
      eye. The pass may be up to two phase taps before the tap they start from. */
  lemma {:induction false} TapsAreOpen(c: Taps, answers: nat -> bool, eye: int -> bool,
                                       b: nat, e: nat, x: Position, lo: int)
    requires c.Valid() && Wide(c, eye) && 1 <= x.p <= c.phaseMax && b < e
    requires eye(lo) && lo <= Total(c, x) <= lo + 2 * c.opa
    requires Sees(c, answers, eye, b, e, TapsAfter(c, x, 0)) && All(answers, b, e, true)
    ensures Open(eye, lo, Total(c, NthTap(c, x, e - b)))
  {
    var last: nat := e - 1;
    var y, z := NthTap(c, x, last - b), NthTap(c, x, e - b);
    TapIsUsable(c, x, last - b);
    TotalOfNextTap(c, y);
    assert answers(last) == eye(Total(c, Nth(TapsAfter(c, x, 0), last - b)));
    if e == b + 1 {
      Widen(c, eye, lo, lo, Total(c, z));
    } else {
      TapsAreOpen(c, answers, eye, b, last, x, lo);
      Widen(c, eye, lo, Total(c, y), Total(c, z));
    }
  }

  /** A stretch of the eye comes again n rounds on. */
  lemma OpenAround(c: Taps, eye: int -> bool, lo: int, hi: int, n: nat)
    requires GoesRound(c, eye) && Open(eye, lo + n * Round(c), hi + n * Round(c))
    ensures Open(eye, lo, hi)
  {
    forall t | lo <= t <= hi ensures eye(t) {
      Around(c, eye, t, n);
    }
  }

  /** Step 5 from a passing setting passes there. */
  lemma LastPasses(c: Taps, answers: nat -> bool, eye: int -> bool, a: nat, b: nat, v: nat, p: nat, d0: nat,
                   end0: nat, d: nat, end: nat)
    requires LastsTo(c, answers, a, b, d0, end0, d, end) && d0 <= c.delayMax
    requires Sees(c, answers, eye, a, b, DelaySteps(v, p, d0)) && eye(Total(c, Position(v, p, d0)))
    ensures d > d0
  {
    assert answers(a) == eye(Total(c, Nth(DelaySteps(v, p, d0), a - a)));
  }

  /** It ends with the last pass, and the fail after it if the chain has it. */
  lemma LastIsOpen(c: Taps, answers: nat -> bool, eye: int -> bool, a: nat, b: nat, v: nat, p: nat, d0: nat,
                   end0: nat, d: nat, end: nat, t: int)
    requires Wide(c, eye) && c.dchain <= c.opa && LastsTo(c, answers, a, b, d0, end0, d, end) && d > d0
    requires Sees(c, answers, eye, a, b, DelaySteps(v, p, d0)) && t == Total(c, Position(v, p, d0))
    ensures end == end0 + (d - d0 - 1) * c.dchain && Open(eye, t, t + end - end0)
    ensures d <= c.delayMax ==> !eye(t + end - end0 + c.dchain)
  {
    Distribute(d - d0 - 1, 1, c.dchain);
    SweepIsOpen(c, answers, eye, a, a + (d - d0), v, p, d0);
    TotalOnTap(c, v, p, d0, d - d0);
    var last: nat := if d <= c.delayMax then b - 1 else a;
    assert last < b && answers(last) == eye(Total(c, Nth(DelaySteps(v, p, d0), last - a)));
  }

  /** The same, from a setting whose total delay is n rounds past x. */
  lemma LastIsEdge(c: Taps, answers: nat -> bool, eye: int -> bool, a: nat, b: nat, v: nat, p: nat, d0: nat,
                   end0: nat, d: nat, end: nat, x: int, n: nat)
    requires Wide(c, eye) && GoesRound(c, eye) && c.dchain <= c.opa && LastsTo(c, answers, a, b, d0, end0, d, end)
    requires d0 <= c.delayMax && Sees(c, answers, eye, a, b, DelaySteps(v, p, d0))
    requires Total(c, Position(v, p, d0)) == x + n * Round(c) && eye(x)
    ensures d > d0 && end == end0 + (d - d0 - 1) * c.dchain && Open(eye, x, x + end - end0)
    ensures d <= c.delayMax ==> !eye(x + end - end0 + c.dchain)
  {
    Around(c, eye, x, n);
    LastPasses(c, answers, eye, a, b, v, p, d0, end0, d, end);
    LastIsOpen(c, answers, eye, a, b, v, p, d0, end0, d, end, x + n * Round(c));
    OpenAround(c, eye, x, x + end - end0, n);
    Around(c, eye, x + end - end0 + c.dchain, n);
  }

  /** How far past the last pass of step 5 there is a fail: one delay tap, or one
      phase tap when the delay chain ends before. */
  function Margin(c: Taps, d: nat): nat { if d <= c.delayMax then c.dchain else c.opa }

  lemma ShutsAbove(c: Taps, eye: int -> bool, x: int, d0: nat, end0: nat, d: nat, end: nat, lo: int, t: int)
    requires d > d0 && end == end0 + (d - d0 - 1) * c.dchain && Open(eye, x, x + end - end0) && c.dchain > 0
    requires d <= c.delayMax ==> !eye(x + end - end0 + c.dchain)
    requires d > c.delayMax ==> d == c.delayMax + 1 && c.Fits() && lo == x - d0 * c.dchain && x <= t && !eye(t)
                                && lo + c.opa <= t <= lo + 2 * c.opa
    ensures Shuts(eye, x + end - end0 + 1, x + end - end0 + Margin(c, d) + 1)
  {
    if d > c.delayMax {
      Distribute(d0, c.delayMax - d0, c.dchain);
      assert !(t <= x + end - end0);
    }
  }

  lemma TotalAfter(c: Taps, x: Position, k: nat, p: nat)
    requires x.d == 0
    ensures Total(c, Position(x.v + k, p, 0)) == Total(c, x) + Moved(c, k, p - x.p)
  {
    Distribute(x.v, k, c.Period());
    Distribute(x.p, p - x.p, c.opa);
  }

  /** Step 4a, when the tap it starts from is at most one phase tap past a pass at
      lo, and its first read passes unless it goes round: the tap before the fail,
      and the two totals. */
  lemma PhasesAreOpen(c: Taps, answers: nat -> bool, eye: int -> bool, b: nat, e: nat, x: Position,
                      i: nat, work: nat, k: nat, p1: nat, end0: nat, lo: int)
    requires c.Valid() && Wide(c, eye) && 1 <= x.p <= c.phaseMax && x.d == 0
    requires Ends(c, answers, b, e, i, x.p, work, false, k, p1, end0)
    requires Sees(c, answers, eye, b, e, TapsAfter(c, x, 0))
    requires eye(lo) && lo <= Total(c, x) <= lo + c.opa && (x.p == c.phaseMax ==> lo == Total(c, x))
    ensures var t := Total(c, x) + end0 - work;
            && Open(eye, lo, t) && !eye(t + (if p1 == 1 then 2 else 1) * c.opa)
            && Total(c, BackedOff(c, x.v + k, p1)) == t + (if p1 == 1 then 1 else 0) * Round(c)
  {
    var last: nat := e - 1;
    TapBeforeFail(c, x, e - b, k, p1);
    TotalAfter(c, x, k, p1);
    BackOff(c, k, p1 - x.p, p1);
    assert answers(last) == eye(Total(c, Nth(TapsAfter(c, x, 0), last - b)));
    if last > b {
      TapsAreOpen(c, answers, eye, b, last, x, lo);
    }
  }

  /** Steps 4a and 5. */
  lemma EndsAtEdge(c: Taps, answers: nat -> bool, eye: int -> bool, b: nat, e: nat, z: nat, x: Position,
                   i: nat, work: nat, k: nat, p1: nat, end0: nat, d: nat, end: nat, lo: int)
    requires c.Valid() && c.Fits() && c.dchain <= c.opa && Wide(c, eye) && GoesRound(c, eye)
    requires 1 <= x.p <= c.phaseMax && x.d == 0
    requires Ends(c, answers, b, e, i, x.p, work, false, k, p1, end0)
    requires LastsTo(c, answers, e, z, 0, end0, d, end)
    requires Sees(c, answers, eye, b, e, TapsAfter(c, x, 0))
    requires var y := BackedOff(c, x.v + k, p1); Sees(c, answers, eye, e, z, DelaySteps(y.v, y.p, 0))
    requires eye(lo) && lo <= Total(c, x) <= lo + c.opa && (x.p == c.phaseMax ==> lo == Total(c, x))
    ensures var hi := Total(c, x) + end - work;
            Open(eye, lo, hi) && Shuts(eye, hi + 1, hi + Margin(c, d) + 1)
  {
    var t, y := Total(c, x) + end0 - work, BackedOff(c, x.v + k, p1);
    PhasesAreOpen(c, answers, eye, b, e, x, i, work, k, p1, end0, lo);
    LastIsEdge(c, answers, eye, e, z, y.v, y.p, 0, end0, d, end, t, if p1 == 1 then 1 else 0);
    ShutsAbove(c, eye, t, 0, end0, d, end, t, t + (if p1 == 1 then 2 else 1) * c.opa);
  }

  /** Step 4a, when its first read fails without going round: so does the second,
      and step 5 starts, and stays, at the first. */
  lemma EndsOutside(c: Taps, answers: nat -> bool, eye: int -> bool, b: nat, e: nat, z: nat, x: Position,
                    i: nat, work: nat, k: nat, p1: nat, end0: nat, d: nat, end: nat, lo: int)
    requires c.Valid() && Wide(c, eye) && GoesRound(c, eye) && 1 <= x.p < c.phaseMax && x.d == 0
    requires Ends(c, answers, b, e, i, x.p, work, true, k, p1, end0)
    requires LastsTo(c, answers, e, z, 0, end0, d, end)
    requires Sees(c, answers, eye, b, e, TapsAfter(c, x, 0))
    requires var y := BackedOff(c, x.v + k, p1); Sees(c, answers, eye, e, z, DelaySteps(y.v, y.p, 0))
    requires eye(lo) && lo <= Total(c, x) <= lo + c.opa
    ensures end == work + c.opa && !eye(Total(c, x) + c.opa)
  {
    var y := BackedOff(c, x.v + k, p1);
    var next: nat := b + 1;
    TapBeforeFail(c, x, e - b, k, p1);
    TotalAfter(c, x, k, p1);
    BackOff(c, k, p1 - x.p, p1);
    TotalOfNextTap(c, x);
    TotalOfNextTap(c, NextTap(c, x));
    assert answers(b) == eye(Total(c, Nth(TapsAfter(c, x, 0), b - b)));
    assert NthTap(c, x, 1) == NextTap(c, x) && NthTap(c, x, 2) == NextTap(c, NextTap(c, x));
    assert answers(next) == eye(Total(c, Nth(TapsAfter(c, x, 0), next - b)));
    assert e == b + 2;
    Around(c, eye, Total(c, x) + c.opa, 1);
    if z > e {
      assert answers(e) == eye(Total(c, Nth(DelaySteps(y.v, y.p, 0), e - e)));
    }
  }

  // ------------------------------------------------------------------- The window

  /** Tap sizes for which every step of the search moves by less than a wide eye
      can hide. */
  predicate Fine(c: Taps) { c.Valid() && c.Fits() && c.phaseMax >= 3 && c.dchain <= c.opa }

  /** How much further step 4a is than its count says: from phase tap 1, step 3a
      restores one phase tap too far. */
  function Late(c: Taps, s: Setting): nat { if s.d == 0 && s.p == 1 then c.opa else 0 }

  /** The tap that step 4a tries first is in the same VFIFO step, and fails. */
  ghost predicate Narrow(c: Taps, eye: int -> bool, base: int, s: Setting) {
    s.d == 0 && Restored(c, s.p) < c.phaseMax && !eye(base + Delay(c, s) + Late(c, s) + c.opa)
  }

  /** How far before the beginning there is a fail: one delay tap, or two phase taps
      when the beginning is at phase tap 1 and was not refined. */
  function Before(c: Taps, s: Setting): nat { if s.d == 0 && s.p == 1 then 2 * c.opa else c.dchain }

  /** lo to hi is open, with a fail at most `below` before and `above` after. */
  ghost predicate Brackets(eye: int -> bool, lo: int, hi: int, below: nat, above: nat) {
    Shuts(eye, lo - below, lo) && Open(eye, lo, hi) && Shuts(eye, hi + 1, hi + above + 1)
  }

  /** A setting with delay taps is found when no setting without passed: the tap
      after it failed. */
  lemma NextFails(c: Taps, answers: nat -> bool, eye: int -> bool, a: nat, v: nat, s: Setting)
    returns (t: int)
    requires c.Valid() && GoesRound(c, eye) && FirstAt(c, answers, a, s) && s.d > 0
    requires Sees(c, answers, eye, a, ReadsTo(c, a, s), Tries(c, v, 0))
    ensures var lo := v * c.Period() + Delay(c, s) - s.d * c.dchain;
            !eye(t) && lo + c.opa <= t <= lo + 2 * c.opa
  {
    var lo := v * c.Period() + Delay(c, s) - s.d * c.dchain;
    var next := if s.p < c.phaseMax then Setting(0, s.i, s.p + 1)
                else if s.i + 1 < c.vfifoSize then Setting(0, s.i + 1, 1) else Setting(0, 0, 1);
    NextIsEarlier(c, a, s, next);
    Tried(c, answers, eye, a, ReadsTo(c, a, s), v, next);
    var k: nat := ReadsTo(c, a, next) - 1;
    assert !answers(k);
    t := v * c.Period() + Delay(c, next);
    Distribute(s.p, 1, c.opa);
    Distribute(c.phaseMax, 1, c.opa);
    Distribute(s.i, 1, c.Period());
    if s.p == c.phaseMax && s.i + 1 == c.vfifoSize {
      t := t + Round(c);
      Around(c, eye, v * c.Period() + Delay(c, next), 1);
    }
  }

  lemma NextIsEarlier(c: Taps, a: nat, s: Setting, next: Setting)
    requires c.Valid() && s.d > 0 && s.i < c.vfifoSize && 1 <= s.p
    requires next.d == 0 && next.i < c.vfifoSize && 1 <= next.p <= c.phaseMax
    ensures a < ReadsTo(c, a, next) < ReadsTo(c, a, s)
  {
    AtLeast(s.d, 1, c.vfifoSize);
    InOrder(next.d * c.vfifoSize + next.i, s.d * c.vfifoSize + s.i, c.phaseMax, next.p, s.p);
  }

  lemma InOrder(m: nat, n: nat, x: nat, p: nat, q: nat)
    requires m < n && p <= x && 1 <= q
    ensures m * x + p < n * x + q
  {
    Distribute(m, 1, x);
    AtLeast(n, m + 1, x);
  }

  /** The window when step 2 needed delay taps. */
  lemma DelayWindow(c: Taps, answers: nat -> bool, eye: int -> bool, a: nat, v: nat, s: Setting,
                    z: nat, d: nat, end: nat, n: nat)
    requires Fine(c) && Wide(c, eye) && GoesRound(c, eye) && FirstAt(c, answers, a, s) && s.d > 0
    requires OneLess(c, n) && s.d <= n
    requires Sees(c, answers, eye, a, ReadsTo(c, a, s), Tries(c, v, 0))
    requires Sees(c, answers, eye, ReadsTo(c, a, s), z, DelaySteps(Where(c, v, s).v, s.p, s.d))
    requires LastsTo(c, answers, ReadsTo(c, a, s), z, s.d, Delay(c, s), d, end)
    ensures var base := v * c.Period(); Brackets(eye, base + Delay(c, s), base + end, c.dchain, Margin(c, d))
  {
    var x := v * c.Period() + Delay(c, s);
    FirstPasses(c, answers, eye, a, v, s);
    TotalOfSetting(c, v, s);
    StepFits(c, n);
    LastIsEdge(c, answers, eye, ReadsTo(c, a, s), z, Where(c, v, s).v, s.p, s.d, Delay(c, s), d, end, x, s.d);
    var t := NextFails(c, answers, eye, a, v, s);
    TapsGrow(c, s.d, n);
    ShutsAbove(c, eye, x, s.d, Delay(c, s), d, end, x - s.d * c.dchain, t);
  }

  /** What steps 3 to 5 saw when step 2 needed no delay taps and ended at VFIFO step v. */
  ghost predicate EdgeSees(c: Taps, answers: nat -> bool, eye: int -> bool, a: nat, v: nat, s: Setting, t: Trail) {
    && s.p > 0 && Sees(c, answers, eye, a, t.b, DelaySteps(v, s.p - 1, 0))
    && EndSees(c, answers, eye, t, AfterRestore(c, v, s.p))
  }

  lemma RestoredTotal(c: Taps, v: nat, s: Setting)
    requires c.phaseMax >= 3 && s.d == 0 && 1 <= s.p <= c.phaseMax
    ensures StartsAt(c, s, Total(c, Position(v, s.p, 0)), AfterRestore(c, v, s.p))
  {
    var q := Restored(c, s.p);
    Distribute(s.p, q - s.p, c.opa);
  }

  lemma PhaseBegin(c: Taps, answers: nat -> bool, eye: int -> bool, a: nat, b: nat, v: nat, s: Setting,
                   bgn: nat, x: int)
    requires Fine(c) && Wide(c, eye) && s.d == 0 && 1 <= s.p <= c.phaseMax
    requires Begins(c, answers, a, b, s.p, Delay(c, s), bgn)
    requires Sees(c, answers, eye, a, b, DelaySteps(v, s.p - 1, 0))
    requires x == Total(c, Position(v, s.p, 0)) && eye(x) && !eye(x - Step(c, s))
    ensures var lo := x - Delay(c, s) + bgn; Shuts(eye, lo - Before(c, s), lo) && Open(eye, lo, x)
  {
    if s.p >= 2 {
      BeginsAtEdge(c, answers, eye, a, b, v, s.p, x, Delay(c, s), bgn);
      Widen(c, eye, x - Delay(c, s) + bgn, x - Delay(c, s) + bgn, x);
    }
  }

  /** Where step 4a starts, for a first setting whose total delay is x. */
  ghost predicate StartsAt(c: Taps, s: Setting, x: int, y: Position) {
    && Total(c, y) == x + Late(c, s) && y.d == 0 && 2 <= y.p == Restored(c, s.p) <= c.phaseMax
    && (y.p == c.phaseMax ==> Late(c, s) == 0)
  }

  /** What steps 4a and 5 saw from there. */
  ghost predicate EndSees(c: Taps, answers: nat -> bool, eye: int -> bool, t: Trail, y: Position) {
    var u := BackedOff(c, y.v + t.k, t.p);
    Sees(c, answers, eye, t.b, t.e, TapsAfter(c, y, 0)) && Sees(c, answers, eye, t.e, t.z, DelaySteps(u.v, u.p, 0))
  }

  lemma PhaseEnd(c: Taps, answers: nat -> bool, eye: int -> bool, s: Setting, t: Trail, end: nat, x: int, y: Position)
    requires Fine(c) && Wide(c, eye) && GoesRound(c, eye) && StartsAt(c, s, x, y)
    requires Ends(c, answers, t.b, t.e, s.i, y.p, Delay(c, s), false, t.k, t.p, t.end)
    requires LastsTo(c, answers, t.e, t.z, 0, t.end, t.d, end)
    requires eye(x) && EndSees(c, answers, eye, t, y)
    ensures var hi := x - Delay(c, s) + end + Late(c, s);
            Open(eye, x, hi) && Shuts(eye, hi + 1, hi + Margin(c, t.d) + 1)
  {
    EndsAtEdge(c, answers, eye, t.b, t.e, t.z, y, s.i, Delay(c, s), t.k, t.p, t.end, t.d, end, x);
  }

  /** The window when step 2 needed no delay taps: x is the total delay of the first
      setting. */
  lemma PhaseWindow(c: Taps, answers: nat -> bool, eye: int -> bool, a: nat, v: nat, s: Setting,
                    t: Trail, bgn: nat, end: nat, x: int)
    requires Fine(c) && Wide(c, eye) && GoesRound(c, eye)
    requires s.d == 0 && 1 <= s.p <= c.phaseMax && WindowOf(c, answers, a, s, t, bgn, end) && !t.moved
    requires x == Total(c, Position(v, s.p, 0)) && eye(x) && !eye(x - Step(c, s))
    requires EdgeSees(c, answers, eye, a, v, s, t)
    ensures var base := x - Delay(c, s);
            Brackets(eye, base + bgn, base + end + Late(c, s), Before(c, s), Margin(c, t.d))
  {
    PhaseBegin(c, answers, eye, a, t.b, v, s, bgn, x);
    RestoredTotal(c, v, s);
    PhaseEnd(c, answers, eye, s, t, end, x, AfterRestore(c, v, s.p));
  }

  /** The first read of step 4a decides whether the eye is narrow. */
  lemma MovedIsNarrow(c: Taps, answers: nat -> bool, eye: int -> bool, a: nat, v: nat, s: Setting,
                      t: Trail, bgn: nat, end: nat, x: int)
    requires Fine(c) && s.d == 0 && 1 <= s.p <= c.phaseMax && WindowOf(c, answers, a, s, t, bgn, end)
    requires x == Total(c, Position(v, s.p, 0)) && EdgeSees(c, answers, eye, a, v, s, t)
    ensures t.moved <==> Narrow(c, eye, x - Delay(c, s), s)
  {
    var y := AfterRestore(c, v, s.p);
    RestoredTotal(c, v, s);
    TotalOfNextTap(c, y);
    assert NthTap(c, y, 1) == NextTap(c, y);
    assert answers(t.b) == eye(Total(c, Nth(TapsAfter(c, y, 0), t.b - t.b)));
  }

  lemma NarrowEnd(c: Taps, answers: nat -> bool, eye: int -> bool, s: Setting, t: Trail, end: nat, x: int, y: Position)
    requires Fine(c) && Wide(c, eye) && GoesRound(c, eye) && StartsAt(c, s, x, y)
    requires Ends(c, answers, t.b, t.e, s.i, y.p, Delay(c, s), true, t.k, t.p, t.end)
    requires LastsTo(c, answers, t.e, t.z, 0, t.end, t.d, end)
    requires eye(x) && EndSees(c, answers, eye, t, y)
    ensures end == Delay(c, s) + c.opa && !eye(x + Late(c, s) + c.opa)
  {
    EndsOutside(c, answers, eye, t.b, t.e, t.z, y, s.i, Delay(c, s), t.k, t.p, t.end, t.d, end, x);
  }

  /** The window when the first tap of step 4a fails: an empty one outside the eye. */
  lemma NarrowWindow(c: Taps, answers: nat -> bool, eye: int -> bool, a: nat, v: nat, s: Setting,
                     t: Trail, bgn: nat, end: nat, x: int)
    requires Fine(c) && Wide(c, eye) && GoesRound(c, eye)
    requires s.d == 0 && 1 <= s.p <= c.phaseMax && WindowOf(c, answers, a, s, t, bgn, end) && t.moved
    requires x == Total(c, Position(v, s.p, 0)) && eye(x)
    requires EdgeSees(c, answers, eye, a, v, s, t)
    ensures bgn == end == Delay(c, s) + c.opa && !eye(x + Late(c, s) + c.opa)
  {
    RestoredTotal(c, v, s);
    NarrowEnd(c, answers, eye, s, t, end, x, AfterRestore(c, v, s.p));
  }

  /** Where the reads of steps 1 and 2 were made. */
  lemma FirstLegs(c: Taps, answers: nat -> bool, at: seq<Position>, eye: int -> bool, a: nat, z: nat,
                  v0: nat, r: Course, phase: nat, delay: nat)
    requires Steady(c, answers, at, a, z, eye) && ReadsAt(c, at, a, z, v0, r, phase, delay) && a <= r.s <= r.w <= z
    ensures Sees(c, answers, eye, a, r.s, VfifoSteps(v0, 1, 0))
    ensures Sees(c, answers, eye, r.s, r.w, Tries(c, StartOfTries(v0, a, r.s), 0))
  {
    SteadySees(c, answers, at, a, z, eye, a, r.s, VfifoSteps(v0, 1, 0));
    SteadySees(c, answers, at, a, z, eye, r.s, r.w, Tries(c, StartOfTries(v0, a, r.s), 0));
  }

  /** Where those of steps 3 to 5 were made, when step 2 needed no delay taps. */
  lemma EdgeLegs(c: Taps, answers: nat -> bool, at: seq<Position>, eye: int -> bool, a: nat, z: nat,
                 w: nat, x: nat, v: nat, s: Setting, t: Trail)
    requires Steady(c, answers, at, a, z, eye) && EdgeReads(c, at, w, x, v, s, t) && s.d == 0
    requires a <= w <= t.b <= t.e <= x <= z && t.z <= x
    ensures EdgeSees(c, answers, eye, w, v, s, t)
  {
    var y := BackedOff(c, AfterRestore(c, v, s.p).v + t.k, t.p);
    SteadySees(c, answers, at, a, z, eye, w, t.b, DelaySteps(v, s.p - 1, 0));
    SteadySees(c, answers, at, a, z, eye, t.b, t.e, TapsAfter(c, AfterRestore(c, v, s.p), 0));
    SteadySees(c, answers, at, a, z, eye, t.e, x, DelaySteps(y.v, y.p, 0));
  }

  /** Where step 2 ended. */
  function Found(c: Taps, a: nat, v0: nat, r: Course): nat { Where(c, StartOfTries(v0, a, r.s), r.first).v }

  /** What steps 3 to 5 saw. */
  ghost predicate WindowSees(c: Taps, answers: nat -> bool, eye: int -> bool, a: nat, v0: nat, r: Course) {
    if r.first.d > 0 then
      Sees(c, answers, eye, r.w, r.trail.z, DelaySteps(Found(c, a, v0, r), r.first.p, r.first.d))
    else EdgeSees(c, answers, eye, r.w, Found(c, a, v0, r), r.first, r.trail)
  }

  lemma WindowLegs(c: Taps, answers: nat -> bool, at: seq<Position>, eye: int -> bool, a: nat, z: nat,
                   v0: nat, r: Course, phase: nat, delay: nat)
    requires a <= r.w && HasWindow(c, answers, r) && r.x <= z
    requires Steady(c, answers, at, a, z, eye) && ReadsAt(c, at, a, z, v0, r, phase, delay)
    ensures WindowSees(c, answers, eye, a, v0, r)
  {
    if r.first.d > 0 {
      SteadySees(c, answers, at, a, z, eye, r.w, r.x, DelaySteps(Found(c, a, v0, r), r.first.p, r.first.d));
    } else {
      EdgeLegs(c, answers, at, eye, a, z, r.w, r.x, Found(c, a, v0, r), r.first, r.trail);
    }
  }

  /** What the search takes for the window, as total delays. A narrow eye is missed:
      the window is the single delay of the tap that failed. Otherwise the window is open, and ends
      within a tap of a fail on either side. */
  ghost predicate TakesTheEye(c: Taps, eye: int -> bool, base: int, s: Setting, bgn: nat, end: nat, d: nat) {
    var late := Late(c, s);
    if Narrow(c, eye, base, s) then bgn == end == Delay(c, s) + c.opa && !eye(base + end + late)
    else Brackets(eye, base + bgn, base + end + late, Before(c, s), Margin(c, d))
  }

  lemma PhaseTakes(c: Taps, answers: nat -> bool, eye: int -> bool, a: nat, v: nat, s: Setting,
                   t: Trail, bgn: nat, end: nat, base: int)
    requires Fine(c) && Wide(c, eye) && GoesRound(c, eye)
    requires s.d == 0 && 1 <= s.p <= c.phaseMax && WindowOf(c, answers, a, s, t, bgn, end)
    requires base + Delay(c, s) == Total(c, Position(v, s.p, 0))
    requires FirstOpens(c, eye, base, s)
    requires EdgeSees(c, answers, eye, a, v, s, t)
    ensures TakesTheEye(c, eye, base, s, bgn, end, t.d)
  {
    var x := base + Delay(c, s);
    MovedIsNarrow(c, answers, eye, a, v, s, t, bgn, end, x);
    if t.moved {
      NarrowWindow(c, answers, eye, a, v, s, t, bgn, end, x);
    } else {
      PhaseWindow(c, answers, eye, a, v, s, t, bgn, end, x);
    }
  }

  lemma FoundTotal(c: Taps, a: nat, v0: nat, r: Course)
    requires r.first.d == 0
    ensures Total(c, Position(Found(c, a, v0, r), r.first.p, 0)) == Base(c, a, v0, r) + Delay(c, r.first)
  {
    TotalOfSetting(c, StartOfTries(v0, a, r.s), r.first);
  }

  lemma PhaseCourse(c: Taps, answers: nat -> bool, eye: int -> bool, a: nat, v0: nat, r: Course)
    requires Fine(c) && Wide(c, eye) && GoesRound(c, eye) && r.first.d == 0 && 1 <= r.first.p <= c.phaseMax
    requires HasWindow(c, answers, r) && EdgeSees(c, answers, eye, r.w, Found(c, a, v0, r), r.first, r.trail)
    requires FirstOpens(c, eye, Base(c, a, v0, r), r.first)
    ensures TakesTheEye(c, eye, Base(c, a, v0, r), r.first, r.bgn, r.end, r.trail.d)
  {
    FoundTotal(c, a, v0, r);
    PhaseTakes(c, answers, eye, r.w, Found(c, a, v0, r), r.first, r.trail, r.bgn, r.end, Base(c, a, v0, r));
  }

  lemma DelayCourse(c: Taps, answers: nat -> bool, eye: int -> bool, a: nat, v0: nat, r: Course)
    requires Fine(c) && Wide(c, eye) && GoesRound(c, eye) && r.first.d > 0 && OneLess(c, r.n)
    requires HasFirst(c, answers, r) && HasWindow(c, answers, r)
    requires Sees(c, answers, eye, r.s, r.w, Tries(c, StartOfTries(v0, a, r.s), 0))
    requires Sees(c, answers, eye, r.w, r.trail.z, DelaySteps(Found(c, a, v0, r), r.first.p, r.first.d))
    ensures TakesTheEye(c, eye, Base(c, a, v0, r), r.first, r.bgn, r.end, r.trail.d)
  {
    DelayWindow(c, answers, eye, r.s, StartOfTries(v0, a, r.s), r.first, r.trail.z, r.trail.d, r.end, r.n);
  }

  lemma WindowIsTheEye(c: Taps, answers: nat -> bool, at: seq<Position>, eye: int -> bool, a: nat, z: nat,
                       v0: nat, r: Course, phase: nat, delay: nat)
    requires Fine(c) && Wide(c, eye) && GoesRound(c, eye)
    requires Starts(c, answers, a, r) && HasFirst(c, answers, r) && HasWindow(c, answers, r) && r.x <= z
    requires Steady(c, answers, at, a, z, eye) && ReadsAt(c, at, a, z, v0, r, phase, delay)
    ensures TakesTheEye(c, eye, Base(c, a, v0, r), r.first, r.bgn, r.end, r.trail.d)
    ensures FirstOpens(c, eye, Base(c, a, v0, r), r.first)
  {
    CourseInOrder(c, answers, a, r);
    FirstLegs(c, answers, at, eye, a, z, v0, r, phase, delay);
    FirstEdge(c, answers, eye, a, v0, r);
    WindowLegs(c, answers, at, eye, a, z, v0, r, phase, delay);
    if r.first.d > 0 {
      DelayCourse(c, answers, eye, a, v0, r);
    } else {
      PhaseCourse(c, answers, eye, a, v0, r);
    }
  }

  lemma CourseInOrder(c: Taps, answers: nat -> bool, a: nat, r: Course)
    requires Starts(c, answers, a, r) && HasFirst(c, answers, r)
    ensures a < r.s < r.w
    ensures HasWindow(c, answers, r) ==> r.w <= r.x
  {
  }
}
