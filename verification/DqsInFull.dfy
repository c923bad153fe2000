/** What a search for the DQS enable setting did, in terms of its reads: which passed,
    and the total delay at which each was made. Nothing here assumes steady hardware. */
module DqsInFull {
  import opened DqsSpec
  import opened DqsOutcome
  import opened DqsEye

  // ------------------------------------------------------------------ In plain numbers

  lemma OneLessInFull(c: Taps, n: nat)
    requires c.Valid()
    ensures OneLess(c, n) <==> n == (c.opa - 1) / c.dchain
  {
    var q, rest := (c.opa - 1) / c.dchain, (c.opa - 1) % c.dchain;
    assert c.opa - 1 == q * c.dchain + rest;
    Distribute(q, 1, c.dchain);
    if OneLess(c, n) {
      OneLessIsDetermined(c, n, q);
    }
  }

  /** The middle within one VFIFO step, in 1..step. */
  lemma ReducedInFull(c: Taps, x: nat, m: nat)
    requires c.Valid() && IsReduced(c, x, m)
    ensures m == (x - 1) % c.Period() + 1
  {
    var k: nat :| x == m + k * c.Period();
    var q, rest := (x - 1) / c.Period(), (x - 1) % c.Period();
    assert x - 1 == q * c.Period() + rest;
    QuotientIsDetermined(c.Period(), k, m, q, rest + 1);
  }

  /** The registers for it: the phase taps strictly below, and delay taps for the rest,
      rounded up. */
  lemma PlacedInFull(c: Taps, m: nat, phase: nat, delay: nat)
    requires c.Valid() && IsPlaced(c, m, phase, delay)
    ensures m <= c.opa ==> phase == 1 && delay == 0
    ensures m > c.opa ==> phase == (m - 1) / c.opa && delay == (m - phase * c.opa + c.dchain - 1) / c.dchain
  {
    if m > c.opa {
      var q, rest := (m - 1) / c.opa, (m - 1) % c.opa;
      assert m - 1 == q * c.opa + rest;
      Distribute(phase, 1, c.opa);
      QuotientIsDetermined(c.opa, phase, m - phase * c.opa, q, rest + 1);
      DelayInFull(c, m - phase * c.opa, delay);
    }
  }

  lemma DelayInFull(c: Taps, rest: nat, delay: nat)
    requires c.Valid() && rest > 0 && rest <= delay * c.dchain < rest + c.dchain
    ensures delay == (rest + c.dchain - 1) / c.dchain
  {
    var x := rest + c.dchain - 1;
    var q, left := x / c.dchain, x % c.dchain;
    assert x == q * c.dchain + left;
    QuotientIsDetermined(c.dchain, delay, x - delay * c.dchain + 1, q, left + 1);
  }

  // ----------------------------------------------------------------- Steps 1 and 2

  /** Step 1 reads phase tap 1 of one VFIFO step after the other, and exactly the last
      and one other of its reads fail. */
  lemma StartInFull(c: Taps, answers: nat -> bool, at: seq<Position>, a: nat, z: nat, v0: nat, r: Course,
                    phase: nat, delay: nat)
    requires Starts(c, answers, a, r) && ReadsAt(c, at, a, z, v0, r, phase, delay)
    ensures a + 2 <= r.s <= a + c.vfifoSize && r.s <= |at| && !answers(r.s - 1)
    ensures exists k :: a <= k < r.s - 1 && !answers(k) && forall j :: a <= j < r.s - 1 && j != k ==> answers(j)
    ensures forall k :: a <= k < r.s ==> at[k] == Position(v0 + (k - a), 1, 0)
  {
    var k :| SecondFail(answers, a, k, r.s);
    assert forall j :: a <= j < r.s ==> at[j] == Nth(VfifoSteps(v0, 1, 0), j - a);
  }

  /** Step 2 goes on from that VFIFO step. All its reads fail but the last, which is
      made at the first setting. */
  lemma FirstInFull(c: Taps, answers: nat -> bool, at: seq<Position>, a: nat, z: nat, v0: nat, r: Course,
                    phase: nat, delay: nat)
    requires c.Valid() && Starts(c, answers, a, r) && HasFirst(c, answers, r)
    requires ReadsAt(c, at, a, z, v0, r, phase, delay)
    ensures r.s < r.w <= |at| && answers(r.w - 1) && forall k :: r.s <= k < r.w - 1 ==> !answers(k)
    ensures r.first.i < c.vfifoSize && 1 <= r.first.p <= c.phaseMax && r.first.d <= (c.opa - 1) / c.dchain
    ensures at[r.w - 1].p == r.first.p && at[r.w - 1].d == r.first.d
    ensures at[r.w - 1].v == v0 + (r.s - a - 1) + r.first.d * c.vfifoSize + r.first.i
    ensures r.w - r.s == (r.first.d * c.vfifoSize + r.first.i) * c.phaseMax + r.first.p
  {
    var v := StartOfTries(v0, a, r.s);
    var last: nat := r.w - 1;
    CourseInOrder(c, answers, a, r);
    OneLessInFull(c, r.n);
    SettingAt(c, r.first, last - r.s);
    assert at[last] == Nth(Tries(c, v, 0), last - r.s);
  }

  /** The work counter of step 2 is the total delay of the first setting, counted from
      where step 2 started; each delay tap costs step 2 a round of the VFIFO. */
  lemma WorkInFull(c: Taps, answers: nat -> bool, at: seq<Position>, a: nat, z: nat, v0: nat, r: Course,
                   phase: nat, delay: nat)
    requires c.Valid() && Starts(c, answers, a, r) && HasFirst(c, answers, r)
    requires ReadsAt(c, at, a, z, v0, r, phase, delay)
    ensures r.s < r.w <= |at| && at[r.w - 1] == Where(c, StartOfTries(v0, a, r.s), r.first)
    ensures Total(c, at[r.w - 1]) == Base(c, a, v0, r) + Delay(c, r.first) + r.first.d * Round(c)
  {
    var v := StartOfTries(v0, a, r.s);
    var last: nat := r.w - 1;
    CourseInOrder(c, answers, a, r);
    SettingAt(c, r.first, last - r.s);
    assert at[last] == Nth(Tries(c, v, 0), last - r.s);
    TotalOfSetting(c, v, r.first);
  }

  // --------------------------------------------------------------- The beginning

  /** Step 3a reads one phase tap before the first setting, in delay taps from 0 on; all
      its reads fail but perhaps the last. If that passes, the beginning is its total
      delay, and otherwise that of the first setting. */
  lemma BeginInFull(c: Taps, answers: nat -> bool, at: seq<Position>, a: nat, z: nat, v0: nat, r: Course,
                    phase: nat, delay: nat)
    requires c.Valid() && Starts(c, answers, a, r) && HasFirst(c, answers, r) && HasWindow(c, answers, r)
    requires ReadsAt(c, at, a, z, v0, r, phase, delay) && r.first.d == 0
    ensures r.w <= r.trail.b <= |at|
    ensures forall k :: r.w <= k < r.trail.b ==>
              && at[k] == Position(at[r.w - 1].v, r.first.p - 1, k - r.w) && (k < r.trail.b - 1 ==> !answers(k))
    ensures Base(c, a, v0, r) + r.trail.bgn
            == Total(c, at[if r.w < r.trail.b && answers(r.trail.b - 1) then r.trail.b - 1 else r.w - 1])
    ensures r.first.p == 1 ==> r.trail.b == r.w
  {
    var w, t := r.w, r.trail;
    WorkInFull(c, answers, at, a, z, v0, r, phase, delay);
    var u := at[w - 1].v;
    assert forall k :: w <= k < t.b ==> at[k] == Nth(DelaySteps(u, r.first.p - 1, 0), k - w);
    if w < t.b && answers(t.b - 1) {
      TotalOnTap(c, u, r.first.p - 1, 0, t.b - 1 - w);
      Distribute(r.first.p, -1, c.opa);
    }
  }

  // --------------------------------------------------------------------- The end

  /** Steps 4a to 5 without delay taps. The end that is recorded is the total delay of
      the last read of step 5 that passed, or of its only one, but for a round of the
      VFIFO and for the phase tap that step 3a restores too far. */
  lemma EndInFull(c: Taps, answers: nat -> bool, at: seq<Position>, a: nat, z: nat, v0: nat, r: Course,
                  phase: nat, delay: nat)
    requires c.Valid() && c.phaseMax >= 3
    requires Starts(c, answers, a, r) && HasFirst(c, answers, r) && HasWindow(c, answers, r)
    requires ReadsAt(c, at, a, z, v0, r, phase, delay) && r.first.d == 0
    ensures r.trail.b < r.trail.e <= r.x <= |at| && !answers(r.trail.e - 1)
    ensures var last := if r.trail.d == 0 then r.trail.e else r.trail.e + r.trail.d - 1;
            && r.trail.e <= last < r.x && (answers(last) <==> r.trail.d > 0)
            && Base(c, a, v0, r) + r.end + (if r.first.p == 1 then c.opa else 0)
               == Total(c, at[last]) - (if r.trail.p == 1 then Round(c) else 0)
  {
    var t, s := r.trail, r.first;
    WorkInFull(c, answers, at, a, z, v0, r, phase, delay);
    var u := at[r.w - 1].v;
    var y := AfterRestore(c, u, s.p);
    var back := BackedOff(c, y.v + t.k, t.p);
    RestoredTotal(c, u, s);
    BackedOffTotal(c, answers, y, s, t);
    var last: nat := if t.d == 0 then t.e else t.e + t.d - 1;
    assert at[last] == Nth(DelaySteps(back.v, back.p, 0), last - t.e);
    TotalOnTap(c, back.v, back.p, 0, last - t.e);
    Distribute(t.d, -1, c.dchain);
  }

  lemma BackedOffTotal(c: Taps, answers: nat -> bool, y: Position, s: Setting, t: Trail)
    requires c.Valid() && 1 <= y.p <= c.phaseMax && y.d == 0
    requires Ends(c, answers, t.b, t.e, s.i, y.p, Delay(c, s), t.moved, t.k, t.p, t.end)
    ensures Total(c, BackedOff(c, y.v + t.k, t.p))
            == Total(c, y) - Delay(c, s) + t.end + (if t.p == 1 then Round(c) else 0)
  {
    TapBeforeFail(c, y, t.e - t.b, t.k, t.p);
    TotalAfter(c, y, t.k, t.p);
    BackOff(c, t.k, t.p - y.p, t.p);
  }

  /** With delay taps: the window is as long as the total delays of its first setting and
      of the last read of step 5 that passed are apart. */
  lemma DelayEndInFull(c: Taps, answers: nat -> bool, at: seq<Position>, a: nat, z: nat, v0: nat, r: Course,
                       phase: nat, delay: nat)
    requires c.Valid() && Starts(c, answers, a, r) && HasFirst(c, answers, r) && HasWindow(c, answers, r)
    requires ReadsAt(c, at, a, z, v0, r, phase, delay) && r.first.d > 0 && r.trail.d > r.first.d
    ensures var last := r.w + (r.trail.d - r.first.d) - 1;
            && r.w <= last < r.x <= |at| && (forall k :: r.w <= k <= last ==> answers(k))
            && r.end - r.bgn == Total(c, at[last]) - Total(c, at[r.w - 1])
            && (r.trail.d <= c.delayMax ==> r.x == last + 2 && !answers(last + 1))
  {
    var t, s := r.trail, r.first;
    WorkInFull(c, answers, at, a, z, v0, r, phase, delay);
    var u := at[r.w - 1].v;
    var last: nat := r.w + (t.d - s.d) - 1;
    assert at[last] == Nth(DelaySteps(u, s.p, s.d), last - r.w);
    TotalOnTap(c, u, s.p, s.d, last - r.w);
    Distribute(t.d - s.d, -1, c.dchain);
  }

  /** Without a failing edge step 4a reads every usable tap of the rest of its first
      VFIFO step and of all further ones, one more than a round of them; only its very
      first read may fail, and then not from the last tap of a VFIFO step. */
  lemma ExhaustedInFull(c: Taps, answers: nat -> bool, b: nat, z: nat, i: nat, q: nat, moved: bool)
    requires c.Valid() && i < c.vfifoSize && q <= c.phaseMax && Exhausted(c, answers, b, z, i, q, moved)
    ensures z - b == (c.vfifoSize + (if q == c.phaseMax then 2 else 1) - i) * c.phaseMax - q
    ensures forall k :: b < k < z ==> answers(k)
    ensures answers(b) || q < c.phaseMax
  {
  }

  // ---------------------------------------------------------------------- Tracking

  /** Where tracking makes its reads: one after the other in delay taps. */
  lemma TrackingReads(c: Taps, at: seq<Position>, a: nat, z: nat, v0: nat, r: Course, phase: nat, delay: nat,
                      j: nat, k: nat)
    requires ReadsAt(c, at, a, z, v0, r, phase, delay) && r.x <= j <= k < r.y
    ensures k < |at| && at[k].v == at[j].v && at[k].p == at[j].p && at[k].d == at[j].d + (k - j)
    ensures Total(c, at[k]) == Total(c, at[j]) + (k - j) * c.dchain
    ensures at[j].d == r.trail.d + (j - r.x)
  {
    var x := TrackingOf(c, a, v0, r);
    assert at[j] == Nth(DelaySteps(x.v, x.p, r.trail.d), j - r.x);
    assert at[k] == Nth(DelaySteps(x.v, x.p, r.trail.d), k - r.x);
    TotalOnTap(c, x.v, x.p, at[j].d, k - j);
  }

  /** Tracking saw an edge: some read passes and the last one fails. */
  ghost predicate SawEdge(answers: nat -> bool, x: nat, y: nat) {
    x < y && !answers(y - 1) && exists k :: x <= k < y && answers(k)
  }

  /** When tracking saw an edge, the measure is the delay taps from its first read to
      its failing one, reads before the first pass included; the last read before the
      failing one passed. Otherwise it read to the end of the chain, and the measure is
      one less than the delay taps that cover a phase tap. */
  lemma TrackingInFull(c: Taps, answers: nat -> bool, at: seq<Position>, a: nat, z: nat, v0: nat, r: Course,
                       dtaps: nat, phase: nat, delay: nat)
    requires c.Valid() && HasMeasure(c, answers, r, dtaps) && r.x == r.trail.z
    requires ReadsAt(c, at, a, z, v0, r, phase, delay)
    ensures SawEdge(answers, r.x, r.y) ==>
              && r.x + 2 <= r.y <= |at| && r.y == r.x + dtaps + 1 && dtaps <= c.delayMax
              && answers(r.y - 2) && at[r.y - 1].d == at[r.x].d + dtaps
              && Total(c, at[r.y - 1]) == Total(c, at[r.x]) + dtaps * c.dchain
    ensures !SawEdge(answers, r.x, r.y) ==>
              && dtaps == (c.opa - 1) / c.dchain
              && r.x <= r.y && (r.x < r.y ==> r.y <= |at| && at[r.y - 1].d == c.delayMax)
  {
    var e: nat :| Measured(c, answers, r.x, r.y, e, r.trail.d, dtaps);
    if ReadEdge(answers, r.x, e, r.y) {
      TrackingReads(c, at, a, z, v0, r, phase, delay, r.x, r.y - 1);
      assert answers(e);
    } else {
      OneLessInFull(c, dtaps);
      if r.x < r.y {
        TrackingReads(c, at, a, z, v0, r, phase, delay, r.x, r.y - 1);
      }
    }
  }

  // ----------------------------------------------------------------- The last push

  /** The last push reads the final phase and delay in one VFIFO step after the other,
      at most once round. All its reads fail, but for the last of a success, which is
      made at the final VFIFO step. */
  lemma PushInFull(c: Taps, answers: nat -> bool, at: seq<Position>, a: nat, z: nat, v0: nat, r: Course,
                   dtaps: nat, v: nat, phase: nat, delay: nat, found: bool)
    requires if found then Explains(c, answers, a, z, v0, r, dtaps, v, phase, delay)
             else GivesUp(c, answers, a, z, r, dtaps, phase, delay) && !NoWindow(c, answers, a, z, r) && r.bgn <= r.end
    requires ReadsAt(c, at, a, z, v0, r, phase, delay)
    ensures forall k, j :: r.y <= j <= k < z ==>
              && k < |at| && at[k].p == phase && at[k].d == delay && at[k].v == at[j].v + (k - j)
    ensures forall k :: r.y <= k < z ==> (answers(k) <==> found && k == z - 1)
    ensures z - r.y <= c.vfifoSize && (!found ==> z - r.y == c.vfifoSize)
    ensures found ==> r.y < z <= |at| && at[z - 1] == Position(v, phase, delay)
  {
    PlacesOfPush(c, at, a, z, v0, r, phase, delay);
  }

  lemma PlacesOfPush(c: Taps, at: seq<Position>, a: nat, z: nat, v0: nat, r: Course, phase: nat, delay: nat)
    requires ReadsAt(c, at, a, z, v0, r, phase, delay)
    ensures z <= |at|
    ensures forall k :: r.y <= k < z ==> at[k] == Position(TrackingOf(c, a, v0, r).v + (k - r.y), phase, delay)
  {
    var x := TrackingOf(c, a, v0, r);
    assert forall k :: r.y <= k < z ==> at[k] == Nth(VfifoSteps(x.v, phase, delay), k - r.y);
  }
}
