/** The contract of the DQS enable search leaves no choice: the answers of the
    read tests determine whether it succeeds and the final registers. */
module DqsOutcome {
  import opened DqsSpec

  lemma BeginIsDetermined(c: Taps, answers: nat -> bool, a: nat, p0: nat, work: nat,
                          b: nat, bgn: nat, b': nat, bgn': nat)
    requires Begins(c, answers, a, b, p0, work, bgn) && Begins(c, answers, a, b', p0, work, bgn')
    ensures b == b' && bgn == bgn'
  {
    if p0 != 1 {
      if b < b' {
        TapsGrow(c, b - a, b' - a - 1);
      } else if b' < b {
        TapsGrow(c, b' - a, b - a - 1);
      }
    }
  }

  lemma QuotientIsDetermined(n: nat, k: nat, p: nat, k': nat, p': nat)
    requires 1 <= p <= n && 1 <= p' <= n && k * n + p == k' * n + p'
    ensures k == k' && p == p'
  {
    if k < k' {
      Distribute(k, k' - k, n);
      AtLeast(k' - k, 1, n);
    } else if k' < k {
      Distribute(k', k - k', n);
      AtLeast(k - k', 1, n);
    }
  }

  lemma EndIsDetermined(c: Taps, answers: nat -> bool, b: nat, i: nat, q: nat, work: nat,
                        e: nat, moved: bool, k: nat, p: nat, end: nat,
                        e': nat, moved': bool, k': nat, p': nat, end': nat)
    requires Ends(c, answers, b, e, i, q, work, moved, k, p, end)
    requires Ends(c, answers, b, e', i, q, work, moved', k', p', end')
    ensures e == e' && moved == moved' && k == k' && p == p' && end == end'
  {
    QuotientIsDetermined(c.phaseMax, k, p, k', p');
  }

  lemma LastIsDetermined(c: Taps, answers: nat -> bool, a: nat, d0: nat, end0: nat,
                         b: nat, d: nat, end: nat, b': nat, d': nat, end': nat)
    requires LastsTo(c, answers, a, b, d0, end0, d, end) && LastsTo(c, answers, a, b', d0, end0, d', end')
    ensures b == b' && d == d' && end == end'
  {
  }

  /** The answers leave no choice: one window, whichever way it is explained. */
  lemma WindowIsDetermined(c: Taps, answers: nat -> bool, a: nat, first: Setting,
                           t: Trail, bgn: nat, end: nat, t': Trail, bgn': nat, end': nat)
    requires WindowOf(c, answers, a, first, t, bgn, end) && WindowOf(c, answers, a, first, t', bgn', end')
    ensures bgn == bgn' && end == end' && t.d == t'.d && t.z == t'.z
    ensures first.d == 0 ==> t.b == t'.b && t.e == t'.e && t.k == t'.k && t.p == t'.p
  {
    if first.d > 0 {
      LastIsDetermined(c, answers, a, first.d, Delay(c, first), t.z, t.d, end, t'.z, t'.d, end');
    } else {
      BeginIsDetermined(c, answers, a, first.p, Delay(c, first), t.b, t.bgn, t'.b, t'.bgn);
      EndIsDetermined(c, answers, t.b, first.i, Restored(c, first.p), Delay(c, first),
                      t.e, t.moved, t.k, t.p, t.end, t'.e, t'.moved, t'.k, t'.p, t'.end);
      LastIsDetermined(c, answers, t.e, 0, t.end, t.z, t.d, end, t'.z, t'.d, end');
    }
  }

  lemma SecondFailIsDetermined(answers: nat -> bool, a: nat, k: nat, b: nat, k': nat, b': nat)
    requires SecondFail(answers, a, k, b) && SecondFail(answers, a, k', b')
    ensures b == b'
  {
  }

  lemma FirstIsDetermined(c: Taps, answers: nat -> bool, a: nat, s: Setting, s': Setting)
    requires FirstAt(c, answers, a, s) && FirstAt(c, answers, a, s')
    ensures s == s'
  {
    assert ReadsTo(c, a, s) == ReadsTo(c, a, s');
    QuotientIsDetermined(c.phaseMax, s.d * c.vfifoSize + s.i, s.p, s'.d * c.vfifoSize + s'.i, s'.p);
    QuotientIsDetermined(c.vfifoSize, s.d, s.i + 1, s'.d, s'.i + 1);
  }

  lemma MiddleIsDetermined(c: Taps, x: nat, m: nat, m': nat)
    requires IsReduced(c, x, m) && IsReduced(c, x, m')
    ensures m == m'
  {
    var k: nat :| x == m + k * c.Period();
    var k': nat :| x == m' + k' * c.Period();
    QuotientIsDetermined(c.Period(), k, m, k', m');
  }

  lemma PlaceIsDetermined(c: Taps, m: nat, phase: nat, delay: nat, phase': nat, delay': nat)
    requires IsPlaced(c, m, phase, delay) && IsPlaced(c, m, phase', delay')
    ensures phase == phase' && delay == delay'
  {
    if m > c.opa {
      Distribute(phase, 1, c.opa);
      Distribute(phase', 1, c.opa);
      QuotientIsDetermined(c.opa, phase, m - phase * c.opa, phase', m - phase' * c.opa);
      var y := m - phase * c.opa;
      QuotientIsDetermined(c.dchain, delay, y + c.dchain - delay * c.dchain, delay', y + c.dchain - delay' * c.dchain);
    }
  }

  lemma EdgeIsDetermined(answers: nat -> bool, a: nat, b: nat, e: nat, b': nat, e': nat)
    requires ReadEdge(answers, a, e, b) && ReadEdge(answers, a, e', b')
    ensures b == b'
  {
    assert answers(e) && answers(e');
  }

  lemma EdgeExcludesNoEdge(answers: nat -> bool, a: nat, b: nat, e: nat, b': nat, e': nat)
    requires ReadEdge(answers, a, e, b) && b <= b'
    ensures !NoEdge(answers, a, e', b')
  {
    assert answers(e) && !answers(b - 1);
  }

  lemma OneLessIsDetermined(c: Taps, dtaps: nat, dtaps': nat)
    requires OneLess(c, dtaps) && OneLess(c, dtaps')
    ensures dtaps == dtaps'
  {
    Distribute(dtaps, 1, c.dchain);
    Distribute(dtaps', 1, c.dchain);
    QuotientIsDetermined(c.dchain, dtaps, c.opa - dtaps * c.dchain, dtaps', c.opa - dtaps' * c.dchain);
  }

  lemma MeasureIsDetermined(c: Taps, answers: nat -> bool, a: nat, d0: nat,
                            b: nat, e: nat, dtaps: nat, b': nat, e': nat, dtaps': nat)
    requires Measured(c, answers, a, b, e, d0, dtaps) && Measured(c, answers, a, b', e', d0, dtaps')
    ensures dtaps == dtaps' && b == b'
  {
    if ReadEdge(answers, a, e, b) {
      if ReadEdge(answers, a, e', b') {
        EdgeIsDetermined(answers, a, b, e, b', e');
      } else {
        EdgeExcludesNoEdge(answers, a, b, e, b', e');
      }
    } else {
      if ReadEdge(answers, a, e', b') {
        EdgeExcludesNoEdge(answers, a, b', e', b, e);
      } else {
        OneLessIsDetermined(c, dtaps, dtaps');
      }
    }
  }

  lemma StartIsDetermined(c: Taps, answers: nat -> bool, a: nat, r: Course, r': Course)
    requires Starts(c, answers, a, r) && Starts(c, answers, a, r')
    ensures r.s == r'.s && r.n == r'.n
  {
    var k :| SecondFail(answers, a, k, r.s);
    var k' :| SecondFail(answers, a, k', r'.s);
    SecondFailIsDetermined(answers, a, k, r.s, k', r'.s);
    OneLessIsDetermined(c, r.n, r'.n);
  }

  /** Two courses with a window have the same window, and step 5 ends alike, at
      the same place. */
  lemma CourseIsDetermined(c: Taps, answers: nat -> bool, a: nat, r: Course, r': Course)
    requires Starts(c, answers, a, r) && HasFirst(c, answers, r) && HasWindow(c, answers, r)
    requires Starts(c, answers, a, r') && HasFirst(c, answers, r') && HasWindow(c, answers, r')
    ensures r.bgn == r'.bgn && r.end == r'.end && r.trail.d == r'.trail.d && r.trail.z == r'.trail.z
    ensures r.s == r'.s && r.first == r'.first && r.w == r'.w && r.x == r'.x
    ensures r.first.d == 0 ==> r.trail.b == r'.trail.b && r.trail.e == r'.trail.e
    ensures forall v: nat :: EdgeOf(c, a, v, r) == EdgeOf(c, a, v, r')
    ensures forall v: nat :: TrackingOf(c, a, v, r) == TrackingOf(c, a, v, r')
  {
    StartIsDetermined(c, answers, a, r, r');
    FirstIsDetermined(c, answers, r.s, r.first, r'.first);
    WindowIsDetermined(c, answers, r.w, r.first,
                       r.trail, r.bgn, r.end, r'.trail, r'.bgn, r'.end);
  }

  lemma TrackingIsDetermined(c: Taps, answers: nat -> bool, r: Course, dtaps: nat, r': Course, dtaps': nat)
    requires HasMeasure(c, answers, r, dtaps) && HasMeasure(c, answers, r', dtaps')
    requires r.trail.d == r'.trail.d && r.trail.z == r'.trail.z
    ensures dtaps == dtaps' && r.y == r'.y
  {
    var e: nat :| Measured(c, answers, r.trail.z, r.y, e, r.trail.d, dtaps);
    var e': nat :| Measured(c, answers, r'.trail.z, r'.y, e', r'.trail.d, dtaps');
    MeasureIsDetermined(c, answers, r.trail.z, r.trail.d, r.y, e, dtaps, r'.y, e', dtaps');
  }

  /** Two successes that the same answers explain, from the same VFIFO step v0,
      made the same number of reads and end with the same measured taps, the same
      VFIFO step, the same phase and the same delay, for all tap sizes and all
      streams of answers. */
  lemma RegistersAreDetermined(c: Taps, answers: nat -> bool, a: nat, v0: nat,
                               z: nat, r: Course, dtaps: nat, v: nat, phase: nat, delay: nat,
                               z': nat, r': Course, dtaps': nat, v': nat, phase': nat, delay': nat)
    requires Explains(c, answers, a, z, v0, r, dtaps, v, phase, delay)
    requires Explains(c, answers, a, z', v0, r', dtaps', v', phase', delay')
    ensures z == z' && dtaps == dtaps' && v == v' && phase == phase' && delay == delay'
  {
    CourseIsDetermined(c, answers, a, r, r');
    TrackingIsDetermined(c, answers, r, dtaps, r', dtaps');
    MiddleIsDetermined(c, (r.bgn + r.end) / 2, r.m, r'.m);
    PlaceIsDetermined(c, r.m, phase, delay, phase', delay');
    LastReadIsDetermined(answers, r.y, z, z');
  }

  lemma LastReadIsDetermined(answers: nat -> bool, y: nat, z: nat, z': nat)
    requires y < z && All(answers, y, z - 1, false) && answers(z - 1)
    requires y < z' && All(answers, y, z' - 1, false) && answers(z' - 1)
    ensures z == z'
  {
  }

  lemma TwoFailsAreNotOne(answers: nat -> bool, a: nat, k: nat, b: nat, j: nat, z: nat)
    requires SecondFail(answers, a, k, b) && b <= z
    ensures !OneFail(answers, a, j, z)
  {
    assert !answers(k) && !answers(b - 1);
  }

  lemma FirstExcludesNoFirst(c: Taps, answers: nat -> bool, a: nat, s: Setting, n: nat, z: nat)
    requires FirstAt(c, answers, a, s) && s.d <= n
    ensures !NoFirst(c, answers, a, n, z)
  {
    SettingsInOrder(c, a, s, n);
  }

  /** The settings of step 2 are tried one after the other. */
  lemma SettingsInOrder(c: Taps, a: nat, s: Setting, n: nat)
    requires s.i < c.vfifoSize && s.p <= c.phaseMax && s.d <= n
    ensures ReadsTo(c, a, s) <= a + (n + 1) * c.vfifoSize * c.phaseMax
  {
    var rounds, all := s.d * c.vfifoSize + s.i, (n + 1) * c.vfifoSize;
    Distribute(s.d, 1, c.vfifoSize);
    AtLeast(n + 1, s.d + 1, c.vfifoSize);
    assert rounds + 1 <= all;
    Distribute(rounds, 1, c.phaseMax);
    AtLeast(all, rounds + 1, c.phaseMax);
  }

  lemma EndExcludesExhausted(c: Taps, answers: nat -> bool, b: nat, e: nat, i: nat, q: nat, work: nat,
                             moved: bool, k: nat, p1: nat, end: nat, z: nat, moved': bool)
    requires Ends(c, answers, b, e, i, q, work, moved, k, p1, end)
    ensures !Exhausted(c, answers, b, z, i, q, moved')
  {
    var rounds := Rounds(c, i, q);
    Distribute(k, 1, c.phaseMax);
    AtLeast(rounds, k + 1, c.phaseMax);
    assert e - b <= rounds * c.phaseMax - q;
    assert !answers(e - 1);
  }

  lemma WindowExcludesNoEnd(c: Taps, answers: nat -> bool, a: nat, first: Setting, t: Trail, bgn: nat, end: nat,
                            t': Trail, z: nat)
    requires WindowOf(c, answers, a, first, t, bgn, end) && first.d == 0
    ensures !NoEnd(c, answers, a, first.i, first.p, Delay(c, first), t', z)
  {
    if Begins(c, answers, a, t'.b, first.p, Delay(c, first), t'.bgn) {
      BeginIsDetermined(c, answers, a, first.p, Delay(c, first), t.b, t.bgn, t'.b, t'.bgn);
      EndExcludesExhausted(c, answers, t.b, t.e, first.i, Restored(c, first.p), Delay(c, first),
                           t.moved, t.k, t.p, t.end, z, t'.moved);
    }
  }

  /** Answers with a window leave steps 1 to 5 no reason to give up. */
  lemma WindowExcludesNoWindow(c: Taps, answers: nat -> bool, a: nat, r: Course, z: nat, r': Course)
    requires Starts(c, answers, a, r) && HasFirst(c, answers, r) && HasWindow(c, answers, r)
    ensures !NoWindow(c, answers, a, z, r')
  {
    var k :| SecondFail(answers, a, k, r.s);
    var all := a + c.vfifoSize;
    forall j: nat ensures !OneFail(answers, a, j, all) {
      TwoFailsAreNotOne(answers, a, k, r.s, j, all);
    }
    if Starts(c, answers, a, r') {
      StartIsDetermined(c, answers, a, r, r');
      FirstExcludesNoFirst(c, answers, r.s, r.first, r.n, z);
      if HasFirst(c, answers, r') && r'.first.d == 0 {
        FirstIsDetermined(c, answers, r.s, r.first, r'.first);
        WindowExcludesNoEnd(c, answers, r.w, r.first, r.trail, r.bgn, r.end, r'.trail, z);
      }
    }
  }

  /** The same answers never explain both a success and a failure. */
  lemma VerdictIsDetermined(c: Taps, answers: nat -> bool, a: nat,
                            z: nat, v0: nat, r: Course, dtaps: nat, v: nat, phase: nat, delay: nat,
                            z': nat, r': Course, dtaps': nat, phase': nat, delay': nat)
    requires Explains(c, answers, a, z, v0, r, dtaps, v, phase, delay)
    ensures !GivesUp(c, answers, a, z', r', dtaps', phase', delay')
  {
    WindowExcludesNoWindow(c, answers, a, r, z', r');
    if Starts(c, answers, a, r') && HasFirst(c, answers, r') && HasWindow(c, answers, r') {
      CourseIsDetermined(c, answers, a, r, r');
      if HasMeasure(c, answers, r', dtaps') {
        TrackingIsDetermined(c, answers, r, dtaps, r', dtaps');
      }
    }
  }

  /** A search whose answers explain one success ends in that success. */
  lemma OutcomeIsDetermined(c: Taps, answers: nat -> bool, a: nat, v0: nat,
                            z: nat, r: Course, dtaps: nat, v: nat, phase: nat, delay: nat,
                            found: bool, z': nat, r': Course, dtaps': nat, v': nat, phase': nat, delay': nat)
    requires Explains(c, answers, a, z, v0, r, dtaps, v, phase, delay)
    requires found ==> Explains(c, answers, a, z', v0, r', dtaps', v', phase', delay')
    requires !found ==> GivesUp(c, answers, a, z', r', dtaps', phase', delay')
    ensures found && z == z' && dtaps == dtaps' && v == v' && phase == phase' && delay == delay'
  {
    VerdictIsDetermined(c, answers, a, z, v0, r, dtaps, v, phase, delay, z', r', dtaps', phase', delay');
    RegistersAreDetermined(c, answers, a, v0, z, r, dtaps, v, phase, delay, z', r', dtaps', v', phase', delay');
  }

  // ------------------------------------------------------------ Where reads are made

  /** Two courses with the same parts made their reads at the same places. */
  lemma ReadsTransfer(c: Taps, at: seq<Position>, a: nat, z: nat, v0: nat, r: Course, r': Course,
                      phase: nat, delay: nat)
    requires ReadsAt(c, at, a, z, v0, r', phase, delay)
    requires r.s == r'.s && r.w == r'.w && r.x == r'.x && r.y == r'.y && r.first == r'.first && r.trail.d == r'.trail.d
    requires r.first.d == 0 ==> r.trail.b == r'.trail.b && r.trail.e == r'.trail.e
    requires EdgeOf(c, a, v0, r) == EdgeOf(c, a, v0, r')
    ensures ReadsAt(c, at, a, z, v0, r, phase, delay)
  {
  }

  /** The reads of a success are those of any course that explains one. */
  lemma SuccessReads(c: Taps, answers: nat -> bool, at: seq<Position>, a: nat, v0: nat,
                     z: nat, r: Course, dtaps: nat, v: nat, phase: nat, delay: nat,
                     z': nat, r': Course, dtaps': nat, v': nat, phase': nat, delay': nat)
    requires Explains(c, answers, a, z, v0, r, dtaps, v, phase, delay)
    requires Explains(c, answers, a, z', v0, r', dtaps', v', phase', delay')
    requires ReadsAt(c, at, a, z', v0, r', phase', delay')
    ensures ReadsAt(c, at, a, z, v0, r, phase, delay)
  {
    CourseIsDetermined(c, answers, a, r, r');
    TrackingIsDetermined(c, answers, r, dtaps, r', dtaps');
    RegistersAreDetermined(c, answers, a, v0, z, r, dtaps, v, phase, delay, z', r', dtaps', v', phase', delay');
    ReadsTransfer(c, at, a, z, v0, r, r', phase, delay);
  }

  /** A window, and no pass at its middle. */
  ghost predicate NoneAtMiddle(c: Taps, answers: nat -> bool, a: nat, z: nat, r: Course,
                               dtaps: nat, phase: nat, delay: nat) {
    && Starts(c, answers, a, r) && HasFirst(c, answers, r) && HasWindow(c, answers, r)
    && r.bgn <= r.end && HasMeasure(c, answers, r, dtaps)
    && IsReduced(c, (r.bgn + r.end) / 2, r.m) && IsPlaced(c, r.m, phase, delay)
    && z == r.y + c.vfifoSize && All(answers, r.y, z, false)
  }

  /** So are those of a failure at the middle of a window. */
  lemma FailureIsDetermined(c: Taps, answers: nat -> bool, a: nat,
                            z: nat, r: Course, dtaps: nat, phase: nat, delay: nat,
                            z': nat, r': Course, dtaps': nat, phase': nat, delay': nat)
    requires NoneAtMiddle(c, answers, a, z, r, dtaps, phase, delay)
    requires GivesUp(c, answers, a, z', r', dtaps', phase', delay')
    ensures NoneAtMiddle(c, answers, a, z', r', dtaps', phase', delay')
    ensures z == z' && dtaps == dtaps' && phase == phase' && delay == delay' && r.y == r'.y
  {
    WindowExcludesNoWindow(c, answers, a, r, z', r');
    CourseIsDetermined(c, answers, a, r, r');
    TrackingIsDetermined(c, answers, r, dtaps, r', dtaps');
    MiddleIsDetermined(c, (r.bgn + r.end) / 2, r.m, r'.m);
    PlaceIsDetermined(c, r.m, phase, delay, phase', delay');
  }

  lemma FailureReads(c: Taps, answers: nat -> bool, at: seq<Position>, a: nat, v0: nat,
                     z: nat, r: Course, dtaps: nat, phase: nat, delay: nat,
                     z': nat, r': Course, dtaps': nat, phase': nat, delay': nat)
    requires NoneAtMiddle(c, answers, a, z, r, dtaps, phase, delay)
    requires GivesUp(c, answers, a, z', r', dtaps', phase', delay')
    requires ReadsAt(c, at, a, z', v0, r', phase', delay')
    ensures ReadsAt(c, at, a, z, v0, r, phase, delay)
  {
    FailureIsDetermined(c, answers, a, z, r, dtaps, phase, delay, z', r', dtaps', phase', delay');
    CourseIsDetermined(c, answers, a, r, r');
    ReadsTransfer(c, at, a, z, v0, r, r', phase, delay);
  }
}
