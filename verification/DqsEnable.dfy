/** The search for the DQS enable setting: a phase tap, a delay tap and a number
    of VFIFO steps. The read test is an arbitrary stream of answers, so noisy
    hardware is included. */
module DqsEnable {
  import opened DqsSpec

  class Phy {
    const c: Taps
    const answers: nat -> bool
    var asked: nat
    var phase: nat
    var delay: nat
    var v: nat
    ghost var log: seq<Event>
    /** Where each read was made. */
    ghost var at: seq<Position>

    ghost predicate Valid()
      reads this
    {
      c.Valid() && Safe(c, log) && |at| == asked
    }

    constructor (c: Taps, answers: nat -> bool)
      requires c.Valid()
      ensures Valid() && log == [] && at == [] && this.c == c && this.answers == answers
      ensures asked == v == 0
    {
      this.c, this.answers, asked, phase, delay, v, log, at := c, answers, 0, 0, 0, 0, [], [];
    }

    /** The register takes any value; whether it may is what Safe says. */
    method WritePhase(p: nat)
      requires c.Valid()
      modifies this
      ensures phase == p && unchanged(`delay, `v, `asked, `at)
      ensures log == old(log) + [SetPhase(p)]
      ensures old(Valid()) ==> (Valid() <==> 1 <= p <= c.phaseMax)
    {
      phase, log := p, log + [SetPhase(p)];
      assert log[|log|-1] == SetPhase(p);
    }

    method WriteDelay(d: nat)
      requires c.Valid()
      modifies this
      ensures delay == d && unchanged(`phase, `v, `asked, `at)
      ensures log == old(log) + [SetDelay(d)]
      ensures old(Valid()) ==> (Valid() <==> d <= c.delayMax)
    {
      delay, log := d, log + [SetDelay(d)];
      assert log[|log|-1] == SetDelay(d);
    }

    method Incr()
      requires Valid()
      modifies this
      ensures Valid() && v == old(v) + 1 && unchanged(`phase, `delay, `asked, `at)
      ensures log == old(log) + [IncrVfifo]
    {
      v, log := v + 1, log + [IncrVfifo];
    }

    /** Going back one step means going round: the hardware can only increment. */
    method Decr()
      requires Valid()
      modifies this
      ensures Valid() && v == old(v) + c.vfifoSize - 1 && unchanged(`phase, `delay, `asked, `at)
      ensures old(log) <= log && old(at) <= at
    {
      for i := 0 to c.vfifoSize - 1
        invariant Valid() && v == old(v) + i && unchanged(`phase, `delay, `asked, `at)
        invariant old(log) <= log && old(at) <= at
      {
        Incr();
      }
    }

    method Read() returns (pass: bool)
      requires Valid()
      modifies this
      ensures Valid() && phase == old(phase) && delay == old(delay) && v == old(v)
      ensures pass == answers(old(asked)) && asked == old(asked) + 1
      ensures log == old(log) + [ReadTest(pass)] && at == old(at) + [Position(v, phase, delay)]
    {
      pass := answers(asked);
      asked, log, at := asked + 1, log + [ReadTest(pass)], at + [Position(v, phase, delay)];
    }

    // ----------------------------------------------------------------- The steps

    /** Step 0: one less than the delay taps that cover a phase tap. */
    method DtapsPerPtap() returns (dtaps: nat)
      requires c.Valid()
      ensures OneLess(c, dtaps)
    {
      var n: nat, tmp: nat := 0, 0;
      while tmp < c.opa
        invariant tmp == n * c.dchain && (n > 0 ==> tmp < c.opa + c.dchain)
        decreases c.opa - tmp
      {
        n := n + 1;
        tmp := tmp + c.dchain;
      }
      dtaps := n - 1;
    }

    /** Step 1: push the VFIFO until the read has failed twice. */
    method PushToFailing() returns (ok: bool)
      requires Valid()
      modifies this
      ensures Valid() && old(log) <= log && old(at) <= at && phase == old(phase) && delay == old(delay)
      ensures Visits(at, old(asked), asked, VfifoSteps(old(v), phase, delay))
      ensures ok ==> exists k :: SecondFail(answers, old(asked), k, asked)
      ensures ok ==> v == old(v) + (asked - old(asked)) - 1 && asked - old(asked) <= c.vfifoSize
      ensures !ok ==> asked == old(asked) + c.vfifoSize && exists k: nat :: OneFail(answers, old(asked), k, asked)
    {
      var failCnt := 0;
      ghost var first := asked;
      var n: nat := 0;
      while n < c.vfifoSize
        invariant Valid() && old(log) <= log && old(at) <= at && phase == old(phase) && delay == old(delay)
        invariant n <= c.vfifoSize && asked == old(asked) + n && v == old(v) + n
        invariant Visits(at, old(asked), asked, VfifoSteps(old(v), phase, delay))
        invariant failCnt == 0 || failCnt == 1
        invariant failCnt == 0 ==> forall j :: old(asked) <= j < asked ==> answers(j)
        invariant failCnt == 1 ==> old(asked) <= first < asked && !answers(first)
                                   && forall j :: old(asked) <= j < asked && j != first ==> answers(j)
      {
        var pass := Read();
        if !pass {
          failCnt := failCnt + 1;
          if failCnt == 2 {
            assert SecondFail(answers, old(asked), first, asked);
            break;
          }
          first := asked - 1;
        }
        Incr();
        n := n + 1;
      }
      ok := n < c.vfifoSize;
      assert !ok ==> OneFail(answers, old(asked), if failCnt == 1 then first else asked, asked);
    }

    /** Step 2: the first passing setting, in phase taps from tap 1 on, then
        VFIFO steps, then delay taps. Every setting before it was tried once and
        failed, and the work counter is the delay of the setting found. */
    method FindWorking(dtaps: nat)
      returns (found: bool, i: nat, p: nat, d: nat, workBgn: nat, ghost first: Setting)
      requires Valid() && dtaps <= c.delayMax
      modifies this
      ensures Valid() && old(log) <= log && old(at) <= at
      ensures first == Setting(d, i, p) && (!found ==> d > 0)
      ensures found ==> FirstAt(c, answers, old(asked), first) && asked == ReadsTo(c, old(asked), first)
      ensures found ==> workBgn == Delay(c, first) && d <= dtaps && phase == p && delay == d
      ensures found ==> v == old(v) + d * c.vfifoSize + i && first == NthSetting(c, asked - old(asked) - 1)
      ensures Visits(at, old(asked), asked, Tries(c, old(v), 0))
      ensures !found ==> NoFirst(c, answers, old(asked), dtaps, asked)
    {
      found, i, p, d, workBgn := false, 0, 0, 0, 0;
      first := Setting(0, 0, 0);
      var tmp: nat := 0;
      ghost var rounds: nat := 0;
      while d <= dtaps
        invariant Valid() && old(log) <= log && old(at) <= at && !found && d <= dtaps + 1
        invariant tmp == d * c.dchain && rounds == d * c.vfifoSize && first == Setting(d, i, p)
        invariant v == old(v) + rounds && All(answers, old(asked), asked, false)
        invariant NthSetting(c, asked - old(asked)) == Setting(d, 0, 1)
        invariant Visits(at, old(asked), asked, Tries(c, old(v), 0))
      {
        WriteDelay(d);
        ghost var n, before, was := asked - old(asked), asked, at;
        found, i, p, workBgn := TryVfifo(tmp, d, old(v), rounds, n);
        first := Setting(d, i, p);
        Join(was, at, old(asked), before, asked, Tries(c, old(v), 0), Tries(c, old(v), n));
        if found {
          SettingIndex(c, asked - old(asked) - 1);
          return;
        }
        Distribute(d, 1, c.vfifoSize);
        Distribute(d, 1, c.dchain);
        rounds := rounds + c.vfifoSize;
        d := d + 1;
        first := Setting(d, i, p);
        tmp := tmp + c.dchain;
      }
      SettingIndex(c, asked - old(asked));
    }

    /** The middle loop of step 2: all VFIFO steps at one delay tap. */
    method TryVfifo(work: nat, ghost d: nat, ghost v0: nat, ghost rounds: nat, ghost n: nat)
      returns (found: bool, i: nat, p: nat, workBgn: nat)
      requires Valid() && delay == d && rounds == d * c.vfifoSize && v == v0 + rounds
      requires NthSetting(c, n) == Setting(d, 0, 1)
      modifies this
      ensures Valid() && old(log) <= log && old(at) <= at && delay == old(delay)
      ensures found ==> i < c.vfifoSize && 1 <= p <= c.phaseMax && phase == p
      ensures found ==> workBgn == work + i * c.Period() + p * c.opa && asked > old(asked) && answers(asked - 1)
      ensures v == old(v) + (if found then i else c.vfifoSize)
      ensures Visits(at, old(asked), asked, Tries(c, v0, n))
      ensures if found then NthSetting(c, n + (asked - old(asked)) - 1) == Setting(d, i, p)
              else NthSetting(c, n + (asked - old(asked))) == Setting(d + 1, 0, 1)
      ensures All(answers, old(asked), if found then asked - 1 else asked, false)
    {
      found, i, p, workBgn := false, 0, 0, work;
      while i < c.vfifoSize
        invariant Valid() && old(log) <= log && old(at) <= at && !found && i <= c.vfifoSize && delay == old(delay)
        invariant workBgn == work + i * c.Period() && v == old(v) + i
        invariant All(answers, old(asked), asked, false)
        invariant Visits(at, old(asked), asked, Tries(c, v0, n))
        invariant NthSetting(c, n + (asked - old(asked)))
                  == if i < c.vfifoSize then Setting(d, i, 1) else Setting(d + 1, 0, 1)
      {
        ghost var m, before, was := n + (asked - old(asked)), asked, at;
        found, p, workBgn := TryPhases(workBgn);
        VisitsSettings(at, c, v0, rounds, m, d, i, before, asked);
        Join(was, at, old(asked), before, asked, Tries(c, v0, n), Tries(c, v0, m));
        if found {
          return;
        }
        Distribute(i, 1, c.Period());
        Incr();
        i := i + 1;
      }
    }

    /** The innermost loop of step 2. */
    method TryPhases(work: nat) returns (found: bool, p: nat, workBgn: nat)
      requires Valid()
      modifies this
      ensures Valid() && old(log) <= log && old(at) <= at && v == old(v) && delay == old(delay)
      ensures found ==> 1 <= p <= c.phaseMax && phase == p && workBgn == work + p * c.opa
      ensures found ==> asked == old(asked) + p && answers(asked - 1)
      ensures !found ==> asked == old(asked) + c.phaseMax && workBgn == work + c.Period()
      ensures Visits(at, old(asked), asked, PhaseSteps(v, 1, delay))
      ensures All(answers, old(asked), if found then asked - 1 else asked, false)
    {
      found, p, workBgn := false, 0, work;
      while p <= c.phaseMax
        invariant Valid() && old(log) <= log && old(at) <= at && v == old(v) && delay == old(delay)
        invariant p <= c.phaseMax + 1 && workBgn == work + p * c.opa
        invariant asked == old(asked) + (if p == 0 then 0 else p - 1)
        invariant Visits(at, old(asked), asked, PhaseSteps(v, 1, delay))
        invariant All(answers, old(asked), asked, false)
        decreases c.phaseMax + 1 - p
      {
        if p > 0 {
          WritePhase(p);
          var pass := Read();
          if pass {
            found := true;
            return;
          }
        }
        p := p + 1;
        workBgn := workBgn + c.opa;
      }
    }

    /** Step 3a: back off by one phase tap and look for an earlier beginning in
        delay taps; then restore. From tap 2 on everything is put back; from tap
        1, which has no usable tap before it, the restoring step goes one phase
        tap too far. */
    method RefineBegin(p0: nat, work: nat) returns (p: nat, workBgn: nat)
      requires Valid() && 1 <= p0 <= c.phaseMax && work >= c.opa && (p0 >= 2 ==> work >= 2 * c.opa)
      modifies this
      ensures Valid() && old(log) <= log && old(at) <= at && delay == 0
      ensures p == Restored(c, p0) && v == old(v) + if p == 0 then 1 else 0
      ensures c.opa <= workBgn <= work && Begins(c, answers, old(asked), asked, p0, work, workBgn)
      ensures Visits(at, old(asked), asked, DelaySteps(old(v), p0 - 1, 0))
    {
      p, workBgn := p0 - 1, work;
      var tmp: nat := work - c.opa;
      if p == 0 {
        p := 1;
        tmp := work;
      }
      WritePhase(p);
      var d: nat := 0;
      while d <= c.delayMax && tmp < work
        invariant Valid() && old(log) <= log && old(at) <= at && tmp >= c.opa && d <= c.delayMax + 1
        invariant v == old(v) && asked == old(asked) + d
        invariant tmp == (if p0 == 1 then work else work - c.opa) + d * c.dchain && (p0 == 1 ==> d == 0)
        invariant All(answers, old(asked), asked, false) && (d > 0 ==> (d - 1) * c.dchain < c.opa)
        invariant phase == p && Visits(at, old(asked), asked, DelaySteps(old(v), p0 - 1, 0))
        decreases c.delayMax + 1 - d
      {
        WriteDelay(d);
        var pass := Read();
        if pass {
          workBgn := tmp;
          break;
        }
        Distribute(d, 1, c.dchain);
        d := d + 1;
        tmp := tmp + c.dchain;
      }
      p := p + 1;
      if p > c.phaseMax {
        p := 0;
        Incr();
      }
      WriteDelay(0);
    }

    /** The inner loop of step 4a: phase taps up to the end of this VFIFO step.
        A failure at the very first tap of the step moves the beginning. */
    method EndPhases(p0: nat, j0: nat, bgn: nat, end0: nat)
      returns (ok: bool, p: nat, j: nat, workBgn: nat, workEnd: nat, ghost moved: bool)
      requires Valid() && p0 <= c.phaseMax
      modifies this
      ensures Valid() && old(log) <= log && old(at) <= at && delay == old(delay) && v == old(v)
      ensures p0 <= p && j > 0 && workEnd == end0 + (p - p0) * c.opa && (ok && j0 == 0 ==> p > p0)
      ensures workBgn == (if moved then end0 else bgn)
      ensures moved <==> j0 == 0 && p0 > 0 && !answers(old(asked))
      ensures if ok then 1 <= p <= c.phaseMax && phase == p else p == c.phaseMax + 1
      ensures ok ==> asked > old(asked) && !answers(asked - 1)
      ensures asked == old(asked) + (if ok then p + 1 else p) - (if p0 == 0 then 1 else p0)
      ensures Passes(answers, old(asked), if ok then asked - 1 else asked, moved)
      ensures Visits(at, old(asked), asked, PhaseSteps(v, if p0 == 0 then 1 else p0, delay))
    {
      ok, p, j, workBgn, workEnd, moved := false, p0, j0, bgn, end0, false;
      while p <= c.phaseMax
        invariant Valid() && old(log) <= log && old(at) <= at && delay == old(delay) && v == old(v)
        invariant p0 <= p <= c.phaseMax + 1 && j == j0 + (p - p0) && workEnd == end0 + (p - p0) * c.opa
        invariant workBgn == (if moved then end0 else bgn)
        invariant p > p0 ==> (moved <==> j0 == 0 && p0 > 0 && !answers(old(asked)))
        invariant p == p0 ==> !moved
        invariant asked == old(asked) + (if p == 0 then 1 else p) - (if p0 == 0 then 1 else p0)
        invariant Passes(answers, old(asked), asked, moved)
        invariant Visits(at, old(asked), asked, PhaseSteps(v, if p0 == 0 then 1 else p0, delay))
        decreases c.phaseMax + 1 - p
      {
        j := j + 1;
        if p > 0 {
          WritePhase(p);
          var pass := Read();
          if !pass && j == 1 {
            workBgn, moved := workEnd, true;
          } else if !pass {
            ok := true;
            return;
          }
        }
        Distribute(p - p0, 1, c.opa);
        p := p + 1;
        workEnd := workEnd + c.opa;
      }
    }

    /** One round of step 4a, k VFIFO steps from its start: the rest of this VFIFO
        step, and on to tap 0 of the next when no read failed. */
    method EndRound(ghost k: nat, ghost p0: nat, ghost end0: nat, ghost x: Position, ghost n: nat,
                    p1: nat, j0: nat, bgn: nat, work: nat)
      returns (ok: bool, p: nat, j: nat, workBgn: nat, workEnd: nat, ghost moved: bool)
      requires Valid() && p1 <= c.phaseMax && work == end0 + Moved(c, k, p1 - p0)
      requires TapBefore(c, x, n, v, p1, delay)
      modifies this
      ensures Valid() && old(log) <= log && old(at) <= at && delay == old(delay)
      ensures j > 0 && workEnd >= work + (if ok && j0 > 0 then 0 else c.opa)
      ensures workBgn == (if moved then work else bgn)
      ensures moved <==> j0 == 0 && p1 > 0 && !answers(old(asked))
      ensures asked == old(asked) + (if ok then p else c.phaseMax) + 1 - (if p1 == 0 then 1 else p1)
      ensures workEnd == end0 + if ok then Moved(c, k, p - p0) else Moved(c, k + 1, 0 - p0)
      ensures if ok then 1 <= p <= c.phaseMax && phase == p && v == old(v) && asked > old(asked) && !answers(asked - 1)
              else p == 0 && v == old(v) + 1
      ensures Visits(at, old(asked), asked, TapsAfter(c, x, n))
      ensures if ok then NthTap(c, x, n + (asked - old(asked))) == Position(v, p, delay)
              else TapBefore(c, x, n + (asked - old(asked)), v, 0, delay)
      ensures Passes(answers, old(asked), if ok then asked - 1 else asked, moved)
    {
      ok, p, j, workBgn, workEnd, moved := EndPhases(p1, j0, bgn, work);
      TapsOn(c, k, p0, p1, p);
      RunOfTaps(c, x, n, v, p1, delay, asked - old(asked));
      VisitsTaps(at, c, x, n, v, p1, delay, old(asked), asked);
      if !ok {
        Turn(c, k, p0);
        Incr();
        p := 0;
      }
    }

    /** Step 4a: forward in phase taps until the read fails, after k VFIFO steps
        at phase tap p. A failure at the very first tap tried moves the beginning
        instead. The work counter moves exactly as the setting does. */
    method FindEnd(i0: nat, p0: nat, bgn: nat, end0: nat)
      returns (ok: bool, p: nat, workBgn: nat, workEnd: nat, ghost moved: bool, ghost k: nat)
      requires Valid() && p0 <= c.phaseMax && c.opa <= bgn <= end0 && i0 < c.vfifoSize
      modifies this
      ensures Valid() && old(log) <= log && old(at) <= at && delay == old(delay) && v == old(v) + k
      ensures workBgn == (if moved then end0 + c.opa else bgn)
      ensures asked > old(asked) && (moved <==> p0 < c.phaseMax && !answers(old(asked)))
      ensures if ok then k < Rounds(c, i0, p0) else 0 < k == Rounds(c, i0, p0)
      ensures ok ==> NthTap(c, Position(old(v), p0, delay), asked - old(asked)) == Position(v, p, delay)
      ensures !ok ==> TapBefore(c, Position(old(v), p0, delay), asked - old(asked), v, 0, delay)
      ensures ok ==> 1 <= p <= c.phaseMax && phase == p && workEnd >= end0 + 2 * c.opa
      ensures ok ==> workEnd == end0 + Moved(c, k, p - p0)
      ensures ok ==> !answers(asked - 1)
      ensures Passes(answers, old(asked), if ok then asked - 1 else asked, moved)
      ensures Visits(at, old(asked), asked, TapsAfter(c, Position(old(v), p0, delay), 0))
    {
      ghost var x := Position(v, p0, delay);
      ok, p, workBgn, workEnd, moved, k := false, p0 + 1, bgn, end0 + c.opa, false, 0;
      if p > c.phaseMax {
        Turn(c, 0, p0);
        p := 0;
        Incr();
        k := 1;
      }
      var j: nat := 0;
      var i := i0;
      while i < c.vfifoSize + 1
        invariant Valid() && old(log) <= log && old(at) <= at && delay == old(delay)
        invariant p <= c.phaseMax && v == old(v) + k
        invariant i0 <= i <= c.vfifoSize + 1 && k == i - i0 + if p0 == c.phaseMax then 1 else 0
        invariant workEnd == end0 + Moved(c, k, p - p0)
        invariant if j == 0 then workEnd == end0 + c.opa else p == 0 && workEnd >= end0 + 2 * c.opa
        invariant workBgn == if moved then end0 + c.opa else bgn
        invariant if j == 0 then i == i0 && asked == old(asked) && !moved && (p > 0 <==> p0 < c.phaseMax)
                  else asked > old(asked) && (moved <==> p0 < c.phaseMax && !answers(old(asked)))
        invariant Passes(answers, old(asked), asked, moved)
        invariant TapBefore(c, x, asked - old(asked), v, p, delay)
        invariant Visits(at, old(asked), asked, TapsAfter(c, x, 0))
        decreases c.vfifoSize + 1 - i
      {
        ghost var before, a, was, m := moved, asked, at, false;
        ok, p, j, workBgn, workEnd, m := EndRound(k, p0, end0, x, a - old(asked), p, j, workBgn, workEnd);
        Join(was, at, old(asked), a, asked, TapsAfter(c, x, 0), TapsAfter(c, x, a - old(asked)));
        moved := moved || m;
        PassesOn(answers, old(asked), a, if ok then asked - 1 else asked, before, m);
        if ok {
          return;
        }
        k := k + 1;
        i := i + 1;
      }
    }

    /** Step 5a: back off one phase tap from the failing one, past tap 0, going
        round once when that takes a VFIFO step back. */
    method BackOffEnd(p0: nat, end0: nat) returns (p: nat, workEnd: nat)
      requires Valid() && 1 <= p0 <= c.phaseMax && end0 >= 2 * c.opa
      modifies this
      ensures Valid() && old(log) <= log && old(at) <= at && phase == p && unchanged(`delay, `asked, `at)
      ensures p == (if p0 == 1 then c.phaseMax else p0 - 1)
      ensures v == old(v) + if p0 == 1 then c.vfifoSize - 1 else 0
      ensures workEnd == end0 - (if p0 == 1 then 2 else 1) * c.opa
    {
      p, workEnd := p0, end0;
      if p == 1 {
        p := 0;
        workEnd := workEnd - c.opa;
      }
      if p == 0 {
        p := c.phaseMax;
        Decr();
      } else {
        p := p - 1;
      }
      workEnd := workEnd - c.opa;
      WritePhase(p);
    }

    /** Step 5: on in delay taps until the read fails; back to the last that passed. */
    method FindFailingDtap(d0: nat, end0: nat) returns (d: nat, workEnd: nat)
      requires Valid() && d0 <= c.delayMax && (d0 > 0 ==> end0 >= c.dchain)
      modifies this
      ensures Valid() && old(log) <= log && old(at) <= at && unchanged(`phase, `v)
      ensures LastsTo(c, answers, old(asked), asked, d0, end0, d, workEnd)
      ensures Visits(at, old(asked), asked, DelaySteps(v, phase, d0))
      ensures d <= c.delayMax ==> delay == d
    {
      d, workEnd := d0, end0;
      while d <= c.delayMax
        invariant Valid() && old(log) <= log && old(at) <= at && d0 <= d <= c.delayMax + 1 && unchanged(`phase, `v)
        invariant workEnd == end0 + (d - d0) * c.dchain && asked == old(asked) + (d - d0)
        invariant workEnd >= end0 && (d > d0 ==> workEnd >= end0 + c.dchain)
        invariant All(answers, old(asked), asked, true) && Visits(at, old(asked), asked, DelaySteps(v, phase, d0))
        decreases c.delayMax + 1 - d
      {
        WriteDelay(d);
        var pass := Read();
        if !pass {
          break;
        }
        Distribute(d - d0, 1, c.dchain);
        d := d + 1;
        workEnd := workEnd + c.dchain;
      }
      if d != 0 {
        workEnd := workEnd - c.dchain;
      }
    }

    /** Delay taps upwards until a read answers `want`. */
    method SweepDelay(d0: nat, want: bool) returns (found: bool, d: nat)
      requires Valid()
      modifies this
      ensures Valid() && old(log) <= log && old(at) <= at && phase == old(phase) && v == old(v) && d0 <= d
      ensures All(answers, old(asked), old(asked) + (d - d0), !want)
      ensures Visits(at, old(asked), asked, DelaySteps(v, phase, d0))
      ensures found ==> d <= c.delayMax && asked == old(asked) + (d - d0) + 1 && answers(asked - 1) == want
      ensures !found ==> asked == old(asked) + (d - d0) && d == if d0 <= c.delayMax then c.delayMax + 1 else d0
    {
      found, d := false, d0;
      while d <= c.delayMax
        invariant Valid() && old(log) <= log && old(at) <= at && phase == old(phase) && v == old(v) && d0 <= d && !found
        invariant d0 < d ==> d <= c.delayMax + 1
        invariant asked == old(asked) + (d - d0) && All(answers, old(asked), asked, !want)
        invariant Visits(at, old(asked), asked, DelaySteps(v, phase, d0))
        decreases c.delayMax + 1 - d
      {
        WriteDelay(d);
        var pass := Read();
        if pass == want {
          found := true;
          return;
        }
        d := d + 1;
      }
    }

    /** Tracking: back up a phase tap and find the edge again in delay taps, to
        measure how many delay taps a phase tap has. The measure counts all reads
        up to the failing one; when the chain ends before an edge was seen the
        computed value stays. */
    method MeasureDtaps(p0: nat, d0: nat, dtaps0: nat) returns (dtaps: nat)
      requires Valid() && 1 <= p0 <= c.phaseMax && d0 <= c.delayMax + 1
      requires dtaps0 <= c.delayMax && OneLess(c, dtaps0)
      modifies this
      ensures Valid() && old(log) <= log && old(at) <= at && dtaps <= c.delayMax
      ensures phase == if p0 == 1 then c.phaseMax else p0 - 1
      ensures v == old(v) + if p0 == 1 then c.vfifoSize - 1 else 0
      ensures exists e: nat :: Measured(c, answers, old(asked), asked, e, d0, dtaps)
      ensures Visits(at, old(asked), asked, DelaySteps(v, phase, d0))
    {
      dtaps := dtaps0;
      var p := p0;
      if p == 1 {
        p := c.phaseMax;
        Decr();
      } else {
        p := p - 1;
      }
      WritePhase(p);
      var foundPassing, d := SweepDelay(d0, true);
      ghost var e: nat := asked;
      if foundPassing {
        e := asked - 1;
        ghost var was := at;
        var foundFailing;
        foundFailing, d := SweepDelay(d + 1, false);
        Join(was, at, old(asked), e + 1, asked,
             DelaySteps(v, phase, d0), DelaySteps(v, phase, d0 + (e + 1 - old(asked))));
        if foundFailing {
          dtaps := d - d0;
        }
      }
      assert Measured(c, answers, old(asked), asked, e, d0, dtaps);
    }

    /** One VFIFO step as the sum of its phase taps. */
    method VfifoDelay() returns (tmp: nat)
      requires c.Valid()
      ensures tmp == c.Period()
    {
      tmp := 0;
      var p: nat := 0;
      while p <= c.phaseMax
        invariant p <= c.phaseMax + 1 && tmp == p * c.opa
      {
        p := p + 1;
        tmp := tmp + c.opa;
      }
    }

    /** Takes whole VFIFO steps off the middle of the window. */
    method Reduce(mid: nat) returns (m: nat)
      requires c.Valid() && mid > 0
      ensures IsReduced(c, mid, m)
    {
      var period := VfifoDelay();
      m := mid;
      ghost var k: nat := 0;
      while m > period
        invariant 0 < m && mid == m + k * c.Period()
        decreases m
      {
        m := m - period;
        k := k + 1;
      }
    }

    /** Phase taps up to a delay: one more than fit below it. */
    method PickPhase(m: nat) returns (p: nat, base: nat)
      requires c.Valid() && 0 < m <= c.Period()
      ensures 1 <= p <= c.phaseMax + 1 && base == (p - 1) * c.opa < m <= base + c.opa
    {
      base, p := 0, 0;
      while p <= c.phaseMax && base < m
        invariant p <= c.phaseMax + 1 && base == p * c.opa && (p > 0 ==> base < m + c.opa)
        decreases c.phaseMax + 1 - p
      {
        p := p + 1;
        base := base + c.opa;
      }
      base := base - c.opa;
    }

    /** Delay taps for the rest, as far as the chain goes: one tap too many
        exactly when the chain is too short. */
    method PickDelay(base: nat, m: nat) returns (d: nat)
      requires c.Valid() && base < m
      ensures d <= c.delayMax + 1
      ensures d <= c.delayMax <==> m <= base + c.delayMax * c.dchain
      ensures d <= c.delayMax ==> m <= base + d * c.dchain < m + c.dchain
    {
      d := 0;
      var tmp := base;
      while d <= c.delayMax && tmp < m
        invariant d <= c.delayMax + 1 && tmp == base + d * c.dchain && tmp < m + c.dchain
        invariant d > 0 ==> base + (d - 1) * c.dchain < m
        decreases c.delayMax + 1 - d
      {
        d := d + 1;
        tmp := tmp + c.dchain;
      }
      if d <= c.delayMax {
        TapsGrow(c, d, c.delayMax);
      }
    }

    /** Phase and delay taps for a delay. */
    method Place(mid: nat) returns (phaseTap: nat, d: nat)
      requires c.Valid() && 0 < mid <= c.Period()
      ensures 1 <= phaseTap <= c.phaseMax && d <= c.delayMax + 1
      ensures d <= c.delayMax ==> IsPlaced(c, mid, phaseTap, d)
      ensures d > c.delayMax ==> TooFar(c, mid, phaseTap)
    {
      var p, base := PickPhase(mid);
      d := PickDelay(base, mid);
      if p == 1 {
        p := 2;
        d := 0;
      }
      phaseTap := p - 1;
    }

    /** Step 6: the middle of the window, less whole VFIFO steps, as phase taps
        and delay taps. */
    method Centre(workBgn: nat, workEnd: nat) returns (ghost m: nat)
      requires Valid() && workBgn + workEnd >= 2
      modifies this
      ensures old(log) <= log && old(at) <= at && unchanged(`asked, `v, `at) && 1 <= phase <= c.phaseMax
      ensures IsReduced(c, (workBgn + workEnd) / 2, m)
      ensures Valid() <==> delay <= c.delayMax
      ensures delay <= c.delayMax ==> IsPlaced(c, m, phase, delay)
      ensures delay > c.delayMax ==> TooFar(c, m, phase)
    {
      var mid := Reduce((workBgn + workEnd) / 2);
      m := mid;
      var p, d := Place(mid);
      WritePhase(p);
      WriteDelay(d);
    }

    /** Push the VFIFO until the read passes, once round at most. */
    method PushToPassing() returns (found: bool)
      requires Valid()
      modifies this
      ensures Valid() && old(log) <= log && old(at) <= at && phase == old(phase) && delay == old(delay)
      ensures found ==> |log| > 0 && log[|log|-1] == ReadTest(true)
      ensures found ==> asked > old(asked) && answers(asked - 1) && All(answers, old(asked), asked - 1, false)
                        && v == old(v) + (asked - old(asked) - 1) < old(v) + c.vfifoSize
      ensures !found ==> asked == old(asked) + c.vfifoSize && All(answers, old(asked), asked, false)
      ensures Visits(at, old(asked), asked, VfifoSteps(old(v), phase, delay))
    {
      var i: nat := 0;
      while i < c.vfifoSize
        invariant Valid() && old(log) <= log && old(at) <= at && phase == old(phase) && delay == old(delay)
        invariant i <= c.vfifoSize && asked == old(asked) + i && v == old(v) + i
        invariant All(answers, old(asked), asked, false)
        invariant Visits(at, old(asked), asked, VfifoSteps(old(v), phase, delay))
      {
        var pass := Read();
        if pass {
          return true;
        }
        Incr();
        i := i + 1;
      }
      return false;
    }

    /** Steps 4a and 5a: the end of the window in phase taps. */
    method FindPhaseEnd(i: nat, q: nat, bgn: nat, work: nat)
      returns (ok: bool, p: nat, workBgn: nat, workEnd: nat, ghost moved: bool, ghost k: nat, ghost p1: nat)
      requires Valid() && i < c.vfifoSize && q <= c.phaseMax && c.opa <= bgn <= work
      modifies this
      ensures Valid() && old(log) <= log && old(at) <= at && delay == old(delay)
      ensures Visits(at, old(asked), asked, TapsAfter(c, Position(old(v), q, delay), 0))
      ensures ok ==> v == old(v) + k + (if p1 == 1 then c.vfifoSize - 1 else 0)
                     && p == if p1 == 1 then c.phaseMax else p1 - 1
      ensures workBgn == if moved then work + c.opa else bgn
      ensures ok ==> 1 <= p <= c.phaseMax && phase == p && work <= workEnd
      ensures ok ==> Ends(c, answers, old(asked), asked, i, q, work, moved, k, p1, workEnd)
      ensures !ok ==> Exhausted(c, answers, old(asked), asked, i, q, moved)
    {
      ghost var x := Position(v, q, delay);
      ok, p, workBgn, workEnd, moved, k := FindEnd(i, q, bgn, work);
      p1 := p;
      TapCount(c, x, asked - old(asked), k, if ok then p else 0);
      if ok {
        p, workEnd := BackOffEnd(p, workEnd);
        BackOff(c, k, p1 - q, p1);
      }
    }

    /** Steps 3a to 5a: the window in phase taps. */
    method FindPhaseWindow(i: nat, p0: nat, work: nat)
      returns (ok: bool, p: nat, workBgn: nat, workEnd: nat, ghost t: Trail)
      requires Valid() && i < c.vfifoSize && 1 <= p0 <= c.phaseMax
      requires work >= c.opa && (p0 >= 2 ==> work >= 2 * c.opa)
      modifies this
      ensures Valid() && old(log) <= log && old(at) <= at
      ensures ok ==> 1 <= p <= c.phaseMax && phase == p && t.e == asked
      ensures ok ==> Begins(c, answers, old(asked), t.b, p0, work, t.bgn)
      ensures ok ==> Ends(c, answers, t.b, t.e, i, Restored(c, p0), work, t.moved, t.k, t.p, workEnd)
      ensures ok ==> workBgn == (if t.moved then work + c.opa else t.bgn) && c.opa <= t.bgn <= work <= workEnd
      ensures !ok ==> NoEnd(c, answers, old(asked), i, p0, work, t, asked)
      ensures ok ==> v == BackedOff(c, AfterRestore(c, old(v), p0).v + t.k, t.p).v
                     && p == BackedOff(c, AfterRestore(c, old(v), p0).v + t.k, t.p).p
      ensures t.e == asked && Visits(at, old(asked), t.b, DelaySteps(old(v), p0 - 1, 0))
      ensures Visits(at, t.b, t.e, TapsAfter(c, AfterRestore(c, old(v), p0), 0))
    {
      p, workBgn := RefineBegin(p0, work);
      ghost var moved, k, p1, b, bgn, was := false, 0, 0, asked, workBgn, at;
      ok, p, workBgn, workEnd, moved, k, p1 := FindPhaseEnd(i, p, workBgn, work);
      t := Trail(b, bgn, moved, k, p1, asked, 0, 0, 0);
      Grow(was, at, old(asked), b, DelaySteps(old(v), p0 - 1, 0));
    }

    /** Steps 3 to 5: from the first working setting to both edges. */
    method FindEdges(i: nat, p0: nat, d0: nat, work: nat)
      returns (ok: bool, p: nat, d: nat, bgn: nat, end: nat, ghost t: Trail)
      requires Valid() && i < c.vfifoSize && 1 <= p0 <= c.phaseMax && d0 <= c.delayMax
      requires work >= c.opa && (p0 >= 2 ==> work >= 2 * c.opa) && (d0 > 0 ==> work >= c.opa + c.dchain)
      requires work == Delay(c, Setting(d0, i, p0)) && phase == p0
      modifies this
      ensures Valid() && old(log) <= log && old(at) <= at
      ensures ok ==> WindowOf(c, answers, old(asked), Setting(d0, i, p0), t, bgn, end)
      ensures !ok ==> d0 == 0 && t.e == asked && NoEnd(c, answers, old(asked), i, p0, work, t, asked)
      ensures EdgeReads(c, at, old(asked), asked, old(v), Setting(d0, i, p0), t)
      ensures ok ==> v == EdgeAt(c, old(v), Setting(d0, i, p0), t).v && p == EdgeAt(c, old(v), Setting(d0, i, p0), t).p
      ensures ok ==> 1 <= p <= c.phaseMax && c.opa <= bgn && c.opa <= end
      ensures ok ==> d <= c.delayMax + 1 && (d <= c.delayMax ==> delay == d) && t.d == d && t.z == asked
    {
      ok, p, d, bgn, end := true, p0, d0, work, work;
      t := Trail(0, 0, false, 0, 0, 0, 0, 0, 0);
      if d == 0 {
        ok, p, bgn, end, t := FindPhaseWindow(i, p, bgn);
        if !ok {
          return;
        }
      }
      ghost var end1, e, was := end, asked, at;
      d, end := FindFailingDtap(d, end);
      EndBound(c, end1, d0, d);
      t := t.(end := end1, d := d, z := asked);
      if d0 == 0 {
        Grow(was, at, old(asked), t.b, DelaySteps(old(v), p0 - 1, 0));
        Grow(was, at, t.b, e, TapsAfter(c, AfterRestore(c, old(v), p0), 0));
      }
    }

    /** Steps 2 to 5: both edges of the window. */
    method FindWindow(dtaps: nat)
      returns (ok: bool, p: nat, d: nat, bgn: nat, end: nat, ghost w: nat, ghost first: Setting, ghost t: Trail)
      requires Valid() && dtaps <= c.delayMax
      modifies this
      ensures Valid() && old(log) <= log && old(at) <= at
      ensures ok ==> FirstAt(c, answers, old(asked), first) && first.d <= dtaps && w == ReadsTo(c, old(asked), first)
      ensures !ok ==> (NoFirst(c, answers, old(asked), dtaps, asked) && w == asked)
                      || (FirstAt(c, answers, old(asked), first) && first.d == 0 && w == ReadsTo(c, old(asked), first)
                          && t.e == asked && NoEnd(c, answers, w, first.i, first.p, Delay(c, first), t, asked))
      ensures ok ==> WindowOf(c, answers, w, first, t, bgn, end)
      ensures ok ==> 1 <= p <= c.phaseMax && c.opa <= bgn && c.opa <= end
      ensures ok ==> d <= c.delayMax + 1 && (d <= c.delayMax ==> delay == d) && t.d == d && t.z == asked
      ensures Visits(at, old(asked), w, Tries(c, old(v), 0))
      ensures EdgeReads(c, at, w, asked, Where(c, old(v), first).v, first, t)
      ensures ok ==> v == EdgeAt(c, Where(c, old(v), first).v, first, t).v
                     && p == EdgeAt(c, Where(c, old(v), first).v, first, t).p
    {
      var i;
      ok, i, p, d, bgn, first := FindWorking(dtaps);
      end := bgn;
      t := Trail(0, 0, false, 0, 0, 0, 0, 0, 0);
      w := asked;
      if ok {
        WorkBounds(c, first);
        ghost var was := at;
        ok, p, d, bgn, end, t := FindEdges(i, p, d, bgn);
        Grow(was, at, old(asked), w, Tries(c, old(v), 0));
      }
    }

    /** Tracking, step 6 and the last push: the registers for a window. */
    method Settle(p: nat, d: nat, dtaps0: nat, bgn: nat, end: nat)
      returns (found: bool, dtaps: nat, ghost y: nat, ghost m: nat)
      requires Valid() && c.Fits() && 1 <= p <= c.phaseMax && d <= c.delayMax + 1
      requires dtaps0 <= c.delayMax && OneLess(c, dtaps0) && c.opa <= bgn <= end
      modifies this
      ensures Valid() && old(log) <= log && old(at) <= at && dtaps <= c.delayMax
      ensures exists e: nat :: Measured(c, answers, old(asked), y, e, d, dtaps)
      ensures IsReduced(c, (bgn + end) / 2, m) && IsPlaced(c, m, phase, delay)
      ensures if found then y < asked <= y + c.vfifoSize && All(answers, y, asked - 1, false) && answers(asked - 1)
              else asked == y + c.vfifoSize && All(answers, y, asked, false)
      ensures found ==> |log| > 0 && log[|log|-1] == ReadTest(true)
      ensures Visits(at, old(asked), y, DelaySteps(BackedOff(c, old(v), p).v, BackedOff(c, old(v), p).p, d))
      ensures Visits(at, y, asked, VfifoSteps(BackedOff(c, old(v), p).v, phase, delay))
      ensures found ==> v == BackedOff(c, old(v), p).v + (asked - y - 1)
    {
      dtaps := MeasureDtaps(p, d, dtaps0);
      y := asked;
      ghost var was := at;
      m := Centre(bgn, end);
      FitsReaches(c, phase, m);
      found := PushToPassing();
      Grow(was, at, old(asked), y, DelaySteps(BackedOff(c, old(v), p).v, BackedOff(c, old(v), p).p, d));
    }

    /** Steps 0 and 1. */
    method Start() returns (ok: bool, dtaps: nat)
      requires Valid() && c.Fits()
      modifies this
      ensures Valid() && old(log) <= log && old(at) <= at && dtaps <= c.delayMax && OneLess(c, dtaps)
      ensures Visits(at, old(asked), asked, VfifoSteps(old(v), 1, 0))
      ensures ok ==> asked <= old(asked) + c.vfifoSize && v == StartOfTries(old(v), old(asked), asked)
      ensures ok ==> exists k :: SecondFail(answers, old(asked), k, asked)
      ensures !ok ==> asked == old(asked) + c.vfifoSize && exists k: nat :: OneFail(answers, old(asked), k, asked)
    {
      WriteDelay(0);
      WritePhase(1);
      dtaps := DtapsPerPtap();
      StepFits(c, dtaps);
      ok := PushToFailing();
    }

    /** Steps 0 to 5. */
    method SearchWindow() returns (found: bool, dtaps: nat, p: nat, d: nat, bgn: nat, end: nat, ghost r: Course)
      requires Valid() && c.Fits()
      modifies this
      ensures Valid() && old(log) <= log && old(at) <= at && dtaps <= c.delayMax && OneLess(c, dtaps)
      ensures found ==> Starts(c, answers, old(asked), r) && HasFirst(c, answers, r)
                        && HasWindow(c, answers, r) && r.bgn == bgn && r.end == end
      ensures found ==> 1 <= p <= c.phaseMax && c.opa <= bgn && c.opa <= end
      ensures found ==> d <= c.delayMax + 1 && r.trail.d == d && r.trail.z == asked
      ensures found && r.first.d == 0 ==> bgn <= end
      ensures !found ==> NoWindow(c, answers, old(asked), asked, r)
      ensures r.x == r.y == asked && SearchReads(c, at, old(asked), old(v), r.s, r.w, r.x, r.first, r.trail)
      ensures found ==> v == EdgeOf(c, old(asked), old(v), r).v && p == EdgeOf(c, old(asked), old(v), r).p
    {
      p, d, bgn, end := 0, 0, 0, 0;
      found, dtaps := Start();
      ghost var s, w, first, trail, was := asked, asked, Setting(1, 0, 0), Trail(0, 0, false, 0, 0, 0, 0, 0, 0), at;
      if found {
        found, p, d, bgn, end, w, first, trail := FindWindow(dtaps);
        Grow(was, at, old(asked), s, VfifoSteps(old(v), 1, 0));
      }
      if found && first.d == 0 {
        NeverEmpty(c, answers, w, first, trail, bgn, end);
      }
      r := Course(s, dtaps, w, first, trail, asked, bgn, end, asked, 0);
    }

    /** Tracking, step 6 and the last push, for a search that began with the read a at
        VFIFO step v0. */
    method CentreWindow(p: nat, d: nat, dtaps0: nat, bgn: nat, end: nat, ghost a: nat, ghost v0: nat, ghost r0: Course)
      returns (found: bool, dtaps: nat, ghost r: Course)
      requires Valid() && c.Fits() && 1 <= p <= c.phaseMax && d <= c.delayMax + 1
      requires dtaps0 <= c.delayMax && OneLess(c, dtaps0) && c.opa <= bgn <= end
      requires Starts(c, answers, a, r0) && HasFirst(c, answers, r0) && HasWindow(c, answers, r0)
      requires r0.bgn == bgn && r0.end == end && r0.trail.d == d && r0.x == asked
      requires v == EdgeOf(c, a, v0, r0).v && p == EdgeOf(c, a, v0, r0).p
      requires SearchReads(c, at, a, v0, r0.s, r0.w, r0.x, r0.first, r0.trail)
      modifies this
      ensures Valid() && old(log) <= log && old(at) <= at && dtaps <= c.delayMax
      ensures found ==> |log| > 0 && log[|log|-1] == ReadTest(true)
      ensures found ==> Explains(c, answers, a, asked, v0, r, dtaps, v, phase, delay)
      ensures !found ==> GivesUp(c, answers, a, asked, r, dtaps, phase, delay)
      ensures ReadsAt(c, at, a, asked, v0, r, phase, delay)
    {
      ghost var y, m, was;
      was := at;
      found, dtaps, y, m := Settle(p, d, dtaps0, bgn, end);
      Concludes(c, answers, a, asked, v0, r0, y, m, found, dtaps, v, phase, delay);
      ReadsConclude(c, was, at, a, asked, v0, r0, y, m, phase, delay);
      r := r0.(y := y, m := m);
    }

    /** The whole search. Whatever the read tests answer, it ends, programs only
        legal taps, and never subtracts below zero. When it reports success, the
        last thing it did was a read that passed with the final registers, and
        these are the middle of the window that the answers determine: VFIFO
        steps up to the second fail, the first setting that passes after it, and
        the edges around that setting. When it reports failure, the answers left
        no such window, or no pass at its middle. Either way every read was made
        where ReadsAt says. */
    method FindDqsEnPhase() returns (found: bool, dtaps: nat, ghost r: Course)
      requires Valid() && c.Fits()
      modifies this
      ensures Valid() && old(log) <= log && old(at) <= at && dtaps <= c.delayMax
      ensures found ==> |log| > 0 && log[|log|-1] == ReadTest(true)
      ensures found ==> Explains(c, answers, old(asked), asked, old(v), r, dtaps, v, phase, delay)
      ensures !found ==> GivesUp(c, answers, old(asked), asked, r, dtaps, phase, delay)
      ensures ReadsAt(c, at, old(asked), asked, old(v), r, phase, delay)
    {
      var p, d, bgn, end;
      found, dtaps, p, d, bgn, end, r := SearchWindow();
      if !found {
        return;
      }
      if end < bgn {
        found := false;
        return;
      }
      found, dtaps, r := CentreWindow(p, d, dtaps, bgn, end, old(asked), old(v), r);
    }
  }
}
