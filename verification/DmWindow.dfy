/** Centring of the data mask pin: the longest run of passing positions, found
    in one pass from the longest DM delay down to zero and on with the DQS
    delay, leaving early when nothing longer can follow. */
module DmWindow {
  import opened Deskew

  /** The test passes at a skew (DQS delay minus DM delay). */
  type Oracle = int -> bool

  /** The delay registers of the mask pin's group. */
  class MaskGroup {
    const eye: Oracle
    var dm: int
    var dqs: int

    constructor (eye: Oracle, dqs: int)
      ensures this.eye == eye && this.dqs == dqs && dm == 0
    {
      this.eye, this.dm, this.dqs := eye, 0, dqs;
    }

    method Test() returns (pass: bool)
      ensures pass == eye(dqs - dm)
    {
      pass := eye(dqs - dm);
    }
  }

  /** Positions -max..max-dqs, counted from where DQS is. */
  datatype Line = Line(eye: Oracle, dqs: int, max: int)
  {
    predicate Valid() { 0 <= dqs <= max }

    predicate Pass(x: int) { eye(x + dqs) }

    function Last(): int { max - dqs }

    function Illegal(): int { max + 1 }

    /** All positions from b to e pass, and lie before `limit`. */
    ghost predicate Run(b: int, e: int, limit: int) {
      -max <= b <= e < limit && forall x :: b <= x <= e ==> Pass(x)
    }

    ghost predicate NoPass(limit: int) { forall x :: -max <= x < limit ==> !Pass(x) }

    /** [b, e] is the longest run before `limit`; of several, the leftmost. */
    ghost predicate Longest(b: int, e: int, limit: int) {
      && Run(b, e, limit)
      && forall b', e' :: Run(b', e', limit) ==> e' - b' < e - b || (e' - b' == e - b && b <= b')
    }
  }

  /** The search variables: current window, best window, its length. */
  datatype Track = Track(bgnCurr: int, endCurr: int, bgnBest: int, endBest: int, winBest: int)

  /** A passing test at position x. */
  function Hit(t: Track, x: int, illegal: int): Track {
    var bgn := if t.bgnCurr == illegal then x else t.bgnCurr;
    if x - bgn + 1 > t.winBest then Track(bgn, x, bgn, x, x - bgn + 1)
    else t.(bgnCurr := bgn, endCurr := x)
  }

  /** A failing test. */
  function Miss(t: Track, illegal: int): Track {
    t.(bgnCurr := illegal, endCurr := illegal)
  }

  /** The best window before a limit, or none when no position passes. */
  ghost predicate Found(ln: Line, limit: int, t: Track) {
    if t.winBest == 0 then t.bgnBest == t.endBest == ln.Illegal() && ln.NoPass(limit)
    else t.winBest == t.endBest - t.bgnBest + 1 && ln.Longest(t.bgnBest, t.endBest, limit)
  }

  /** What is known when all positions before x have been tried. */
  ghost predicate Knows(ln: Line, x: int, t: Track) {
    && Found(ln, x, t)
    && (if t.bgnCurr == ln.Illegal() then
          t.endCurr == ln.Illegal() && (x > -ln.max ==> !ln.Pass(x - 1))
        else
          && t.endCurr == x - 1 && ln.Run(t.bgnCurr, x - 1, x)
          && (t.bgnCurr > -ln.max ==> !ln.Pass(t.bgnCurr - 1)))
  }

  lemma PassesInRun(ln: Line, b: int, e: int, limit: int, x: int)
    requires ln.Run(b, e, limit) && b <= x <= e
    ensures ln.Pass(x)
  {
  }

  lemma RunEndsBefore(ln: Line, b: int, e: int, x: int)
    requires ln.Run(b, e, x + 1) && !ln.Pass(x)
    ensures ln.Run(b, e, x)
  {
  }

  /** A run that reaches x is no longer than the current window. */
  lemma RunsUpToHit(ln: Line, x: int, bgn: int, b: int, e: int)
    requires bgn > -ln.max ==> !ln.Pass(bgn - 1)
    requires ln.Run(bgn, x, x + 1) && ln.Run(b, e, x + 1)
    ensures if e < x then ln.Run(b, e, x) else e == x && bgn <= b
  {
    if e == x && b < bgn {
      PassesInRun(ln, b, e, x + 1, bgn - 1);
    }
  }

  lemma HitKeeps(ln: Line, x: int, t: Track)
    requires ln.Valid() && -ln.max <= x <= ln.Last() && Knows(ln, x, t) && ln.Pass(x)
    ensures Knows(ln, x + 1, Hit(t, x, ln.Illegal()))
  {
    var t' := Hit(t, x, ln.Illegal());
    var bgn := if t.bgnCurr == ln.Illegal() then x else t.bgnCurr;
    assert ln.Run(bgn, x, x + 1);
    if t.winBest > 0 {
      assert ln.Run(t.bgnBest, t.endBest, x);
      assert ln.Run(t.bgnBest, t.endBest, x + 1);
    }
    var next := x + 1;
    forall b, e | ln.Run(b, e, next)
      ensures e - b < t'.endBest - t'.bgnBest || (e - b == t'.endBest - t'.bgnBest && t'.bgnBest <= b)
    {
      RunsUpToHit(ln, x, bgn, b, e);
      if e < x {
        PassesInRun(ln, b, e, x, b);
      }
    }
  }

  lemma MissKeeps(ln: Line, x: int, t: Track)
    requires ln.Valid() && -ln.max <= x <= ln.Last() && Knows(ln, x, t) && !ln.Pass(x)
    ensures Knows(ln, x + 1, Miss(t, ln.Illegal()))
  {
    var next := x + 1;
    forall b, e | ln.Run(b, e, next) ensures ln.Run(b, e, x) {
      RunEndsBefore(ln, b, e, x);
    }
    if t.winBest > 0 {
      assert ln.Run(t.bgnBest, t.endBest, x);
      assert ln.Run(t.bgnBest, t.endBest, x + 1);
    }
  }

  /** Early exit: what is left of the line is shorter than the best window. */
  lemma NothingLongerFollows(ln: Line, x: int, t: Track)
    requires ln.Valid() && -ln.max <= x <= ln.Last() && Knows(ln, x + 1, t) && !ln.Pass(x)
    requires t.winBest - 1 > ln.Last() - x
    ensures Found(ln, ln.Last() + 1, t)
  {
    var limit := ln.Last() + 1;
    assert ln.Run(t.bgnBest, t.endBest, limit);
    forall b, e | ln.Run(b, e, limit)
      ensures e - b < t.endBest - t.bgnBest || (e - b == t.endBest - t.bgnBest && t.bgnBest <= b)
    {
      if e <= x {
        assert ln.Run(b, e, x + 1);
      } else {
        assert b > x;
      }
    }
  }

  /** Down-sweep: DM delay from its maximum to zero, positions -max..0. */
  method SweepDm(g: MaskGroup, ghost ln: Line, max: int) returns (t: Track)
    requires ln.Valid() && ln.max == max && ln.eye == g.eye && g.dqs == ln.dqs
    modifies g`dm
    ensures g.dm == 0
    ensures Knows(ln, 1, t)
  {
    t := Track(max + 1, max + 1, max + 1, max + 1, 0);
    var d := max;
    while d >= 0
      invariant -1 <= d <= max
      invariant Knows(ln, -d, t)
    {
      g.dm := d;
      var pass := g.Test();
      if pass {
        HitKeeps(ln, -d, t);
        t := Hit(t, -d, max + 1);
      } else {
        MissKeeps(ln, -d, t);
        t := Miss(t, max + 1);
      }
      d := d - 1;
    }
    g.dm := 0;
    if t.endCurr != 0 {
      t := Miss(t, max + 1);
    }
  }

  /** Position 0 counts as tried before the up-sweep starts. */
  function Tried(d: int): int { if d == 0 then 1 else d }

  lemma HitAt(ln: Line, d: int, t: Track)
    requires ln.Valid() && 0 <= d <= ln.Last() && Knows(ln, Tried(d), t) && ln.Pass(d)
    ensures Knows(ln, d + 1, Hit(t, d, ln.Illegal()))
  {
    if d > 0 {
      HitKeeps(ln, d, t);
    } else {
      LongestCoversCurrent(ln, t);
    }
  }

  lemma LongestCoversCurrent(ln: Line, t: Track)
    requires ln.Valid() && Knows(ln, 1, t) && ln.Pass(0)
    ensures Hit(t, 0, ln.Illegal()) == t
  {
    assert ln.Run(t.bgnCurr, 0, 1);
  }

  lemma MissAt(ln: Line, d: int, t: Track)
    requires ln.Valid() && 0 <= d <= ln.Last() && Knows(ln, Tried(d), t) && !ln.Pass(d)
    ensures Knows(ln, d + 1, Miss(t, ln.Illegal()))
  {
    if d > 0 {
      MissKeeps(ln, d, t);
    } else {
      assert ln.Run(t.bgnCurr, 0, 1) ==> ln.Pass(0);
    }
  }

  /** One step of the up-sweep. */
  method TryDqs(g: MaskGroup, ghost ln: Line, max: int, newDqs: int, d: int, t: Track) returns (pass: bool, t': Track)
    requires ln.Valid() && ln.max == max && ln.eye == g.eye && newDqs == ln.dqs && g.dm == 0
    requires 0 <= d <= ln.Last() && Knows(ln, Tried(d), t)
    modifies g`dqs
    ensures pass == ln.Pass(d)
    ensures t' == if pass then Hit(t, d, max + 1) else Miss(t, max + 1)
    ensures Knows(ln, d + 1, t')
  {
    g.dqs := d + newDqs;
    pass := g.Test();
    if pass {
      HitAt(ln, d, t);
      t' := Hit(t, d, max + 1);
    } else {
      MissAt(ln, d, t);
      t' := Miss(t, max + 1);
    }
  }

  /** Up-sweep: DQS delay on from where it is, positions 0..max-dqs. Position 0
      is tried a second time. */
  method SweepDqs(g: MaskGroup, ghost ln: Line, max: int, newDqs: int, t0: Track) returns (t: Track)
    requires ln.Valid() && ln.max == max && ln.eye == g.eye && newDqs == ln.dqs && g.dm == 0
    requires Knows(ln, 1, t0)
    modifies g`dqs
    ensures Found(ln, ln.Last() + 1, t)
  {
    t := t0;
    var d := 0;
    while d <= max - newDqs
      invariant 0 <= d <= ln.Last() + 1
      invariant Knows(ln, Tried(d), t)
    {
      var pass;
      pass, t := TryDqs(g, ln, max, newDqs, d, t);
      if !pass && t.winBest - 1 > max - newDqs - d {
        NothingLongerFollows(ln, d, t);
        return;
      }
      d := d + 1;
    }
  }

  /** There is at most one leftmost longest run. */
  lemma LongestIsUnique(ln: Line, limit: int, b: int, e: int, b': int, e': int)
    requires ln.Longest(b, e, limit) && ln.Longest(b', e', limit)
    ensures b == b' && e == e'
  {
    assert ln.Run(b, e, limit) && ln.Run(b', e', limit);
  }

  /** The mask pin can be centred when the leftmost longest run does not begin
      beyond position 0: only the mask delay is moved. */
  ghost predicate CanCentre(ln: Line) {
    var limit := ln.Last() + 1;
    exists b, e :: ln.Longest(b, e, limit) && b <= 0
  }

  lemma CanCentreIs(ln: Line, t: Track)
    requires Found(ln, ln.Last() + 1, t)
    ensures CanCentre(ln) <==> t.winBest != 0 && t.bgnBest <= 0
  {
    var limit := ln.Last() + 1;
    if CanCentre(ln) {
      var b, e :| ln.Longest(b, e, limit) && b <= 0;
      if t.winBest == 0 {
        PassesInRun(ln, b, e, limit, b);
      } else {
        LongestIsUnique(ln, limit, b, e, t.bgnBest, t.endBest);
      }
    }
  }

  /** Every skew from b to e passes. */
  ghost predicate PassesFromTo(eye: Oracle, b: int, e: int) { forall y :: b <= y <= e ==> eye(y) }

  /** The best window among the skews that the registers can set: DQS from where it is
      up to the maximum, less a mask delay up to the maximum. */
  lemma FoundInSkews(ln: Line, t: Track)
    requires ln.Valid() && Found(ln, ln.Last() + 1, t)
    ensures t.winBest != 0 ==> ln.dqs - ln.max <= ln.dqs + t.bgnBest && ln.dqs + t.endBest <= ln.max
                               && PassesFromTo(ln.eye, ln.dqs + t.bgnBest, ln.dqs + t.endBest)
    ensures forall b, e :: ln.dqs - ln.max <= b <= e <= ln.max && PassesFromTo(ln.eye, b, e) ==>
              e - b + 1 < t.winBest || (e - b + 1 == t.winBest && ln.dqs + t.bgnBest <= b)
  {
    var limit, dqs := ln.Last() + 1, ln.dqs;
    forall b, e | dqs - ln.max <= b <= e <= ln.max && PassesFromTo(ln.eye, b, e)
      ensures e - b + 1 < t.winBest || (e - b + 1 == t.winBest && dqs + t.bgnBest <= b)
    {
      assert ln.Run(b - dqs, e - dqs, limit);
      PassesInRun(ln, b - dqs, e - dqs, limit, b - dqs);
    }
    if t.winBest != 0 {
      forall y | dqs + t.bgnBest <= y <= dqs + t.endBest ensures ln.eye(y) {
        PassesInRun(ln, t.bgnBest, t.endBest, limit, y - dqs);
      }
    }
  }

  /** The whole search and the move to the middle. The window reported is the
      leftmost longest run of passing positions, or none when no position passes.
      The mask pin is accepted exactly when that run does not begin beyond position
      0, and then its delay puts it inside the run, with margins that differ by at
      most one tap unless the run's middle lies beyond position 0. */
  method CentreMask(g: MaskGroup, max: int, ghost ln: Line) returns (dmMargin: int, left: int, right: int, winBest: int)
    requires ln == Line(g.eye, g.dqs, max) && ln.Valid()
    modifies g
    ensures winBest == 0 ==> ln.NoPass(ln.Last() + 1)
    ensures winBest != 0 ==> winBest == right + left + 1 && ln.Longest(-left, right, ln.Last() + 1)
    ensures g.dqs == old(g.dqs) && 0 <= g.dm <= max
    ensures dmMargin >= 0 <==> CanCentre(ln)
    ensures dmMargin >= 0 ==> -left <= -g.dm <= right && g.eye(g.dqs - g.dm)
    ensures winBest != 0 && right <= left ==> -1 <= (right + g.dm) - (left - g.dm) <= 0
    ensures right > left ==> g.dm == 0
    ensures dmMargin == if winBest == 0 then -1 else left - g.dm
    ensures winBest != 0 ==> g.dqs - max <= g.dqs - left && g.dqs + right <= max
                             && PassesFromTo(g.eye, g.dqs - left, g.dqs + right)
    ensures forall b, e :: g.dqs - max <= b <= e <= max && PassesFromTo(g.eye, b, e) ==>
              e - b + 1 < winBest || (e - b + 1 == winBest && g.dqs - left <= b)
  {
    var newDqs := g.dqs;
    var t := SweepDm(g, ln, max);
    t := SweepDqs(g, ln, max, newDqs, t);
    CanCentreIs(ln, t);
    left, right, winBest := -1 * t.bgnBest, t.endBest, t.winBest;
    FoundInSkews(ln, t);
    g.dqs := newDqs;
    var mid := Half(left - right);
    if mid < 0 {
      mid := 0;
    }
    if winBest == 0 {
      dmMargin := -1;
    } else {
      dmMargin := left - mid;
    }
    g.dm := mid;
    if dmMargin >= 0 {
      PassesInRun(ln, -left, right, ln.Last() + 1, -mid);
    }
  }

  /** A mask pin that passes only with one more tap of DQS delay. */
  function OnlyBeyond(x: int): bool { x == 1 }

  /** Its window, with the limits of this build, is found but rejected. */
  lemma BeyondIsRejected()
    ensures var ln := Line(OnlyBeyond, 0, 31);
            ln.Valid() && ln.Longest(1, 1, ln.Last() + 1) && !CanCentre(ln)
  {
    var ln := Line(OnlyBeyond, 0, 31);
    var limit := ln.Last() + 1;
    assert ln.Run(1, 1, limit);
    forall b, e | ln.Run(b, e, limit) ensures b == e == 1 {
      assert ln.Pass(b) && ln.Pass(e);
    }
  }
}
