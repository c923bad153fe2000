/** The calibration of all groups, with and without sweeping on after a failure. */
module CalibrateAll {

  /** What the stages would answer, and which groups are skipped. A write group
      has `dqs` read groups and one bit each in the skip mask. */
  datatype Board = Board(groups: nat, dqs: nat, regs: nat,
                         skip: seq<bool>, skipReg: seq<bool>,
                         vfifo: nat -> bool, writes: (nat, nat) -> bool, vfifoEnd: nat -> bool, lfifo: bool)
  {
    ghost predicate Valid() { groups * dqs <= |skip| && |skipReg| == regs }

    /** Some read group of the write group is not skipped. */
    ghost predicate IsRun(g: nat)
      requires Valid()
    {
      exists k :: g * dqs <= k < (g + 1) * dqs && k < |skip| && !skip[k]
    }

    /** All stages of a write group answer success. */
    ghost predicate GroupPasses(g: nat)
      requires Valid()
    {
      && AllOf(vfifo, g * dqs, (g + 1) * dqs)
      && WritesPass(g, regs)
      && AllOf(vfifoEnd, g * dqs, (g + 1) * dqs)
    }

    ghost predicate WritesPass(g: nat, n: nat)
      requires Valid() && n <= regs
    {
      forall r :: 0 <= r < n && !skipReg[r] ==> writes(r, g)
    }

    ghost predicate AllPass(n: nat)
      requires Valid()
    {
      forall g :: 0 <= g < n && IsRun(g) ==> GroupPasses(g)
    }

    /** What calibration is for. */
    ghost predicate Calibrates()
      requires Valid()
    {
      AllPass(groups) && (true !in skip ==> lfifo)
    }
  }

  ghost predicate AllOf(f: nat -> bool, a: nat, b: nat) {
    forall k :: a <= k < b ==> f(k)
  }

  /** The first n write groups, without those skipped. */
  ghost function NotSkipped(board: Board, n: nat): seq<nat>
    requires board.Valid()
  {
    if n == 0 then [] else NotSkipped(board, n - 1) + if board.IsRun(n - 1) then [n - 1] else []
  }

  method AnyRun(board: Board, g: nat) returns (run: bool)
    requires board.Valid() && g < board.groups
    ensures run <==> board.IsRun(g)
  {
    run := false;
    var k := g * board.dqs;
    Bound(g, board.groups, board.dqs);
    while k < (g + 1) * board.dqs
      invariant g * board.dqs <= k <= (g + 1) * board.dqs <= |board.skip|
      invariant run <==> exists j :: g * board.dqs <= j < k && !board.skip[j]
    {
      run := run || !board.skip[k];
      k := k + 1;
    }
  }

  /** A read stage over the read groups from a to b, up to a failure. */
  method ReadStage(stage: nat -> bool, a: nat, b: nat) returns (failed: bool)
    ensures failed <==> !AllOf(stage, a, b)
  {
    failed := false;
    var k := a;
    while k < b && !failed
      invariant a <= k
      invariant if failed then exists j :: a <= j < b && !stage(j) else AllOf(stage, a, k)
      decreases b - k
    {
      failed := !stage(k);
      k := k + 1;
    }
  }

  /** The write stage over the shadow register sets. Without sweeping it stops
      at a failure. */
  method WriteStage(board: Board, sweep: bool, g: nat) returns (failed: bool)
    requires board.Valid()
    ensures failed <==> !board.WritesPass(g, board.regs)
  {
    failed := false;
    var r: nat := 0;
    while r < board.regs
      invariant r <= board.regs && (failed <==> !board.WritesPass(g, r))
    {
      if !board.skipReg[r] && !board.writes(r, g) {
        failed := true;
        if !sweep {
          return;
        }
      }
      r := r + 1;
    }
  }

  method CalibrateGroup(board: Board, sweep: bool, g: nat) returns (failed: bool)
    requires board.Valid()
    ensures failed <==> !board.GroupPasses(g)
  {
    failed := ReadStage(board.vfifo, g * board.dqs, (g + 1) * board.dqs);
    if !failed {
      failed := WriteStage(board, sweep, g);
    }
    if !failed {
      failed := ReadStage(board.vfifoEnd, g * board.dqs, (g + 1) * board.dqs);
    }
  }

  /** The groups, until the first failing one unless sweeping. */
  method CalibrateGroups(board: Board, sweep: bool)
    returns (failingGroups: nat, ghost attempted: seq<nat>, ghost n: nat)
    requires board.Valid()
    ensures failingGroups == 0 <==> board.AllPass(board.groups)
    ensures n <= board.groups && attempted == NotSkipped(board, n)
    ensures sweep || failingGroups == 0 ==> n == board.groups
    ensures !sweep && failingGroups > 0 ==> n > 0 && board.AllPass(n - 1) && !board.AllPass(n)
  {
    failingGroups, attempted, n := 0, [], 0;
    var g: nat := 0;
    while g < board.groups
      invariant g <= board.groups && n == g && (failingGroups == 0 <==> board.AllPass(g))
      invariant attempted == NotSkipped(board, g)
      invariant !sweep ==> failingGroups == 0
    {
      var run := AnyRun(board, g);
      if run {
        attempted := attempted + [g];
        var failed := CalibrateGroup(board, sweep, g);
        if failed {
          failingGroups := failingGroups + 1;
          if !sweep {
            n := g + 1;
            return;
          }
        }
      }
      g, n := g + 1, g + 1;
    }
  }

  /** The verdict does not depend on sweeping; which groups are attempted does:
      all that are not skipped, or those up to the first failing one. */
  method MemCalibrate(board: Board, sweep: bool) returns (ok: bool, ghost attempted: seq<nat>, ghost n: nat)
    requires board.Valid()
    ensures ok <==> board.Calibrates()
    ensures n <= board.groups && attempted == NotSkipped(board, n)
    ensures sweep || board.AllPass(board.groups) ==> n == board.groups
    ensures !sweep && !board.AllPass(board.groups) ==> n > 0 && board.AllPass(n - 1) && !board.AllPass(n)
  {
    var failingGroups;
    failingGroups, attempted, n := CalibrateGroups(board, sweep);
    if failingGroups != 0 {
      return false, attempted, n;
    }
    if true !in board.skip && !board.lfifo {
      return false, attempted, n;
    }
    ok := true;
  }

  /** Read group k belongs to write group g. */
  predicate InGroup(dqs: nat, g: nat, k: nat) { g * dqs <= k < (g + 1) * dqs }

  /** Its bit in the skip mask is clear. */
  predicate IsClear(board: Board, g: nat, j: nat) { InGroup(board.dqs, g, j) && j < |board.skip| && !board.skip[j] }

  /** Every read group of a write group with a clear bit passes both read stages. */
  ghost predicate ReadGroupsPass(board: Board) {
    forall g: nat, j: nat, k: nat :: g < board.groups && IsClear(board, g, j) && InGroup(board.dqs, g, k) ==>
      board.vfifo(k) && board.vfifoEnd(k)
  }

  /** Every write group with a clear bit passes the write stage in every register set
      that is not skipped. */
  ghost predicate WriteGroupsPass(board: Board)
    requires board.Valid()
  {
    forall g: nat, j: nat, r: nat :: g < board.groups && IsClear(board, g, j) && r < board.regs ==>
      board.skipReg[r] || board.writes(r, g)
  }

  lemma RunIsClear(board: Board, g: nat)
    requires board.Valid() && g < board.groups
    ensures board.IsRun(g) <==> exists j: nat :: IsClear(board, g, j)
  {
    if k: nat :| IsClear(board, g, k) {
      assert !board.skip[k];
    }
    if k :| g * board.dqs <= k < (g + 1) * board.dqs && k < |board.skip| && !board.skip[k] {
      assert IsClear(board, g, k);
    }
  }

  lemma GroupInFull(board: Board, g: nat)
    requires board.Valid() && g < board.groups
    ensures board.GroupPasses(g) <==>
      && (forall k: nat :: InGroup(board.dqs, g, k) ==> board.vfifo(k) && board.vfifoEnd(k))
      && (forall r :: 0 <= r < board.regs ==> board.skipReg[r] || board.writes(r, g))
  {
    forall k: nat ensures InGroup(board.dqs, g, k) <==> g * board.dqs <= k < (g + 1) * board.dqs {
    }
  }

  lemma AllPassInFull(board: Board)
    requires board.Valid()
    ensures board.AllPass(board.groups) <==> ReadGroupsPass(board) && WriteGroupsPass(board)
  {
    if board.AllPass(board.groups) {
      forall g: nat, j: nat | g < board.groups && IsClear(board, g, j) ensures board.GroupPasses(g) {
        RunIsClear(board, g);
      }
      forall g: nat, j: nat, k: nat | g < board.groups && IsClear(board, g, j) && InGroup(board.dqs, g, k)
        ensures board.vfifo(k) && board.vfifoEnd(k)
      {
        GroupInFull(board, g);
      }
      forall g: nat, j: nat, r: nat | g < board.groups && IsClear(board, g, j) && r < board.regs
        ensures board.skipReg[r] || board.writes(r, g)
      {
        GroupInFull(board, g);
      }
    }
    if ReadGroupsPass(board) && WriteGroupsPass(board) {
      forall g: nat | g < board.groups && board.IsRun(g) ensures board.GroupPasses(g) {
        RunIsClear(board, g);
        var j: nat :| IsClear(board, g, j);
        GroupInFull(board, g);
      }
    }
  }

  /** The verdict in terms of the stages: read and write groups pass, and the LFIFO if no
      bit of the mask is set. */
  lemma CalibratesInFull(board: Board)
    requires board.Valid()
    ensures board.Calibrates() <==>
      && ReadGroupsPass(board) && WriteGroupsPass(board)
      && ((forall j :: 0 <= j < |board.skip| ==> !board.skip[j]) ==> board.lfifo)
  {
    AllPassInFull(board);
    assert true in board.skip <==> exists j :: 0 <= j < |board.skip| && board.skip[j];
  }

  lemma {:induction false} NotSkippedIs(board: Board, n: nat)
    requires board.Valid() && n <= board.groups
    ensures var s := NotSkipped(board, n);
            && (forall g: nat :: g in s <==> g < n && board.IsRun(g))
            && (forall i, j :: 0 <= i < j < |s| ==> s[i] < s[j])
  {
    if n > 0 {
      NotSkippedIs(board, n - 1);
      var before := NotSkipped(board, n - 1);
      assert forall i :: 0 <= i < |before| ==> before[i] in before;
    }
  }

  /** The groups attempted are those with a clear bit, in increasing order. */
  lemma AttemptedInFull(board: Board, n: nat)
    requires board.Valid() && n <= board.groups
    ensures forall g: nat :: g in NotSkipped(board, n) <==> g < n && exists j: nat :: IsClear(board, g, j)
    ensures var s := NotSkipped(board, n); forall i, j :: 0 <= i < j < |s| ==> s[i] < s[j]
  {
    NotSkippedIs(board, n);
    forall g: nat | g < n ensures board.IsRun(g) <==> exists j: nat :: IsClear(board, g, j) {
      RunIsClear(board, g);
    }
  }

  lemma Bound(g: nat, n: nat, x: nat)
    requires g < n
    ensures g * x <= (g + 1) * x <= n * x
  {
  }
}
