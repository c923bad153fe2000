/** Both replay programs on the same trace. They write memory in different
    orders: v2 in program order as operations retire, v1 at the moment each
    store completes. This says exactly when they end with the same memory. */
module Agreement {
  import opened Trace
  import Ledger
  import Ring
  import ReplayV1

  /** What a well-behaved trace does: an id is not taken again while its
      operation still misses something, and every RESOLVE brings one field,
      which an open operation with that id is missing. */
  ghost predicate GoodRecord(ops: seq<Entry>, rec: Record) {
    && (rec.IsMemOp() ==> forall n :: 0 <= n < |ops| && ops[n].id == rec.id ==> ops[n].Complete())
    && (rec.IsResolve() ==>
          && rec.vaddrValid != rec.valueValid
          && var i := Ledger.OldestOpen(ops, rec.id, 0);
             && i < |ops|
             && (rec.vaddrValid ==> !ops[i].vaddrValid)
             && (rec.valueValid ==> !ops[i].valueValid))
  }

  ghost predicate GoodTrace(trace: seq<Record>) {
    forall k :: 0 <= k < |trace| ==> GoodRecord(Ledger.Of(trace[..k]), trace[k])
  }

  /** v1 remembers every open operation under its id. */
  ghost predicate PendingMatches(s: ReplayV1.State, ops: seq<Entry>) {
    && s.Valid() && s.issued == |ops|
    && (forall n :: 0 <= n < |ops| && !ops[n].Complete() ==>
          s.pending[ops[n].id].active && s.pending[ops[n].id].AsEntry(ops[n].id) == ops[n])
    && (forall n, m :: 0 <= n < m < |ops| && !ops[n].Complete() && !ops[m].Complete() ==> ops[n].id != ops[m].id)
    && (forall n :: 0 <= n < |ops| ==> ops[n].accessNum == n)
  }

  /** The log holds every completed store once and nothing else. */
  ghost predicate LogsCompletedStores(log: seq<Entry>, ops: seq<Entry>) {
    && (forall k :: 0 <= k < |log| ==>
          log[k].IsStore() && log[k].Complete() && log[k].accessNum < |ops| && ops[log[k].accessNum] == log[k])
    && (forall j, k :: 0 <= j < k < |log| ==> log[j].accessNum != log[k].accessNum)
    && (forall n :: 0 <= n < |ops| && ops[n].IsStore() && ops[n].Complete() ==> ops[n] in log)
  }

  lemma LogAppend(log: seq<Entry>, ops: seq<Entry>, n: nat, e: Entry)
    requires LogsCompletedStores(log, ops) && n <= |ops| && e.accessNum == n
    requires n < |ops| ==> !ops[n].Complete()
    ensures var ops' := if n < |ops| then ops[n := e] else ops + [e];
            LogsCompletedStores(if e.IsStore() && e.Complete() then log + [e] else log, ops')
  {
    var ops' := if n < |ops| then ops[n := e] else ops + [e];
    var log' := if e.IsStore() && e.Complete() then log + [e] else log;
    forall m | 0 <= m < |ops'| && ops'[m].IsStore() && ops'[m].Complete() ensures ops'[m] in log' {
      if m == n {
        assert log'[|log|] == e;
      } else {
        assert ops'[m] == ops[m] && ops[m] in log;
      }
    }
  }

  lemma PendingAfterInsert(s: ReplayV1.State, ops: seq<Entry>, rec: Record)
    requires PendingMatches(s, ops) && rec.IsMemOp() && GoodRecord(ops, rec)
    ensures PendingMatches(ReplayV1.Step(s, rec), Ledger.Step(ops, rec))
    ensures ReplayV1.After(s, rec).AsEntry(rec.id) == NewEntry(rec, |ops|)
  {
  }

  lemma PendingAfterResolve(s: ReplayV1.State, ops: seq<Entry>, rec: Record)
    requires PendingMatches(s, ops) && rec.IsResolve() && GoodRecord(ops, rec)
    ensures PendingMatches(ReplayV1.Step(s, rec), Ledger.Step(ops, rec))
    ensures var i := Ledger.OldestOpen(ops, rec.id, 0);
            ReplayV1.After(s, rec).active && ReplayV1.After(s, rec).AsEntry(rec.id) == ops[i].Fill(rec)
  {
    var i := Ledger.OldestOpen(ops, rec.id, 0);
    assert s.pending[rec.id].AsEntry(rec.id) == ops[i];
    assert forall n :: 0 <= n < |ops| && n != i && !ops[n].Complete() ==> ops[n].id != rec.id;
  }

  /** One record of a well-behaved trace. */
  lemma StepFollows(s: ReplayV1.State, log: seq<Entry>, ops: seq<Entry>, rec: Record)
    requires PendingMatches(s, ops) && LogsCompletedStores(log, ops) && GoodRecord(ops, rec)
    ensures PendingMatches(ReplayV1.Step(s, rec), Ledger.Step(ops, rec))
    ensures LogsCompletedStores(log + ReplayV1.Written(s, rec), Ledger.Step(ops, rec))
  {
    assert log + [] == log;
    if rec.IsMemOp() {
      PendingAfterInsert(s, ops, rec);
      LogAppend(log, ops, |ops|, NewEntry(rec, |ops|));
    } else if rec.IsResolve() {
      PendingAfterResolve(s, ops, rec);
      var i := Ledger.OldestOpen(ops, rec.id, 0);
      LogAppend(log, ops, i, ops[i].Fill(rec));
    }
  }

  lemma {:induction false} V1Follows(trace: seq<Record>)
    requires GoodTrace(trace)
    ensures PendingMatches(ReplayV1.Run(trace), Ledger.Of(trace))
    ensures LogsCompletedStores(ReplayV1.Log(trace), Ledger.Of(trace))
  {
    if trace != [] {
      var before, rec := trace[..|trace|-1], trace[|trace|-1];
      assert forall k :: 0 <= k < |before| ==> before[..k] == trace[..k] && before[k] == trace[k];
      V1Follows(before);
      assert GoodRecord(Ledger.Of(before), rec);
      StepFollows(ReplayV1.Run(before), ReplayV1.Log(before), Ledger.Of(before), rec);
    }
  }

  /** The last store to `a` in v1's log is the youngest one in program order. */
  ghost predicate YoungestLastAt(log: seq<Entry>, a: uint64) {
    forall j :: 0 <= j < LastStore(log, a) && log[j].StoresTo(a) ==>
      log[j].accessNum < log[LastStore(log, a)].accessNum
  }

  ghost predicate YoungestLoggedLast(log: seq<Entry>) {
    forall a: uint64 :: YoungestLastAt(log, a)
  }

  ghost predicate AllComplete(ops: seq<Entry>) {
    forall n :: 0 <= n < |ops| ==> ops[n].accessNum == n && ops[n].Complete()
  }

  lemma SameLastStore(log: seq<Entry>, ops: seq<Entry>, a: uint64)
    requires LogsCompletedStores(log, ops) && AllComplete(ops)
    ensures LastStore(log, a) >= 0 <==> LastStore(ops, a) >= 0
    ensures LastStore(log, a) >= 0 ==>
              (log[LastStore(log, a)].accessNum == LastStore(ops, a) <==> YoungestLastAt(log, a))
  {
    var k, n := LastStore(log, a), LastStore(ops, a);
    if k >= 0 {
      assert ops[log[k].accessNum].StoresTo(a);
    }
    if n >= 0 {
      assert ops[n] in log;
      var p :| 0 <= p < |log| && log[p] == ops[n];
      assert log[p].StoresTo(a);
      forall j | 0 <= j < k && log[j].StoresTo(a) ensures log[j].accessNum <= n {
        assert ops[log[j].accessNum].StoresTo(a);
      }
    }
  }

  /** One address: the two memories agree on it exactly when the last logged
      store to it is its youngest. */
  lemma SameCell(log: seq<Entry>, ops: seq<Entry>, a: uint64)
    requires LogsCompletedStores(log, ops) && AllComplete(ops)
    ensures a in MemoryOf(log) <==> a in MemoryOf(ops)
    ensures a in MemoryOf(log) ==> (MemoryOf(log)[a] == MemoryOf(ops)[a] <==> YoungestLastAt(log, a))
    ensures a !in MemoryOf(log) ==> YoungestLastAt(log, a)
  {
    SameLastStore(log, ops, a);
    MemoryIsLastStore(log, a);
    MemoryIsLastStore(ops, a);
  }

  lemma SameMemory(log: seq<Entry>, ops: seq<Entry>)
    requires LogsCompletedStores(log, ops) && AllComplete(ops)
    ensures MemoryOf(log) == MemoryOf(ops) <==> YoungestLoggedLast(log)
  {
    forall a: uint64
      ensures a in MemoryOf(log) <==> a in MemoryOf(ops)
      ensures a in MemoryOf(log) ==> (MemoryOf(log)[a] == MemoryOf(ops)[a] <==> YoungestLastAt(log, a))
      ensures a !in MemoryOf(log) ==> YoungestLastAt(log, a)
    {
      SameCell(log, ops, a);
    }
  }

  // ------------------------------------------------- Completion in the trace

  ghost predicate Done(ops: seq<Entry>, n: nat) { n < |ops| && ops[n].Complete() }

  /** After k records of the trace operation n has its address and its value. */
  ghost predicate CompleteAfter(trace: seq<Record>, n: nat, k: nat) {
    k <= |trace| && Done(Ledger.Of(trace[..k]), n)
  }

  /** At some point of the trace operation m is complete and n is not. */
  ghost predicate CompletesBefore(trace: seq<Record>, m: nat, n: nat) {
    exists k: nat :: k <= |trace| && CompleteAfter(trace, m, k) && !CompleteAfter(trace, n, k)
  }

  lemma PrefixRefines(trace: seq<Record>, j: nat, k: nat)
    requires j <= k <= |trace|
    ensures Ledger.Refines(Ledger.Of(trace[..k]), Ledger.Of(trace[..j]))
  {
    var more := trace[j..k];
    assert trace[..j] + more == trace[..k];
    Ledger.OfSplit(trace[..j], more);
    Ledger.ExtendRefines(Ledger.Of(trace[..j]), more);
  }

  lemma DoneStays(late: seq<Entry>, early: seq<Entry>, n: nat)
    requires Ledger.Refines(late, early) && Done(early, n)
    ensures Done(late, n)
  {
  }

  lemma StaysComplete(trace: seq<Record>, n: nat, j: nat, k: nat)
    requires CompleteAfter(trace, n, j) && j <= k <= |trace|
    ensures CompleteAfter(trace, n, k)
  {
    PrefixRefines(trace, j, k);
    DoneStays(Ledger.Of(trace[..k]), Ledger.Of(trace[..j]), n);
  }

  lemma CompletesBeforeIsOneWay(trace: seq<Record>, m: nat, n: nat)
    requires CompletesBefore(trace, m, n)
    ensures !CompletesBefore(trace, n, m)
  {
    var k: nat :| k <= |trace| && CompleteAfter(trace, m, k) && !CompleteAfter(trace, n, k);
    if CompletesBefore(trace, n, m) {
      var j: nat :| j <= |trace| && CompleteAfter(trace, n, j) && !CompleteAfter(trace, m, j);
      if j <= k {
        StaysComplete(trace, n, j, k);
      } else {
        StaysComplete(trace, m, k, j);
      }
    }
  }

  /** A store that is logged only now was not complete before. */
  lemma NotDoneBefore(shorter: seq<Entry>, early: seq<Entry>, log: seq<Entry>, late: seq<Entry>, j: nat)
    requires LogsCompletedStores(shorter, early) && LogsCompletedStores(log, late)
    requires shorter <= log && |shorter| <= j < |log| && Ledger.Refines(late, early)
    ensures !Done(early, log[j].accessNum)
  {
    assert late[log[j].accessNum] == log[j];
  }

  lemma LoggedWhenCompleted(before: seq<Record>, rec: Record, i: nat, j: nat)
    requires GoodTrace(before) && GoodTrace(before + [rec])
    requires i < |ReplayV1.Log(before)| <= j < |ReplayV1.Log(before + [rec])|
    ensures var log := ReplayV1.Log(before + [rec]);
            CompletesBefore(before + [rec], log[i].accessNum, log[j].accessNum)
  {
    var trace := before + [rec];
    var log, early := ReplayV1.Log(trace), Ledger.Of(before);
    assert trace[..|before|] == before && trace[..|trace|] == trace;
    ReplayV1.RunAppend(before, rec);
    V1Follows(before);
    V1Follows(trace);
    PrefixRefines(trace, |before|, |trace|);
    NotDoneBefore(ReplayV1.Log(before), early, log, Ledger.Of(trace), j);
    assert log[i] == ReplayV1.Log(before)[i];
    assert Done(early, log[i].accessNum);
    assert CompleteAfter(trace, log[i].accessNum, |before|) && !CompleteAfter(trace, log[j].accessNum, |before|);
  }

  lemma PrefixCompletesBefore(before: seq<Record>, rec: Record, m: nat, n: nat)
    requires CompletesBefore(before, m, n)
    ensures CompletesBefore(before + [rec], m, n)
  {
    var k: nat :| k <= |before| && CompleteAfter(before, m, k) && !CompleteAfter(before, n, k);
    assert (before + [rec])[..k] == before[..k];
    assert CompleteAfter(before + [rec], m, k) && !CompleteAfter(before + [rec], n, k);
  }

  lemma GoodPrefix(before: seq<Record>, rec: Record)
    requires GoodTrace(before + [rec])
    ensures GoodTrace(before)
  {
    var trace := before + [rec];
    assert forall k :: 0 <= k < |before| ==> before[..k] == trace[..k] && before[k] == trace[k];
  }

  /** v1's log is in the order in which stores complete in the trace. */
  lemma {:induction false} LogInCompletionOrder(trace: seq<Record>, i: nat, j: nat)
    requires GoodTrace(trace) && i < j < |ReplayV1.Log(trace)|
    ensures var log := ReplayV1.Log(trace); CompletesBefore(trace, log[i].accessNum, log[j].accessNum)
  {
    var before, rec := trace[..|trace|-1], trace[|trace|-1];
    assert trace == before + [rec];
    GoodPrefix(before, rec);
    ReplayV1.RunAppend(before, rec);
    if j < |ReplayV1.Log(before)| {
      LogInCompletionOrder(before, i, j);
      PrefixCompletesBefore(before, rec, ReplayV1.Log(before)[i].accessNum, ReplayV1.Log(before)[j].accessNum);
    } else {
      LoggedWhenCompleted(before, rec, i, j);
    }
  }

  ghost predicate StoresToSame(ops: seq<Entry>, m: nat, n: nat) {
    m < n < |ops| && ops[m].IsStore() && ops[n].StoresTo(ops[m].vaddr)
  }

  /** No store to its address follows operation n. */
  ghost predicate IsYoungest(ops: seq<Entry>, n: nat) {
    n < |ops| && ops[n].IsStore() && LastStore(ops, ops[n].vaddr) == n
  }

  /** At every address the youngest store is the last to complete. */
  ghost predicate YoungestCompletesLast(trace: seq<Record>) {
    var ops := Ledger.Of(trace);
    forall m: nat, n: nat :: StoresToSame(ops, m, n) && IsYoungest(ops, n) ==> CompletesBefore(trace, m, n)
  }

  /** Stores to one address complete in program order. */
  ghost predicate CompletesInOrder(trace: seq<Record>) {
    forall m: nat, n: nat :: StoresToSame(Ledger.Of(trace), m, n) ==> CompletesBefore(trace, m, n)
  }

  lemma LogPosition(log: seq<Entry>, ops: seq<Entry>, n: nat) returns (p: nat)
    requires LogsCompletedStores(log, ops) && AllComplete(ops) && n < |ops| && ops[n].IsStore()
    ensures p < |log| && log[p] == ops[n] && log[p].accessNum == n && p <= LastStore(log, ops[n].vaddr)
  {
    assert ops[n] in log;
    p :| 0 <= p < |log| && log[p] == ops[n];
    assert log[p].StoresTo(ops[n].vaddr);
  }

  /** When the last store logged to each address is its youngest, an older one was
      logged before it. */
  lemma OlderLoggedEarlier(log: seq<Entry>, ops: seq<Entry>, m: nat, n: nat) returns (p: nat, l: nat)
    requires LogsCompletedStores(log, ops) && AllComplete(ops) && YoungestLoggedLast(log)
    requires StoresToSame(ops, m, n) && IsYoungest(ops, n)
    ensures p < l < |log| && log[p].accessNum == m && log[l].accessNum == n
  {
    var a := ops[n].vaddr;
    SameLastStore(log, ops, a);
    assert YoungestLastAt(log, a);
    p := LogPosition(log, ops, m);
    l := LastStore(log, a);
  }

  lemma YoungestLoggedCompletesLast(trace: seq<Record>, m: nat, n: nat)
    requires GoodTrace(trace) && AllComplete(Ledger.Of(trace)) && YoungestLoggedLast(ReplayV1.Log(trace))
    requires StoresToSame(Ledger.Of(trace), m, n) && IsYoungest(Ledger.Of(trace), n)
    ensures CompletesBefore(trace, m, n)
  {
    V1Follows(trace);
    var p, l := OlderLoggedEarlier(ReplayV1.Log(trace), Ledger.Of(trace), m, n);
    LogInCompletionOrder(trace, p, l);
  }

  /** When the last store logged to an address is not its youngest, the youngest
      was logged before it. */
  lemma YoungestLoggedEarlier(log: seq<Entry>, ops: seq<Entry>, a: uint64) returns (p: nat, l: nat)
    requires LogsCompletedStores(log, ops) && AllComplete(ops) && !YoungestLastAt(log, a)
    ensures p < l < |log|
    ensures StoresToSame(ops, log[l].accessNum, log[p].accessNum) && IsYoungest(ops, log[p].accessNum)
  {
    SameLastStore(log, ops, a);
    l := LastStore(log, a);
    p := LogPosition(log, ops, LastStore(ops, a));
    assert ops[log[l].accessNum] == log[l];
    assert ops[log[l].accessNum].StoresTo(a);
  }

  lemma YoungestCompletesLastIsLogged(trace: seq<Record>, a: uint64)
    requires GoodTrace(trace) && AllComplete(Ledger.Of(trace)) && YoungestCompletesLast(trace)
    ensures YoungestLastAt(ReplayV1.Log(trace), a)
  {
    var log := ReplayV1.Log(trace);
    V1Follows(trace);
    if !YoungestLastAt(log, a) {
      var p, l := YoungestLoggedEarlier(log, Ledger.Of(trace), a);
      LogInCompletionOrder(trace, p, l);
      CompletesBeforeIsOneWay(trace, log[p].accessNum, log[l].accessNum);
    }
  }

  lemma LogOrderIsCompletionOrder(trace: seq<Record>)
    requires GoodTrace(trace) && AllComplete(Ledger.Of(trace))
    ensures YoungestLoggedLast(ReplayV1.Log(trace)) <==> YoungestCompletesLast(trace)
  {
    if YoungestLoggedLast(ReplayV1.Log(trace)) {
      forall m: nat, n: nat | StoresToSame(Ledger.Of(trace), m, n) && IsYoungest(Ledger.Of(trace), n)
        ensures CompletesBefore(trace, m, n)
      {
        YoungestLoggedCompletesLast(trace, m, n);
      }
    }
    if YoungestCompletesLast(trace) {
      forall a: uint64 ensures YoungestLastAt(ReplayV1.Log(trace), a) {
        YoungestCompletesLastIsLogged(trace, a);
      }
    }
  }

  lemma SameMemoryByLog(trace: seq<Record>)
    requires GoodTrace(trace) && Ring.NeverFull(trace) && Ring.Run(trace).Empty()
    ensures AllComplete(Ledger.Of(trace))
    ensures ReplayV1.Run(trace).mem == Ring.Run(trace).mem <==> YoungestLoggedLast(ReplayV1.Log(trace))
  {
    var ops := Ledger.Of(trace);
    V1Follows(trace);
    Ring.RunRepresents(trace);
    Ring.EmptyMeansAllRetired(Ring.Run(trace), ops);
    ReplayV1.LogExplainsMemory(trace);
    SameMemory(ReplayV1.Log(trace), ops);
  }

  /** v1 and v2 end with the same memory, values and access numbers included, if
      and only if at every address the youngest store is the last to complete in
      the trace. */
  lemma SameFinalMemory(trace: seq<Record>)
    requires GoodTrace(trace) && Ring.NeverFull(trace) && Ring.Run(trace).Empty()
    ensures ReplayV1.Run(trace).mem == Ring.Run(trace).mem <==> YoungestCompletesLast(trace)
  {
    SameMemoryByLog(trace);
    LogOrderIsCompletionOrder(trace);
  }

  lemma InOrderAgrees(trace: seq<Record>)
    requires GoodTrace(trace) && Ring.NeverFull(trace) && Ring.Run(trace).Empty()
    requires CompletesInOrder(trace)
    ensures ReplayV1.Run(trace).mem == Ring.Run(trace).mem
  {
    SameFinalMemory(trace);
  }

  // ------------------------------------------------------------- Disagreement

  /** Two stores to one address, the older one missing its value until after
      the younger one is complete. */
  function Overtaken(a: uint64, slow: uint64, quick: uint64): seq<Record> {
    [Record(OP_MEM_STORE, 0, a, true, 0, false),
     Record(OP_MEM_STORE, 1, a, true, quick, true),
     Record(OP_MEM_RESOLVE, 0, 0, false, slow, true)]
  }

  lemma OvertakenLedger(a: uint64, slow: uint64, quick: uint64)
    ensures var t := Overtaken(a, slow, quick);
            && Ledger.Of(t[..0]) == []
            && Ledger.Of(t[..1]) == [Entry(OP_MEM_STORE, 0, a, true, 0, false, 0)]
            && Ledger.Of(t[..2]) == Ledger.Of(t[..1]) + [Entry(OP_MEM_STORE, 1, a, true, quick, true, 1)]
            && Ledger.Of(t) == [Entry(OP_MEM_STORE, 0, a, true, slow, true, 0),
                                Entry(OP_MEM_STORE, 1, a, true, quick, true, 1)]
            && t[..3] == t
  {
    var t := Overtaken(a, slow, quick);
    assert t[..1] == t[..0] + [t[0]] && t[..2] == t[..1] + [t[1]] && t == t[..2] + [t[2]];
    Ledger.OfAppend(t[..0], t[0]);
    Ledger.OfAppend(t[..1], t[1]);
    Ledger.OfAppend(t[..2], t[2]);
    Ledger.OldestOpenIs(Ledger.Of(t[..2]), 0, 0, 0);
  }

  lemma OvertakenLog(a: uint64, slow: uint64, quick: uint64)
    ensures ReplayV1.Log(Overtaken(a, slow, quick)) ==
            [Entry(OP_MEM_STORE, 1, a, true, quick, true, 1), Entry(OP_MEM_STORE, 0, a, true, slow, true, 0)]
  {
    var t := Overtaken(a, slow, quick);
    assert t[..1] == t[..0] + [t[0]] && t[..2] == t[..1] + [t[1]] && t == t[..2] + [t[2]];
    ReplayV1.RunAppend(t[..0], t[0]);
    ReplayV1.RunAppend(t[..1], t[1]);
    ReplayV1.RunAppend(t[..2], t[2]);
  }

  /** The condition matters: for every address and every pair of values this
      well-behaved trace leaves the two programs with different memories. */
  lemma OvertakingDisagrees(a: uint64, slow: uint64, quick: uint64)
    ensures var t := Overtaken(a, slow, quick);
            && GoodTrace(t) && Ring.NeverFull(t) && Ring.Run(t).Empty()
            && ReplayV1.Run(t).mem != Ring.Run(t).mem
  {
    var t := Overtaken(a, slow, quick);
    OvertakenLedger(a, slow, quick);
    OvertakenLog(a, slow, quick);
    assert GoodRecord(Ledger.Of(t[..0]), t[0]);
    assert GoodRecord(Ledger.Of(t[..1]), t[1]);
    assert GoodRecord(Ledger.Of(t[..2]), t[2]) by {
      Ledger.OldestOpenIs(Ledger.Of(t[..2]), 0, 0, 0);
    }
    forall k | 0 <= k <= |t| ensures Ledger.Outstanding(Ledger.Of(t[..k])) < Ring.LSQ_QUEUE_SIZE {
      assert k == 0 || k == 1 || k == 2 || k == 3;
    }
    Ledger.ReadyAtLeast(Ledger.Of(t), 2);
    Ring.RunRepresents(t);
    SameMemoryByLog(t);
    var log := ReplayV1.Log(t);
    assert log[0].StoresTo(a) && log[1].StoresTo(a);
    assert !YoungestLastAt(log, a);
  }
}
