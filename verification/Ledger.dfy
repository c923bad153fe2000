/** The reference machine for the v2 replay: a ledger of every memory operation
    of the trace in program order, each holding what is known about it so far.
    There is no queue, no ring and no commit loop. The architectural memory is
    read off the ledger: it is what the longest fully known prefix of program
    order writes. */
module Ledger {
  import opened Trace

  /** The oldest entry at or after `from` that still misses a field and has
      this id; the length of the ledger when there is none. */
  function OldestOpen(ops: seq<Entry>, id: Id, from: nat): (i: nat)
    requires from <= |ops|
    ensures from <= i <= |ops|
    ensures i < |ops| ==> ops[i].id == id && !ops[i].Complete()
    ensures forall k :: from <= k < i ==> ops[k].id != id || ops[k].Complete()
    decreases |ops| - from
  {
    if from == |ops| || (ops[from].id == id && !ops[from].Complete()) then from
    else OldestOpen(ops, id, from + 1)
  }

  lemma {:induction false} OldestOpenIs(ops: seq<Entry>, id: Id, from: nat, i: nat)
    requires from <= i <= |ops|
    requires i < |ops| ==> ops[i].id == id && !ops[i].Complete()
    requires forall k :: from <= k < i ==> ops[k].id != id || ops[k].Complete()
    ensures OldestOpen(ops, id, from) == i
    decreases i - from
  {
    if from < i {
      OldestOpenIs(ops, id, from + 1, i);
    }
  }

  function Step(ops: seq<Entry>, rec: Record): seq<Entry> {
    if rec.IsMemOp() then ops + [NewEntry(rec, |ops|)]
    else if rec.IsResolve() then
      var i := OldestOpen(ops, rec.id, 0);
      if i < |ops| then ops[i := ops[i].Fill(rec)] else ops
    else ops
  }

  /** The ledger after further records. */
  function Extend(ops: seq<Entry>, recs: seq<Record>): seq<Entry>
    decreases |recs|
  {
    if recs == [] then ops else Extend(Step(ops, recs[0]), recs[1..])
  }

  lemma ExtendCons(ops: seq<Entry>, rec: Record, recs: seq<Record>)
    ensures Extend(ops, [rec] + recs) == Extend(Step(ops, rec), recs)
  {
    assert ([rec] + recs)[1..] == recs;
  }

  /** The ledger of a whole trace. */
  function Of(trace: seq<Record>): seq<Entry> {
    if trace == [] then [] else Step(Of(trace[..|trace|-1]), trace[|trace|-1])
  }

  lemma OfAppend(trace: seq<Record>, rec: Record)
    ensures Of(trace + [rec]) == Step(Of(trace), rec)
  {
    assert (trace + [rec])[..|trace|] == trace;
  }

  /** Length of the longest prefix of program order that is fully known. */
  function Ready(ops: seq<Entry>): (n: nat)
    ensures n <= |ops|
    ensures forall k :: 0 <= k < n ==> ops[k].Complete()
    ensures n < |ops| ==> !ops[n].Complete()
  {
    FirstOpen(ops, 0)
  }

  function FirstOpen(ops: seq<Entry>, from: nat): (n: nat)
    requires from <= |ops|
    ensures from <= n <= |ops|
    ensures forall k :: from <= k < n ==> ops[k].Complete()
    ensures n < |ops| ==> !ops[n].Complete()
    decreases |ops| - from
  {
    if from == |ops| || !ops[from].Complete() then from else FirstOpen(ops, from + 1)
  }

  /** Operations that the queue still has to hold. */
  function Outstanding(ops: seq<Entry>): nat { |ops| - Ready(ops) }

  function Architectural(ops: seq<Entry>): Memory { MemoryOf(ops[..Ready(ops)]) }

  lemma ReadyAtLeast(ops: seq<Entry>, n: nat)
    requires n <= |ops|
    requires forall k :: 0 <= k < n ==> ops[k].Complete()
    ensures n <= Ready(ops)
  {
  }

  lemma ReadyIs(ops: seq<Entry>, n: nat)
    requires n <= |ops|
    requires forall k :: 0 <= k < n ==> ops[k].Complete()
    requires n < |ops| ==> !ops[n].Complete()
    ensures Ready(ops) == n
  {
    ReadyAtLeast(ops, n);
  }

  /** The n-th entry is the n-th LOAD or STORE of the trace. */
  function MemOps(trace: seq<Record>): seq<Record> {
    if trace == [] then []
    else
      var before := MemOps(trace[..|trace|-1]);
      if trace[|trace|-1].IsMemOp() then before + [trace[|trace|-1]] else before
  }

  ghost predicate InProgramOrder(ops: seq<Entry>, memOps: seq<Record>) {
    && |ops| == |memOps|
    && forall n :: 0 <= n < |ops| ==>
         ops[n].accessNum == n && ops[n].op == memOps[n].op && ops[n].id == memOps[n].id
  }

  /** Access numbers are positions in program order, never reused or skipped. */
  lemma {:induction false} LedgerInProgramOrder(trace: seq<Record>)
    ensures InProgramOrder(Of(trace), MemOps(trace))
  {
    if trace != [] {
      LedgerInProgramOrder(trace[..|trace|-1]);
    }
  }

  /** Searching from the oldest unretired operation finds the same entry. */
  lemma ResolveSkipsReady(ops: seq<Entry>, rec: Record)
    requires rec.IsResolve()
    ensures var i := OldestOpen(ops, rec.id, Ready(ops));
            Step(ops, rec) == if i < |ops| then ops[i := ops[i].Fill(rec)] else ops
  {
    OldestOpenIs(ops, rec.id, 0, OldestOpen(ops, rec.id, Ready(ops)));
  }

  /** Later knowledge: nothing disappears, nothing already complete changes. */
  ghost predicate Refines(later: seq<Entry>, earlier: seq<Entry>) {
    && |earlier| <= |later|
    && forall n :: 0 <= n < |earlier| ==>
         && later[n].op == earlier[n].op
         && later[n].id == earlier[n].id
         && later[n].accessNum == earlier[n].accessNum
         && (earlier[n].vaddrValid ==> later[n].vaddrValid)
         && (earlier[n].valueValid ==> later[n].valueValid)
         && (earlier[n].Complete() ==> later[n] == earlier[n])
  }

  lemma StepRefines(ops: seq<Entry>, rec: Record)
    ensures Refines(Step(ops, rec), ops)
  {
  }

  /** A record never un-retires anything, and it can only retire what is
      behind the oldest open entry by completing that entry. */
  lemma StepKeepsReady(ops: seq<Entry>, rec: Record)
    ensures Ready(ops) <= Ready(Step(ops, rec))
    ensures Step(ops, rec)[..Ready(ops)] == ops[..Ready(ops)]
    ensures rec.IsMemOp() && Ready(ops) < |ops| ==> Ready(Step(ops, rec)) == Ready(ops)
  {
    var next := Step(ops, rec);
    ReadyAtLeast(next, Ready(ops));
    if rec.IsMemOp() && Ready(ops) < |ops| {
      ReadyIs(next, Ready(ops));
    }
  }

  lemma {:induction false} ExtendRefines(ops: seq<Entry>, recs: seq<Record>)
    ensures Refines(Extend(ops, recs), ops)
    decreases |recs|
  {
    if recs != [] {
      StepRefines(ops, recs[0]);
      ExtendRefines(Step(ops, recs[0]), recs[1..]);
    }
  }

  lemma {:induction false} OfSplit(before: seq<Record>, recs: seq<Record>)
    ensures Of(before + recs) == Extend(Of(before), recs)
    decreases |recs|
  {
    if recs == [] {
      assert before + recs == before;
    } else {
      var next := before + [recs[0]];
      assert next[..|next|-1] == before;
      assert next + recs[1..] == before + recs;
      OfSplit(next, recs[1..]);
    }
  }

  /** The committed operations of a trace are a prefix of those of any longer
      trace, entry for entry: once retired, an operation is never revised. */
  lemma RetiredIsStable(before: seq<Record>, recs: seq<Record>)
    ensures var early, late := Of(before), Of(before + recs);
            && Ready(early) <= Ready(late)
            && early[..Ready(early)] == late[..Ready(early)]
  {
    var early, late := Of(before), Of(before + recs);
    OfSplit(before, recs);
    ExtendRefines(early, recs);
    ReadyAtLeast(late, Ready(early));
  }

  /** The architectural memory in terms of the trace alone: an address is
      present exactly when a committed store of the trace writes it, and it
      holds the value and the program-order number of the youngest one. */
  lemma LastWriterWins(trace: seq<Record>, a: uint64)
    ensures var ops := Of(trace);
            var m := Architectural(ops);
            && (a in m <==> exists n :: 0 <= n < Ready(ops) && ops[n].StoresTo(a))
            && (a in m ==>
                  && m[a].lastAccess < Ready(ops)
                  && ops[m[a].lastAccess].StoresTo(a)
                  && ops[m[a].lastAccess].value == m[a].value
                  && forall n :: m[a].lastAccess < n < Ready(ops) ==> !ops[n].StoresTo(a))
  {
    var ops := Of(trace);
    var done := ops[..Ready(ops)];
    LedgerInProgramOrder(trace);
    MemoryIsLastStore(done, a);
    if n :| 0 <= n < Ready(ops) && ops[n].StoresTo(a) {
      assert done[n].StoresTo(a);
    }
    if LastStore(done, a) >= 0 {
      assert ops[LastStore(done, a)].StoresTo(a);
      forall n | LastStore(done, a) < n < Ready(ops) ensures !ops[n].StoresTo(a) {
        assert !done[n].StoresTo(a);
      }
    }
  }
}
