/** The reference semantics of both replay programs spelled out in record fields and
    plain numbers, so that nothing rests on the helper definitions of the machines. */
module ProgramOrder {
  import opened Trace
  import Ledger
  import Ring
  import ReplayV1
  import Dump

  // -------------------------------------------------------------------- The ledger

  /** A LOAD (0) or STORE (1) is entered last, with the fields of its record and the
      next access number. */
  lemma OperationIsEntered(ops: seq<Entry>, rec: Record)
    requires rec.op == 0 || rec.op == 1
    ensures var s := Ledger.Step(ops, rec);
            && |s| == |ops| + 1 && (forall k :: 0 <= k < |ops| ==> s[k] == ops[k])
            && s[|ops|].op == rec.op && s[|ops|].id == rec.id && s[|ops|].accessNum == |ops|
            && s[|ops|].vaddr == rec.vaddr && s[|ops|].vaddrValid == rec.vaddrValid
            && s[|ops|].value == rec.value && s[|ops|].valueValid == rec.valueValid
  {
  }

  /** Entry i is the oldest with this id that misses a field. */
  ghost predicate IsMatch(ops: seq<Entry>, id: int, i: int) {
    && 0 <= i < |ops| && ops[i].id == id && !(ops[i].vaddrValid && ops[i].valueValid)
    && forall k :: 0 <= k < i && ops[k].id == id ==> ops[k].vaddrValid && ops[k].valueValid
  }

  /** A RESOLVE (2) brings the fields it marks valid to the oldest entry with its id
      that misses one, and changes nothing else. */
  lemma ResolveFillsTheOldest(ops: seq<Entry>, rec: Record, i: int)
    requires rec.op == 2 && IsMatch(ops, rec.id, i)
    ensures var s := Ledger.Step(ops, rec);
            && |s| == |ops| && (forall k :: 0 <= k < |ops| && k != i ==> s[k] == ops[k])
            && s[i].op == ops[i].op && s[i].id == ops[i].id && s[i].accessNum == ops[i].accessNum
            && s[i].vaddr == (if rec.vaddrValid then rec.vaddr else ops[i].vaddr)
            && s[i].value == (if rec.valueValid then rec.value else ops[i].value)
            && (s[i].vaddrValid <==> ops[i].vaddrValid || rec.vaddrValid)
            && (s[i].valueValid <==> ops[i].valueValid || rec.valueValid)
  {
    Ledger.OldestOpenIs(ops, rec.id, 0, i);
  }

  /** Any other record, and a RESOLVE without a match, changes nothing. */
  lemma OthersChangeNothing(ops: seq<Entry>, rec: Record)
    requires rec.op != 0 && rec.op != 1
    requires rec.op == 2 ==> forall i :: !IsMatch(ops, rec.id, i)
    ensures Ledger.Step(ops, rec) == ops
  {
    if rec.op == 2 {
      var i := Ledger.OldestOpen(ops, rec.id, 0);
      assert !IsMatch(ops, rec.id, i);
    }
  }

  /** The ledger of a trace grows record by record from nothing. */
  lemma LedgerInFull(before: seq<Record>, rec: Record)
    ensures Ledger.Of([]) == [] && Ledger.Of(before + [rec]) == Ledger.Step(Ledger.Of(before), rec)
  {
    Ledger.OfAppend(before, rec);
  }

  /** Everything up to operation n has its address and its value. */
  ghost predicate KnownUpTo(ops: seq<Entry>, n: int) {
    n < |ops| && forall k :: 0 <= k <= n ==> ops[k].vaddrValid && ops[k].valueValid
  }

  lemma CommittedIsKnown(ops: seq<Entry>, n: nat)
    ensures n < Ledger.Ready(ops) <==> KnownUpTo(ops, n)
  {
    if KnownUpTo(ops, n) {
      Ledger.ReadyAtLeast(ops, n + 1);
    }
  }

  /** Store n writes this value to this address, and no later committed store writes
      there. */
  ghost predicate IsLastCommitted(ops: seq<Entry>, a: uint64, v: uint64, n: nat) {
    && KnownUpTo(ops, n) && ops[n].op == 1 && ops[n].vaddr == a && ops[n].value == v
    && forall m :: n < m && KnownUpTo(ops, m) ==> !(ops[m].op == 1 && ops[m].vaddr == a)
  }

  /** The memory that program order defines, from the fields of the operations. */
  lemma MemoryInFull(trace: seq<Record>, a: uint64, v: uint64, n: nat)
    ensures var m := Ledger.Architectural(Ledger.Of(trace));
            (a in m && m[a].value == v && m[a].lastAccess == n) <==> IsLastCommitted(Ledger.Of(trace), a, v, n)
  {
    var ops := Ledger.Of(trace);
    var m := Ledger.Architectural(ops);
    Ledger.LastWriterWins(trace, a);
    forall k: nat ensures k < Ledger.Ready(ops) <==> KnownUpTo(ops, k) {
      CommittedIsKnown(ops, k);
    }
    if IsLastCommitted(ops, a, v, n) {
      assert ops[n].StoresTo(a);
      var l := m[a].lastAccess;
      assert KnownUpTo(ops, l) && ops[l].op == 1 && ops[l].vaddr == a;
      assert l == n;
    }
  }

  // -------------------------------------------------------------------- The report

  /** A report of that memory lists, by increasing address, exactly the last committed
      stores. */
  lemma ReportInFull(trace: seq<Record>, report: seq<Dump.Row>)
    requires Dump.IsReport(report, Ledger.Architectural(Ledger.Of(trace)))
    ensures forall i, j :: 0 <= i < j < |report| ==> report[i].addr < report[j].addr
    ensures forall a, v, n :: Dump.Row(a, v, n) in report <==> IsLastCommitted(Ledger.Of(trace), a, v, n)
  {
    var m := Ledger.Architectural(Ledger.Of(trace));
    forall a, v, n ensures Dump.Row(a, v, n) in report <==> IsLastCommitted(Ledger.Of(trace), a, v, n) {
      MemoryInFull(trace, a, v, n);
      assert Dump.Row(a, v, n) in report ==> Dump.RowOf(Dump.Row(a, v, n), m);
    }
  }

  // ------------------------------------------------------------------ The v2 queue

  /** There is room for the queue when fewer than sixteen operations are uncommitted. */
  lemma RoomInFull(trace: seq<Record>)
    ensures Ring.NeverFull(trace) <==> forall k :: 0 <= k <= |trace| ==> KnownBut15(Ledger.Of(trace[..k]))
  {
    forall k | 0 <= k <= |trace|
      ensures KnownBut15(Ledger.Of(trace[..k])) <==> Ledger.Outstanding(Ledger.Of(trace[..k])) < 16
    {
      var ops := Ledger.Of(trace[..k]);
      if |ops| >= 16 {
        CommittedIsKnown(ops, |ops| - 16);
      }
    }
  }

  /** All operations but the last fifteen have their address and their value. */
  ghost predicate KnownBut15(ops: seq<Entry>) { |ops| >= 16 ==> KnownUpTo(ops, |ops| - 16) }

  /** Queueing, in any state, even when the ring is full: the slot at the tail is
      overwritten and the tail goes on by one, from 15 to 0. */
  lemma V2Inserts(r: Ring.Ring, rec: Record)
    requires r.Valid()
    ensures var t := Ring.Insert(r, rec);
            && t.tail == (r.tail + 1) % 16 && t.head == r.head && t.issued == r.issued + 1 && t.mem == r.mem
            && |t.slots| == 16 && (forall i :: 0 <= i < 16 && i != r.tail ==> t.slots[i] == r.slots[i])
            && t.slots[r.tail].op == rec.op && t.slots[r.tail].id == rec.id && t.slots[r.tail].accessNum == r.issued
            && t.slots[r.tail].vaddr == rec.vaddr && t.slots[r.tail].vaddrValid == rec.vaddrValid
            && t.slots[r.tail].value == rec.value && t.slots[r.tail].valueValid == rec.valueValid
  {
  }

  /** The search for a RESOLVE stops d slots on from where it starts, going round, when
      none before matches and either that one does or it is the tail. */
  lemma {:induction false} V2Finds(r: Ring.Ring, idx: nat, id: Id, d: nat)
    requires r.Valid() && idx < 16 && d < 16 && Around(idx, d) < 16
    requires forall k: nat :: k < d ==>
               && Around(idx, k) != r.tail
               && (r.slots[Around(idx, k)].id != id
                   || (r.slots[Around(idx, k)].vaddrValid && r.slots[Around(idx, k)].valueValid))
    requires Around(idx, d) != r.tail ==>
               && r.slots[Around(idx, d)].id == id
               && !(r.slots[Around(idx, d)].vaddrValid && r.slots[Around(idx, d)].valueValid)
    ensures Ring.Find(r, idx, id) == Around(idx, d)
    decreases d
  {
    assert Around(idx, 0) == idx;
    if d > 0 {
      forall k: nat | k < d ensures Around(Ring.Next(idx), k) == Around(idx, k + 1) {
      }
      V2Finds(r, Ring.Next(idx), id, d - 1);
    }
  }

  /** The slot d places on, going round. */
  function Around(idx: nat, d: nat): (i: nat)
    ensures i < 16
  {
    (idx + d) % 16
  }

  /** Retiring, in any state: a head that has both its fields is performed, if it is a
      store, and the head goes on by one. */
  lemma V2Commits(r: Ring.Ring)
    requires r.Valid()
    ensures var e := r.slots[r.head];
            if r.head == r.tail || !e.vaddrValid || !e.valueValid then Ring.Commit(r) == r
            else
              var m := if e.op == 1 then r.mem[e.vaddr := Cell(e.value, e.accessNum)] else r.mem;
              Ring.Commit(r) == Ring.Commit(Ring.Ring(r.slots, (r.head + 1) % 16, r.tail, r.issued, m))
  {
  }

  // ---------------------------------------------------------------- The v1 program

  /** v1 starts with nothing pending and goes on record by record. */
  lemma V1InFull(before: seq<Record>, rec: Record)
    ensures var s := ReplayV1.Run([]);
            s.mem == map[] && s.issued == 0 && forall i :: 0 <= i < 256 ==> !s.pending[i].active
    ensures ReplayV1.Run(before + [rec]) == ReplayV1.Step(ReplayV1.Run(before), rec)
  {
    ReplayV1.RunAppend(before, rec);
  }

  /** A LOAD or STORE takes its id, whatever was pending under it. */
  lemma V1Takes(s: ReplayV1.State, rec: Record)
    requires s.Valid() && (rec.op == 0 || rec.op == 1)
    ensures var t := ReplayV1.Step(s, rec);
            var p := t.pending[rec.id];
            && t.issued == s.issued + 1 && (forall i :: 0 <= i < 256 && i != rec.id ==> t.pending[i] == s.pending[i])
            && p.op == rec.op && p.active && p.accessNum == s.issued
            && p.vaddr == rec.vaddr && p.vaddrValid == rec.vaddrValid
            && p.value == rec.value && p.valueValid == rec.valueValid
            && t.mem == (if rec.op == 1 && rec.vaddrValid && rec.valueValid
                         then s.mem[rec.vaddr := Cell(rec.value, s.issued)] else s.mem)
  {
  }

  /** A RESOLVE brings the address if it has one, and otherwise the value even if it
      is not marked valid, to whatever is pending under its id. */
  lemma V1Resolves(s: ReplayV1.State, rec: Record)
    requires s.Valid() && rec.op == 2
    ensures var t := ReplayV1.Step(s, rec);
            var p, q := s.pending[rec.id], t.pending[rec.id];
            && t.issued == s.issued && (forall i :: 0 <= i < 256 && i != rec.id ==> t.pending[i] == s.pending[i])
            && q.op == p.op && q.active == p.active && q.accessNum == p.accessNum
            && q.vaddr == (if rec.vaddrValid then rec.vaddr else p.vaddr)
            && q.value == (if rec.vaddrValid then p.value else rec.value)
            && (q.vaddrValid <==> p.vaddrValid || rec.vaddrValid)
            && (q.valueValid <==> p.valueValid || !rec.vaddrValid)
            && t.mem == (if q.active && q.op == 1 && q.vaddrValid && q.valueValid
                         then s.mem[q.vaddr := Cell(q.value, q.accessNum)] else s.mem)
  {
  }

  lemma V1Ignores(s: ReplayV1.State, rec: Record)
    requires s.Valid() && rec.op != 0 && rec.op != 1 && rec.op != 2
    ensures ReplayV1.Step(s, rec) == s
  {
    assert s.pending[rec.id as int := s.pending[rec.id]] == s.pending;
  }
}
