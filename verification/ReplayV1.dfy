/** The older replay program: no queue. One pending operation per id, and a
    store writes memory at the moment its last missing field arrives. */
module ReplayV1 {
  import opened Trace
  import MemTable

  const MAX_IDS := 256

  datatype PendingOp = PendingOp(
    op: nat, vaddr: uint64, vaddrValid: bool, value: uint64, valueValid: bool,
    active: bool, accessNum: nat)
  {
    function AsEntry(id: Id): Entry {
      Entry(op, id, vaddr, vaddrValid, value, valueValid, accessNum)
    }

    /** A RESOLVE record brings the address, or else the value. */
    function Fill(rec: Record): PendingOp {
      if rec.vaddrValid then this.(vaddr := rec.vaddr, vaddrValid := true)
      else this.(value := rec.value, valueValid := true)
    }

    predicate Writes() { active && op == OP_MEM_STORE && vaddrValid && valueValid }
  }

  function NewPending(rec: Record, accessNum: nat): PendingOp {
    PendingOp(rec.op, rec.vaddr, rec.vaddrValid, rec.value, rec.valueValid, true, accessNum)
  }

  const IDLE := PendingOp(OP_MEM_LOAD, 0, false, 0, false, false, 0)

  datatype State = State(pending: seq<PendingOp>, issued: nat, mem: Memory)
  {
    predicate Valid() { |pending| == MAX_IDS }
  }

  function AllIdle(n: nat): (s: seq<PendingOp>)
    ensures |s| == n && forall i :: 0 <= i < n ==> s[i] == IDLE
  {
    if n == 0 then [] else AllIdle(n - 1) + [IDLE]
  }

  const START := State(AllIdle(MAX_IDS), 0, map[])

  /** The pending operation that a record leaves under its id. */
  function After(s: State, rec: Record): PendingOp
    requires s.Valid()
  {
    if rec.IsMemOp() then NewPending(rec, s.issued)
    else if rec.IsResolve() then s.pending[rec.id].Fill(rec)
    else s.pending[rec.id]
  }

  /** The memory write that a record triggers: none or one. */
  function Written(s: State, rec: Record): (w: seq<Entry>)
    requires s.Valid()
    ensures |w| <= 1
  {
    if (rec.IsMemOp() || rec.IsResolve()) && After(s, rec).Writes() then [After(s, rec).AsEntry(rec.id)] else []
  }

  function Step(s: State, rec: Record): (s': State)
    requires s.Valid()
    ensures s'.Valid()
  {
    var w := Written(s, rec);
    State(s.pending[rec.id as int := After(s, rec)],
          if rec.IsMemOp() then s.issued + 1 else s.issued,
          if w == [] then s.mem else Apply(s.mem, w[0]))
  }

  function Run(trace: seq<Record>): (s: State)
    ensures s.Valid()
  {
    if trace == [] then START else Step(Run(trace[..|trace|-1]), trace[|trace|-1])
  }

  /** Every write to memory so far, in the order it happened. */
  function Log(trace: seq<Record>): seq<Entry> {
    if trace == [] then []
    else Log(trace[..|trace|-1]) + Written(Run(trace[..|trace|-1]), trace[|trace|-1])
  }

  lemma RunAppend(trace: seq<Record>, rec: Record)
    ensures Run(trace + [rec]) == Step(Run(trace), rec)
    ensures Log(trace + [rec]) == Log(trace) + Written(Run(trace), rec)
  {
    assert (trace + [rec])[..|trace|] == trace;
  }

  lemma {:induction false} LogExplainsMemory(trace: seq<Record>)
    ensures Run(trace).mem == MemoryOf(Log(trace))
  {
    if trace != [] {
      var before := trace[..|trace|-1];
      LogExplainsMemory(before);
      var w := Written(Run(before), trace[|trace|-1]);
      if w != [] {
        MemoryOfAppend(Log(before), w[0]);
        assert w == [w[0]];
      } else {
        assert Log(trace) == Log(before);
      }
    }
  }

  class Replay {
    const pending: array<PendingOp>
    var accessCounter: nat
    const table: MemTable.Table
    ghost var Repr: set<object>

    ghost predicate Valid()
      reads this, Repr
    {
      && this in Repr && pending in Repr
      && table in Repr && table.Repr <= Repr
      && this !in table.Repr && pending !in table.Repr
      && table.Valid()
      && pending.Length == MAX_IDS
    }

    ghost function View(): (s: State)
      requires Valid()
      reads this, Repr
      ensures s.Valid()
    {
      State(pending[..], accessCounter, table.Contents())
    }

    constructor ()
      ensures Valid() && fresh(Repr)
      ensures View() == START
    {
      pending := new PendingOp[MAX_IDS](_ => IDLE);
      accessCounter := 0;
      table := new MemTable.Table();
      new;
      Repr := {this, pending, table} + table.Repr;
    }

    /** Writes memory if the pending operation is a store with nothing missing. */
    method WriteIfComplete(id: Id)
      requires Valid()
      modifies Repr
      ensures Valid() && fresh(Repr - old(Repr))
      ensures View() == old(View()).(mem :=
                var p := old(pending[id]);
                if p.Writes() then Apply(old(View()).mem, p.AsEntry(id)) else old(View()).mem)
    {
      var p := pending[id];
      if p.active && p.op == OP_MEM_STORE && p.vaddrValid && p.valueValid {
        table.Update(p.vaddr, p.value, p.accessNum);
        Repr := Repr + table.Repr;
      }
    }

    /** Puts a pending operation under its id and writes memory if it is a
        store with nothing missing. */
    method Place(id: Id, p: PendingOp, counter: nat)
      requires Valid()
      modifies Repr
      ensures Valid() && fresh(Repr - old(Repr))
      ensures View() == State(
                old(View()).pending[id as int := p], counter,
                if p.Writes() then Apply(old(View()).mem, p.AsEntry(id)) else old(View()).mem)
    {
      pending[id] := p;
      accessCounter := counter;
      WriteIfComplete(id);
    }

    /** One trace record. */
    method Process(rec: Record)
      requires Valid()
      modifies Repr
      ensures Valid() && fresh(Repr - old(Repr))
      ensures View() == Step(old(View()), rec)
    {
      if rec.op == OP_MEM_LOAD || rec.op == OP_MEM_STORE {
        Place(rec.id, NewPending(rec, accessCounter), accessCounter + 1);
      } else if rec.op == OP_MEM_RESOLVE {
        if rec.vaddrValid {
          Place(rec.id, pending[rec.id].(vaddr := rec.vaddr, vaddrValid := true), accessCounter);
        } else {
          Place(rec.id, pending[rec.id].(value := rec.value, valueValid := true), accessCounter);
        }
      }
    }
  }
}
