/** The v2 replay program: a ring of slots changed in place, a hash table of
    linked entries, and one pass over the trace. Every method is tied to the
    ring function that says what it does, in every state. */
module ReplayV2 {
  import opened Trace
  import Ledger
  import Ring
  import MemTable
  import Dump
  import TraceCodec
  import TraceBytes
  import ProgramOrder

  /** The number of records the program reads: a limit that is not positive
      means no limit. */
  function RecordsRead(total: nat, limit: int): nat {
    if 0 < limit < total then limit else total
  }

  class Replay {
    const lsq: array<Entry>
    var qHead: nat
    var qTail: nat
    var totalAccessCounter: nat
    const table: MemTable.Table
    ghost var Repr: set<object>

    ghost predicate Valid()
      reads this, Repr
    {
      && this in Repr && lsq in Repr
      && table in Repr && table.Repr <= Repr
      && this !in table.Repr && lsq !in table.Repr
      && table.Valid()
      && lsq.Length == Ring.LSQ_QUEUE_SIZE
      && qHead < Ring.LSQ_QUEUE_SIZE && qTail < Ring.LSQ_QUEUE_SIZE
    }

    ghost function View(): (r: Ring.Ring)
      requires Valid()
      reads this, Repr
      ensures r.Valid()
    {
      Ring.Ring(lsq[..], qHead, qTail, totalAccessCounter, table.Contents())
    }

    constructor ()
      ensures Valid() && fresh(Repr)
      ensures View() == Ring.START
    {
      lsq := new Entry[Ring.LSQ_QUEUE_SIZE](_ => Ring.EMPTY_SLOT);
      qHead, qTail, totalAccessCounter := 0, 0, 0;
      table := new MemTable.Table();
      new;
      Repr := {this, lsq, table} + table.Repr;
    }

    /** Retires completed operations from the head of the ring. */
    method CommitReadyOps()
      requires Valid()
      modifies Repr
      ensures Valid() && fresh(Repr - old(Repr))
      ensures View() == Ring.Commit(old(View()))
    {
      while qHead != qTail
        invariant Valid() && fresh(Repr - old(Repr))
        invariant Ring.Commit(View()) == Ring.Commit(old(View()))
        decreases Ring.Distance(qHead, qTail)
      {
        if lsq[qHead].vaddrValid && lsq[qHead].valueValid {
          Retire();
        } else {
          break;
        }
      }
    }

    /** Performs the head operation and moves the head on. */
    method Retire()
      requires Valid()
      modifies Repr
      ensures Valid() && fresh(Repr - old(Repr))
      ensures View() == old(View()).(head := Ring.Next(old(qHead)),
                                     mem := Apply(old(View()).mem, old(lsq[qHead])))
    {
      if lsq[qHead].op == OP_MEM_STORE {
        table.Update(lsq[qHead].vaddr, lsq[qHead].value, lsq[qHead].accessNum);
        Repr := Repr + table.Repr;
      }
      qHead := (qHead + 1) % Ring.LSQ_QUEUE_SIZE;
    }

    method InsertOp(rec: Record)
      requires Valid()
      modifies this, lsq
      ensures Valid() && Repr == old(Repr)
      ensures View() == Ring.Insert(old(View()), rec)
    {
      lsq[qTail] := NewEntry(rec, totalAccessCounter);
      totalAccessCounter := totalAccessCounter + 1;
      qTail := (qTail + 1) % Ring.LSQ_QUEUE_SIZE;
    }

    /** Fills in the oldest incomplete operation with the record's id. */
    method ResolveOp(rec: Record)
      requires Valid()
      modifies lsq
      ensures Valid()
      ensures View() == Ring.Resolve(old(View()), rec)
    {
      var idx: nat := qHead;
      while idx != qTail
        invariant idx < Ring.LSQ_QUEUE_SIZE
        invariant Ring.Find(View(), idx, rec.id) == Ring.Find(View(), qHead, rec.id)
        decreases Ring.Distance(idx, qTail)
      {
        if lsq[idx].id == rec.id && !(lsq[idx].vaddrValid && lsq[idx].valueValid) {
          if rec.vaddrValid {
            lsq[idx] := lsq[idx].(vaddr := rec.vaddr, vaddrValid := true);
          }
          if rec.valueValid {
            lsq[idx] := lsq[idx].(value := rec.value, valueValid := true);
          }
          return;
        }
        idx := (idx + 1) % Ring.LSQ_QUEUE_SIZE;
      }
    }

    /** One trace record: queue it or resolve with it, then retire what is ready. */
    method Process(rec: Record)
      requires Valid()
      modifies Repr
      ensures Valid() && fresh(Repr - old(Repr))
      ensures View() == Ring.Step(old(View()), rec)
    {
      if rec.op == OP_MEM_LOAD || rec.op == OP_MEM_STORE {
        InsertOp(rec);
      } else if rec.op == OP_MEM_RESOLVE {
        ResolveOp(rec);
      }
      CommitReadyOps();
    }
  }

  method ProcessNext(replay: Replay, ghost read: seq<Record>, rec: Record)
    requires replay.Valid() && replay.View() == Ring.Run(read)
    modifies replay.Repr
    ensures replay.Valid() && fresh(replay.Repr - old(replay.Repr))
    ensures replay.View() == Ring.Run(read + [rec])
  {
    replay.Process(rec);
    Ring.RunAppend(read, rec);
  }

  /** Reads records until the end of the file or the limit. */
  method ReadTrace(replay: Replay, file: seq<Record>, limit: int)
    requires replay.Valid() && replay.View() == Ring.Run([])
    modifies replay.Repr
    ensures replay.Valid() && fresh(replay.Repr - old(replay.Repr))
    ensures replay.View() == Ring.Run(file[..RecordsRead(|file|, limit)])
  {
    var timestep := 0;
    ghost var read := [];
    while timestep < |file|
      invariant replay.Valid() && fresh(replay.Repr - old(replay.Repr))
      invariant timestep <= RecordsRead(|file|, limit)
      invariant read == file[..timestep] && replay.View() == Ring.Run(read)
    {
      if limit > 0 && timestep + 1 > limit {
        break;
      }
      ProcessNext(replay, read, file[timestep]);
      read := read + [file[timestep]];
      timestep := timestep + 1;
    }
    assert timestep == RecordsRead(|file|, limit);
  }

  /** The whole program up to the sort. */
  method ReplayTrace(file: seq<Record>, limit: int) returns (replay: Replay, rows: seq<Dump.Row>)
    ensures fresh(replay) && fresh(replay.Repr) && replay.Valid()
    ensures replay.View() == Ring.Run(file[..RecordsRead(|file|, limit)])
    ensures Dump.Tabulates(rows, replay.View().mem)
  {
    replay := new Replay();
    ReadTrace(replay, file, limit);
    rows := Dump.Rows(replay.table);
  }

  /** The printed report is the one report of the memory that program order
      defines, for every trace that never has sixteen operations outstanding. */
  lemma ReportIsArchitectural(trace: seq<Record>, rows: seq<Dump.Row>, sorted: seq<Dump.Row>)
    requires Ring.NeverFull(trace)
    requires Dump.Tabulates(rows, Ring.Run(trace).mem)
    requires multiset(sorted) == multiset(rows) && Dump.SortedByAddress(sorted)
    ensures Dump.IsReport(sorted, Ledger.Architectural(Ledger.Of(trace)))
  {
    Ring.RunRepresents(trace);
    Dump.SortedDumpIsReport(rows, sorted, Ring.Run(trace).mem);
  }

  /** What is asked of the library sort. */
  ghost predicate Sorts(sort: seq<Dump.Row> -> seq<Dump.Row>) {
    forall rows :: multiset(sort(rows)) == multiset(rows) && Dump.SortedByAddress(sort(rows))
  }

  /** The records of a file that the program replays. */
  function TraceOf(file: seq<bv8>, limit: int): seq<Record> {
    var records := TraceCodec.Records(file);
    records[..RecordsRead(|records|, limit)]
  }

  /** Which records these are: one for every sixteen bytes, from the front, up to a
      positive limit. */
  lemma TraceOfInFull(file: seq<bv8>, limit: int)
    ensures |TraceOf(file, limit)| == if limit > 0 && limit < |file| / 16 then limit else |file| / 16
    ensures TraceOf(file, limit) == TraceCodec.Records(file)[..|TraceOf(file, limit)|]
  {
    TraceBytes.RecordCount(file);
  }

  /** Record k of them, from the bytes of the file. */
  lemma RecordOfFile(file: seq<bv8>, limit: int, k: nat)
    requires k < |TraceOf(file, limit)|
    ensures 16 * k + 16 <= |file|
    ensures var r, i := TraceOf(file, limit)[k], 16 * k;
            && r.vaddr == file[i] as int + 0x100 * (file[i+1] as int) + 0x1_0000 * (file[i+2] as int)
                          + 0x100_0000 * (file[i+3] as int) + 0x1_0000_0000 * (file[i+4] as int)
                          + 0x100_0000_0000 * (file[i+5] as int)
            && r.value == file[i+7] as int + 0x100 * (file[i+8] as int) + 0x1_0000 * (file[i+9] as int)
                          + 0x100_0000 * (file[i+10] as int) + 0x1_0000_0000 * (file[i+11] as int)
                          + 0x100_0000_0000 * (file[i+12] as int) + 0x1_0000_0000_0000 * (file[i+13] as int)
                          + 0x100_0000_0000_0000 * (file[i+14] as int)
            && r.id == (file[i+6] as int) % 16 && r.op == (file[i+6] as int) / 16 % 8
            && (r.vaddrValid <==> file[i+6] as int >= 128) && (r.valueValid <==> (file[i+15] as int) % 2 == 1)
  {
    TraceOfInFull(file, limit);
    TraceBytes.FileInNumbers(file, k);
  }

  /** The program from the bytes of the file to the rows it prints: by increasing
      address, the one report of what its queue leaves in memory, and, when the queue
      never fills, exactly the last committed store to each address. */
  method ReplayFile(file: seq<bv8>, limit: int, sort: seq<Dump.Row> -> seq<Dump.Row>) returns (report: seq<Dump.Row>)
    requires Sorts(sort)
    ensures Dump.IsReport(report, Ring.Run(TraceOf(file, limit)).mem)
    ensures forall i, j :: 0 <= i < j < |report| ==> report[i].addr < report[j].addr
    ensures Ring.NeverFull(TraceOf(file, limit)) ==> forall a, v, n ::
              Dump.Row(a, v, n) in report <==> ProgramOrder.IsLastCommitted(Ledger.Of(TraceOf(file, limit)), a, v, n)
  {
    var records := TraceCodec.ReadRecords(file);
    var replay, rows := ReplayTrace(records, limit);
    report := sort(rows);
    Dump.SortedDumpIsReport(rows, report, Ring.Run(TraceOf(file, limit)).mem);
    if Ring.NeverFull(TraceOf(file, limit)) {
      ReportIsArchitectural(TraceOf(file, limit), rows, report);
      ProgramOrder.ReportInFull(TraceOf(file, limit), report);
    }
  }
}
