/** The v2 queue as the program keeps it: sixteen slots, a head and a tail
    index that wrap around, and no test for a full ring. The functions say
    what each operation does to the state, in every state; the lemmas say when
    that is what the ledger says. */
module Ring {
  import opened Trace
  import Ledger
  import Schedule

  const LSQ_QUEUE_SIZE := 16

  /** Static storage starts out zeroed. */
  const EMPTY_SLOT := Entry(OP_MEM_LOAD, 0, 0, false, 0, false, 0)

  datatype Ring = Ring(slots: seq<Entry>, head: nat, tail: nat, issued: nat, mem: Memory)
  {
    predicate Valid() {
      |slots| == LSQ_QUEUE_SIZE && head < LSQ_QUEUE_SIZE && tail < LSQ_QUEUE_SIZE
    }

    predicate Empty() { head == tail }
  }

  const START := Ring(Repeat(EMPTY_SLOT, LSQ_QUEUE_SIZE), 0, 0, 0, map[])

  function Repeat<T>(x: T, n: nat): (s: seq<T>)
    ensures |s| == n && forall i :: 0 <= i < n ==> s[i] == x
  {
    if n == 0 then [] else Repeat(x, n - 1) + [x]
  }

  function Next(i: nat): (j: nat)
    requires i < LSQ_QUEUE_SIZE
    ensures j == if i == LSQ_QUEUE_SIZE - 1 then 0 else i + 1
  {
    (i + 1) % LSQ_QUEUE_SIZE
  }

  /** The slot that the n-th insertion uses. */
  function SlotOf(n: nat): (j: nat)
    ensures j < LSQ_QUEUE_SIZE
    ensures n < LSQ_QUEUE_SIZE ==> j == n
  {
    if n == 0 then 0 else Next(SlotOf(n - 1))
  }

  lemma {:induction false} SlotOfIsModulo(n: nat)
    ensures SlotOf(n) == n % LSQ_QUEUE_SIZE
  {
    if n > 0 {
      SlotOfIsModulo(n - 1);
    }
  }

  /** Slots from `i` up to `j`, going round. */
  function Distance(i: nat, j: nat): (d: nat)
    requires i < LSQ_QUEUE_SIZE && j < LSQ_QUEUE_SIZE
    ensures d < LSQ_QUEUE_SIZE && (d == 0 <==> i == j)
  {
    if i <= j then j - i else j + LSQ_QUEUE_SIZE - i
  }

  /** The slot `i` places before `tail`, going round. */
  function Back(tail: nat, i: nat): (j: nat)
    requires tail < LSQ_QUEUE_SIZE && i <= LSQ_QUEUE_SIZE
    ensures j < LSQ_QUEUE_SIZE
  {
    if i <= tail then tail - i else tail + LSQ_QUEUE_SIZE - i
  }

  /** The slots from `idx` round to the tail, oldest first. */
  function Walk(r: Ring, idx: nat): (q: seq<Entry>)
    requires r.Valid() && idx < LSQ_QUEUE_SIZE
    ensures |q| == Distance(idx, r.tail)
    decreases Distance(idx, r.tail)
  {
    if idx == r.tail then [] else [r.slots[idx]] + Walk(r, Next(idx))
  }

  /** What the program takes for its queue. */
  function Queue(r: Ring): seq<Entry>
    requires r.Valid()
  {
    Walk(r, r.head)
  }

  function Insert(r: Ring, rec: Record): (r': Ring)
    requires r.Valid()
    ensures r'.Valid()
  {
    r.(slots := r.slots[r.tail := NewEntry(rec, r.issued)], tail := Next(r.tail), issued := r.issued + 1)
  }

  /** The first slot from `idx` on that misses a field and has this id, or the tail. */
  function Find(r: Ring, idx: nat, id: Id): (i: nat)
    requires r.Valid() && idx < LSQ_QUEUE_SIZE
    ensures i < LSQ_QUEUE_SIZE
    decreases Distance(idx, r.tail)
  {
    if idx == r.tail || (r.slots[idx].id == id && !r.slots[idx].Complete()) then idx
    else Find(r, Next(idx), id)
  }

  function Resolve(r: Ring, rec: Record): (r': Ring)
    requires r.Valid()
    ensures r'.Valid()
  {
    var i := Find(r, r.head, rec.id);
    if i == r.tail then r else r.(slots := r.slots[i := r.slots[i].Fill(rec)])
  }

  function Commit(r: Ring): (r': Ring)
    requires r.Valid()
    ensures r'.Valid()
    ensures r'.Empty() || !r'.slots[r'.head].Complete()
    decreases Distance(r.head, r.tail)
  {
    if r.Empty() || !r.slots[r.head].Complete() then r
    else Commit(r.(head := Next(r.head), mem := Apply(r.mem, r.slots[r.head])))
  }

  function Step(r: Ring, rec: Record): (r': Ring)
    requires r.Valid()
    ensures r'.Valid()
  {
    Commit(if rec.IsMemOp() then Insert(r, rec) else if rec.IsResolve() then Resolve(r, rec) else r)
  }

  /** Whether or not the ring ever overflowed, after each record the queue is
      empty or its head still misses a field. */
  function Run(trace: seq<Record>): (r: Ring)
    ensures r.Valid()
    ensures r.Empty() || !r.slots[r.head].Complete()
  {
    if trace == [] then START else Step(Run(trace[..|trace|-1]), trace[|trace|-1])
  }

  lemma RunAppend(trace: seq<Record>, rec: Record)
    ensures Run(trace + [rec]) == Step(Run(trace), rec)
  {
    assert (trace + [rec])[..|trace|] == trace;
  }

  // ---------------------------------------------------------------- Refinement

  /** The last sixteen operations sit in the slots before the tail, whether or
      not they are still queued; slots never used are zero. */
  ghost predicate HoldsRecent(slots: seq<Entry>, tail: nat, ops: seq<Entry>)
    requires |slots| == LSQ_QUEUE_SIZE && tail < LSQ_QUEUE_SIZE
  {
    && (|ops| < LSQ_QUEUE_SIZE ==> tail == |ops|)
    && (forall i :: 1 <= i <= LSQ_QUEUE_SIZE && i <= |ops| ==> slots[Back(tail, i)] == ops[|ops| - i])
    && (forall j :: |ops| <= j < LSQ_QUEUE_SIZE ==> slots[j] == EMPTY_SLOT)
  }

  /** The ring after retiring the first `n` operations of the ledger. */
  ghost predicate Holds(r: Ring, ops: seq<Entry>, n: nat) {
    && r.Valid()
    && n <= Ledger.Ready(ops)
    && |ops| - n < LSQ_QUEUE_SIZE
    && r.tail == SlotOf(|ops|)
    && r.head == Back(r.tail, |ops| - n)
    && r.issued == |ops|
    && r.mem == MemoryOf(ops[..n])
    && HoldsRecent(r.slots, r.tail, ops)
  }

  /** The ring stands for the ledger: committed + queued = issued, the queue
      holds exactly the operations that are not committed, and everything the
      ledger allows to retire has retired. */
  ghost predicate Represents(r: Ring, ops: seq<Entry>) {
    Holds(r, ops, Ledger.Ready(ops))
  }

  lemma RecentAfterInsert(slots: seq<Entry>, tail: nat, ops: seq<Entry>, e: Entry)
    requires |slots| == LSQ_QUEUE_SIZE && tail < LSQ_QUEUE_SIZE
    requires HoldsRecent(slots, tail, ops)
    ensures HoldsRecent(slots[tail := e], Next(tail), ops + [e])
  {
    var slots', tail', ops' := slots[tail := e], Next(tail), ops + [e];
    forall i | 1 <= i <= LSQ_QUEUE_SIZE && i <= |ops'|
      ensures slots'[Back(tail', i)] == ops'[|ops'| - i]
    {
      if i > 1 {
        assert Back(tail', i) == Back(tail, i - 1) != tail;
        assert slots[Back(tail, i - 1)] == ops[|ops| - (i - 1)];
      }
    }
  }

  lemma RecentAfterUpdate(slots: seq<Entry>, tail: nat, ops: seq<Entry>, k: nat, e: Entry)
    requires |slots| == LSQ_QUEUE_SIZE && tail < LSQ_QUEUE_SIZE
    requires k < |ops| && |ops| - k <= LSQ_QUEUE_SIZE
    requires HoldsRecent(slots, tail, ops)
    ensures HoldsRecent(slots[Back(tail, |ops| - k) := e], tail, ops[k := e])
  {
    forall i | 1 <= i <= LSQ_QUEUE_SIZE && i <= |ops| && i != |ops| - k
      ensures Back(tail, i) != Back(tail, |ops| - k)
    {
    }
  }

  lemma {:induction false} FindIsOldestOpen(r: Ring, ops: seq<Entry>, from: nat, id: Id)
    requires r.Valid() && HoldsRecent(r.slots, r.tail, ops)
    requires from <= |ops| < from + LSQ_QUEUE_SIZE
    ensures Find(r, Back(r.tail, |ops| - from), id) == Back(r.tail, |ops| - Ledger.OldestOpen(ops, id, from))
    decreases |ops| - from
  {
    if from < |ops| {
      assert r.slots[Back(r.tail, |ops| - from)] == ops[from];
      FindIsOldestOpen(r, ops, from + 1, id);
    }
  }

  /** RESOLVE touches the slot of the entry that the ledger resolves. */
  lemma ResolveSlots(r: Ring, ops: seq<Entry>, rec: Record)
    requires r.Valid() && HoldsRecent(r.slots, r.tail, ops) && rec.IsResolve()
    requires Ledger.Outstanding(ops) < LSQ_QUEUE_SIZE
    requires r.head == Back(r.tail, Ledger.Outstanding(ops))
    ensures HoldsRecent(Resolve(r, rec).slots, r.tail, Ledger.Step(ops, rec))
  {
    var i := Ledger.OldestOpen(ops, rec.id, Ledger.Ready(ops));
    Ledger.ResolveSkipsReady(ops, rec);
    FindIsOldestOpen(r, ops, Ledger.Ready(ops), rec.id);
    if i < |ops| {
      UpdatedSlots(r, ops, rec, i);
    }
  }

  lemma UpdatedSlots(r: Ring, ops: seq<Entry>, rec: Record, i: nat)
    requires r.Valid() && HoldsRecent(r.slots, r.tail, ops)
    requires i < |ops| < i + LSQ_QUEUE_SIZE
    requires Find(r, r.head, rec.id) == Back(r.tail, |ops| - i)
    ensures HoldsRecent(Resolve(r, rec).slots, r.tail, ops[i := ops[i].Fill(rec)])
  {
    assert r.slots[Back(r.tail, |ops| - i)] == ops[i];
    RecentAfterUpdate(r.slots, r.tail, ops, i, ops[i].Fill(rec));
  }

  lemma {:induction false} CommitRetiresReady(r: Ring, ops: seq<Entry>, n: nat)
    requires Holds(r, ops, n)
    ensures Represents(Commit(r), ops)
    decreases |ops| - n
  {
    if n < |ops| {
      assert r.slots[Back(r.tail, |ops| - n)] == ops[n];
      if n < Ledger.Ready(ops) {
        var next := r.(head := Next(r.head), mem := Apply(r.mem, ops[n]));
        assert next.mem == MemoryOf(ops[..n + 1]) by {
          MemoryOfAppend(ops[..n], ops[n]);
          assert ops[..n + 1] == ops[..n] + [ops[n]];
        }
        CommitRetiresReady(next, ops, n + 1);
      }
    }
  }

  lemma InsertHolds(r: Ring, ops: seq<Entry>, rec: Record)
    requires Represents(r, ops) && rec.IsMemOp()
    requires Ledger.Outstanding(Ledger.Step(ops, rec)) < LSQ_QUEUE_SIZE
    ensures Holds(Insert(r, rec), Ledger.Step(ops, rec), Ledger.Ready(ops))
  {
    Ledger.StepKeepsReady(ops, rec);
    RecentAfterInsert(r.slots, r.tail, ops, NewEntry(rec, |ops|));
  }

  lemma ResolveHolds(r: Ring, ops: seq<Entry>, rec: Record)
    requires Represents(r, ops) && rec.IsResolve()
    ensures Holds(Resolve(r, rec), Ledger.Step(ops, rec), Ledger.Ready(ops))
  {
    Ledger.StepKeepsReady(ops, rec);
    ResolveSlots(r, ops, rec);
  }

  /** What the replay is for: the queue is the operations that are not committed,
      in program order, memory is what the committed ones write, and every
      operation issued has its number. */
  ghost predicate Follows(r: Ring, ops: seq<Entry>) {
    && r.Valid()
    && r.issued == |ops|
    && Queue(r) == ops[Ledger.Ready(ops)..]
    && r.mem == Ledger.Architectural(ops)
  }

  lemma {:induction false} WalkIsSuffix(r: Ring, ops: seq<Entry>, from: nat)
    requires r.Valid() && HoldsRecent(r.slots, r.tail, ops)
    requires from <= |ops| < from + LSQ_QUEUE_SIZE
    ensures Walk(r, Back(r.tail, |ops| - from)) == ops[from..]
    decreases |ops| - from
  {
    if from < |ops| {
      assert r.slots[Back(r.tail, |ops| - from)] == ops[from];
      WalkIsSuffix(r, ops, from + 1);
    }
  }

  lemma RepresentsFollows(r: Ring, ops: seq<Entry>)
    requires Represents(r, ops)
    ensures Follows(r, ops)
  {
    WalkIsSuffix(r, ops, Ledger.Ready(ops));
  }

  /** Committed and queued operations are all that were issued, and no ring of
      sixteen slots, whatever it holds, shows more than fifteen in its queue. */
  lemma FollowsCounts(r: Ring, ops: seq<Entry>)
    requires Follows(r, ops)
    ensures Ledger.Ready(ops) + |Queue(r)| == r.issued
    ensures Ledger.Outstanding(ops) == |Queue(r)| < LSQ_QUEUE_SIZE
  {
  }

  lemma StepRepresents(r: Ring, ops: seq<Entry>, rec: Record)
    requires Represents(r, ops)
    requires Ledger.Outstanding(Ledger.Step(ops, rec)) < LSQ_QUEUE_SIZE
    ensures Represents(Step(r, rec), Ledger.Step(ops, rec))
  {
    var next := Ledger.Step(ops, rec);
    if rec.IsMemOp() {
      InsertHolds(r, ops, rec);
      CommitRetiresReady(Insert(r, rec), next, Ledger.Ready(ops));
    } else if rec.IsResolve() {
      ResolveHolds(r, ops, rec);
      CommitRetiresReady(Resolve(r, rec), next, Ledger.Ready(ops));
    } else {
      CommitRetiresReady(r, ops, Ledger.Ready(ops));
    }
  }

  /** One record: the program goes on following the ledger exactly when the
      ledger leaves at most fifteen operations outstanding. */
  lemma StepRefines(r: Ring, ops: seq<Entry>, rec: Record)
    requires Represents(r, ops)
    ensures Follows(Step(r, rec), Ledger.Step(ops, rec)) <==>
            Ledger.Outstanding(Ledger.Step(ops, rec)) < LSQ_QUEUE_SIZE
  {
    var r', next := Step(r, rec), Ledger.Step(ops, rec);
    if Ledger.Outstanding(next) < LSQ_QUEUE_SIZE {
      StepRepresents(r, ops, rec);
      RepresentsFollows(r', next);
    } else if Follows(r', next) {
      FollowsCounts(r', next);
    }
  }

  lemma EmptyMeansAllRetired(r: Ring, ops: seq<Entry>)
    requires Represents(r, ops) && r.Empty()
    ensures Ledger.Ready(ops) == |ops| && r.mem == MemoryOf(ops)
  {
    assert ops[..|ops|] == ops;
  }

  /** At no point of the trace are more than fifteen operations outstanding. */
  ghost predicate NeverFull(trace: seq<Record>) {
    forall k :: 0 <= k <= |trace| ==> Ledger.Outstanding(Ledger.Of(trace[..k])) < LSQ_QUEUE_SIZE
  }

  lemma {:induction false} RunRepresents(trace: seq<Record>)
    requires NeverFull(trace)
    ensures Represents(Run(trace), Ledger.Of(trace))
  {
    if trace != [] {
      var before := trace[..|trace|-1];
      assert forall k :: 0 <= k <= |before| ==> before[..k] == trace[..k];
      RunRepresents(before);
      assert trace[..|trace|] == trace;
      assert Ledger.Outstanding(Ledger.Of(trace)) < LSQ_QUEUE_SIZE;
      StepRepresents(Run(before), Ledger.Of(before), trace[|trace|-1]);
    }
  }

  ghost predicate FollowsAt(trace: seq<Record>, k: nat)
    requires k <= |trace|
  {
    Follows(Run(trace[..k]), Ledger.Of(trace[..k]))
  }

  /** Whole runs: the program follows the ledger after every record if and only if
      the ledger never has more than fifteen operations outstanding. */
  lemma RingMatchesLedger(trace: seq<Record>)
    ensures (forall k :: 0 <= k <= |trace| ==> FollowsAt(trace, k)) <==> NeverFull(trace)
  {
    if NeverFull(trace) {
      forall k | 0 <= k <= |trace| ensures FollowsAt(trace, k) {
        assert forall j :: 0 <= j <= k ==> trace[..k][..j] == trace[..j];
        RunRepresents(trace[..k]);
        RepresentsFollows(Run(trace[..k]), Ledger.Of(trace[..k]));
      }
    } else {
      var k :| 0 <= k <= |trace| && Ledger.Outstanding(Ledger.Of(trace[..k])) >= LSQ_QUEUE_SIZE;
      if FollowsAt(trace, k) {
        FollowsCounts(Run(trace[..k]), Ledger.Of(trace[..k]));
      }
    }
  }

  // ------------------------------------------------------- Schedule independence

  lemma SlotsAreFunctional(r: seq<Entry>, s: seq<Entry>, tail: nat, ops: seq<Entry>)
    requires |r| == |s| == LSQ_QUEUE_SIZE && tail < LSQ_QUEUE_SIZE
    requires HoldsRecent(r, tail, ops) && HoldsRecent(s, tail, ops)
    ensures r == s
  {
    forall j | 0 <= j < LSQ_QUEUE_SIZE ensures r[j] == s[j] {
      if j < |ops| {
        var i := if j < tail then tail - j else tail + LSQ_QUEUE_SIZE - j;
        assert Back(tail, i) == j;
      }
    }
  }

  lemma RepresentsIsFunctional(r: Ring, s: Ring, ops: seq<Entry>)
    requires Represents(r, ops) && Represents(s, ops)
    ensures r == s
  {
    SlotsAreFunctional(r.slots, s.slots, r.tail, ops);
  }

  lemma NeverFullAppend(trace: seq<Record>, rec: Record)
    requires NeverFull(trace)
    requires Ledger.Outstanding(Ledger.Of(trace + [rec])) < LSQ_QUEUE_SIZE
    ensures NeverFull(trace + [rec])
  {
    var next := trace + [rec];
    forall k | 0 <= k <= |next| ensures Ledger.Outstanding(Ledger.Of(next[..k])) < LSQ_QUEUE_SIZE {
      if k <= |trace| {
        assert next[..k] == trace[..k];
      } else {
        assert next[..k] == next;
      }
    }
  }

  /** RESOLVE records never fill the queue. */
  lemma {:induction false} ResolvesKeepRoom(trace: seq<Record>, block: seq<Record>)
    requires NeverFull(trace) && Schedule.AllResolves(block)
    ensures NeverFull(trace + block)
    decreases |block|
  {
    if block == [] {
      assert trace + block == trace;
    } else {
      var ops := Ledger.Of(trace);
      assert trace[..|trace|] == trace;
      Ledger.StepKeepsReady(ops, block[0]);
      Ledger.OfAppend(trace, block[0]);
      NeverFullAppend(trace, block[0]);
      ResolvesKeepRoom(trace + [block[0]], block[1..]);
      assert trace + [block[0]] + block[1..] == trace + block;
    }
  }

  /** Schedule independence of the program itself: reordering a block of
      RESOLVE records across ids leaves the same slots, head, tail, access
      counter and memory, although commits happen at different moments. */
  lemma ReorderedResolves(trace: seq<Record>, a: seq<Record>, b: seq<Record>)
    requires NeverFull(trace)
    requires Schedule.AllResolves(a) && Schedule.AllResolves(b) && Schedule.SameOrderPerId(a, b)
    ensures Run(trace + a) == Run(trace + b)
  {
    ResolvesKeepRoom(trace, a);
    ResolvesKeepRoom(trace, b);
    RunRepresents(trace + a);
    RunRepresents(trace + b);
    Ledger.OfSplit(trace, a);
    Ledger.OfSplit(trace, b);
    Schedule.ReorderedBlock(Ledger.Of(trace), a, b);
    RepresentsIsFunctional(Run(trace + a), Run(trace + b), Ledger.Of(trace + a));
  }

  // ------------------------------------------------------------------ Overflow

  /** Sixteen stores waiting for the same thing, then the record that brings it. */
  function FullThenResolved(rec: Record): seq<Record> {
    Repeat(rec, LSQ_QUEUE_SIZE) + [rec.(op := OP_MEM_RESOLVE, vaddrValid := true, valueValid := true)]
  }

  lemma {:induction false} LedgerOfRepeated(rec: Record, n: nat)
    requires rec.IsMemOp()
    ensures var ops := Ledger.Of(Repeat(rec, n));
            |ops| == n && forall i :: 0 <= i < n ==> ops[i] == NewEntry(rec, i)
  {
    if n > 0 {
      assert Repeat(rec, n)[..n - 1] == Repeat(rec, n - 1);
      LedgerOfRepeated(rec, n - 1);
    }
  }

  /** The overflow is real: for every incomplete store repeated sixteen times
      the ring looks empty and the resolved store never reaches memory, while
      the ledger commits it. */
  lemma OverflowLosesStores(rec: Record)
    requires rec.op == OP_MEM_STORE && !(rec.vaddrValid && rec.valueValid)
    ensures var trace := FullThenResolved(rec);
            && Run(trace).mem == map[]
            && rec.vaddr in Ledger.Architectural(Ledger.Of(trace))
  {
    var trace := FullThenResolved(rec);
    var fifteen, sixteen := Repeat(rec, 15), Repeat(rec, 16);
    forall k: nat | k <= 15 ensures Ledger.Outstanding(Ledger.Of(fifteen[..k])) < LSQ_QUEUE_SIZE {
      assert fifteen[..k] == Repeat(rec, k);
      LedgerOfRepeated(rec, k);
    }
    LedgerOfRepeated(rec, 15);
    LedgerOfRepeated(rec, 16);
    RunRepresents(fifteen);
    assert sixteen[..15] == fifteen && trace[..16] == sixteen;
    assert Run(sixteen) == Commit(Insert(Run(fifteen), rec));
    assert Run(trace).mem == map[];
    var ops := Ledger.Of(trace);
    assert ops[0].StoresTo(rec.vaddr);
    Ledger.ReadyAtLeast(ops, 1);
    Ledger.LastWriterWins(trace, rec.vaddr);
  }
}
