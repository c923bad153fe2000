/** The vocabulary of the trace replay programs: the decoded trace record, one
    entry of the load/store queue, and the architectural memory that the
    replay leaves behind. */
module Trace {

  type uint64 = x: int | 0 <= x < 0x1_0000_0000_0000_0000

  /** The trace id field is four bits wide. */
  type Id = i: int | 0 <= i < 16

  const OP_MEM_LOAD := 0
  const OP_MEM_STORE := 1
  const OP_MEM_RESOLVE := 2
  const OP_TLB_FILL := 4

  datatype Record = Record(
    op: nat, id: Id,
    vaddr: uint64, vaddrValid: bool,
    value: uint64, valueValid: bool)
  {
    predicate IsMemOp() { op == OP_MEM_LOAD || op == OP_MEM_STORE }

    predicate IsResolve() { op == OP_MEM_RESOLVE }
  }

  datatype Entry = Entry(
    op: nat, id: Id,
    vaddr: uint64, vaddrValid: bool,
    value: uint64, valueValid: bool,
    accessNum: nat)
  {
    predicate Complete() { vaddrValid && valueValid }

    predicate IsStore() { op == OP_MEM_STORE }

    predicate StoresTo(a: uint64) { IsStore() && vaddr == a }

    /** What a RESOLVE record does to the entry it matches: every field the
        record marks valid replaces the entry's field. */
    function Fill(rec: Record): Entry {
      var e := if rec.vaddrValid then this.(vaddr := rec.vaddr, vaddrValid := true) else this;
      if rec.valueValid then e.(value := rec.value, valueValid := true) else e
    }
  }

  function NewEntry(rec: Record, accessNum: nat): Entry {
    Entry(rec.op, rec.id, rec.vaddr, rec.vaddrValid, rec.value, rec.valueValid, accessNum)
  }

  datatype Cell = Cell(value: uint64, lastAccess: nat)

  type Memory = map<uint64, Cell>

  /** The effect of one completed operation on memory. Loads leave it alone. */
  function Apply(m: Memory, e: Entry): Memory {
    if e.IsStore() then m[e.vaddr := Cell(e.value, e.accessNum)] else m
  }

  /** The memory left by performing a list of operations in order. */
  function MemoryOf(ops: seq<Entry>): Memory {
    if ops == [] then map[] else Apply(MemoryOf(ops[..|ops|-1]), ops[|ops|-1])
  }

  /** Index of the last store to `a`, or -1 when there is none. */
  function LastStore(ops: seq<Entry>, a: uint64): (i: int)
    ensures -1 <= i < |ops|
    ensures i >= 0 ==> ops[i].StoresTo(a)
    ensures forall k :: i < k < |ops| ==> !ops[k].StoresTo(a)
  {
    if ops == [] then -1
    else if ops[|ops|-1].StoresTo(a) then |ops| - 1
    else LastStore(ops[..|ops|-1], a)
  }

  /** Last writer wins: performing operations one after the other leaves, at
      every address, exactly the data of the last store to it. */
  lemma {:induction false} MemoryIsLastStore(ops: seq<Entry>, a: uint64)
    ensures a in MemoryOf(ops) <==> LastStore(ops, a) >= 0
    ensures a in MemoryOf(ops) ==>
              MemoryOf(ops)[a] == Cell(ops[LastStore(ops, a)].value, ops[LastStore(ops, a)].accessNum)
  {
    if ops != [] {
      MemoryIsLastStore(ops[..|ops|-1], a);
    }
  }

  lemma MemoryOfAppend(ops: seq<Entry>, e: Entry)
    ensures MemoryOf(ops + [e]) == Apply(MemoryOf(ops), e)
  {
    assert (ops + [e])[..|ops|] == ops;
  }
}
