/** The chained hash table both replay programs keep architectural memory in:
    4096 buckets, new entries put in front of their chain, existing entries
    changed in place. */
module MemTable {
  import opened Trace

  const HASH_SIZE := 4096

  function Hash(addr: uint64): nat { addr % HASH_SIZE }

  class MemEntry {
    const addr: uint64
    var value: uint64
    var lastAccess: nat
    const next: MemEntry?

    constructor (addr: uint64, value: uint64, lastAccess: nat, next: MemEntry?)
      ensures this.addr == addr && this.value == value
      ensures this.lastAccess == lastAccess && this.next == next
    {
      this.addr, this.value, this.lastAccess, this.next := addr, value, lastAccess, next;
    }

    ghost function Cell(): Cell
      reads this
    {
      Trace.Cell.Cell(value, lastAccess)
    }
  }

  /** `chain` is the list of entries reached from `e` by following `next`. */
  ghost predicate Linked(e: MemEntry?, chain: seq<MemEntry>) {
    if e == null then chain == []
    else |chain| > 0 && chain[0] == e && Linked(e.next, chain[1..])
  }

  /** One bucket's chain: linked from the bucket, all of its entries known
      under their address, hashing here, no address twice. */
  ghost predicate ChainOk(e: MemEntry?, chain: seq<MemEntry>, h: nat, entries: map<uint64, MemEntry>) {
    && Linked(e, chain)
    && (forall i :: 0 <= i < |chain| ==>
          Hash(chain[i].addr) == h && chain[i].addr in entries && entries[chain[i].addr] == chain[i])
    && (forall i, j :: 0 <= i < j < |chain| ==> chain[i].addr != chain[j].addr)
  }

  ghost predicate Listed(a: uint64, chains: seq<seq<MemEntry>>, entries: map<uint64, MemEntry>)
    requires |chains| == HASH_SIZE && a in entries
  {
    entries[a] in chains[Hash(a)]
  }

  /** The chains of all buckets together hold exactly the known entries. */
  ghost predicate Shape(buckets: seq<MemEntry?>, chains: seq<seq<MemEntry>>, entries: map<uint64, MemEntry>) {
    && |buckets| == |chains| == HASH_SIZE
    && (forall h :: 0 <= h < HASH_SIZE ==> ChainOk(buckets[h], chains[h], h, entries))
    && (forall a :: a in entries ==> entries[a].addr == a)
    && (forall a {:trigger Listed(a, chains, entries)} :: a in entries ==> Listed(a, chains, entries))
  }

  lemma PrependKeepsShape(
      buckets: seq<MemEntry?>, chains: seq<seq<MemEntry>>, entries: map<uint64, MemEntry>, e: MemEntry, h: nat)
    requires Shape(buckets, chains, entries)
    requires h == Hash(e.addr) && e.addr !in entries && e.next == buckets[h]
    ensures Shape(buckets[h := e], chains[h := [e] + chains[h]], entries[e.addr := e])
  {
    var chain, entries' := [e] + chains[h], entries[e.addr := e];
    assert chain[1..] == chains[h];
    assert ChainOk(e, chain, h, entries') by {
      assert ChainOk(buckets[h], chains[h], h, entries);
    }
    forall g | 0 <= g < HASH_SIZE && g != h
      ensures ChainOk(buckets[g], chains[g], g, entries')
    {
      assert ChainOk(buckets[g], chains[g], g, entries);
    }
    forall a | a in entries' ensures Listed(a, chains[h := chain], entries') {
      if a == e.addr {
        assert chain[0] == e;
      } else {
        assert Listed(a, chains, entries);
        assert Hash(a) == h ==> entries[a] in chain;
      }
    }
  }

  class Table {
    const buckets: array<MemEntry?>
    var totalEntries: nat
    ghost var chains: seq<seq<MemEntry>>
    ghost var entries: map<uint64, MemEntry>
    ghost var Repr: set<object>

    ghost predicate Valid()
      reads this, Repr
    {
      && this in Repr && buckets in Repr
      && (forall a :: a in entries ==> entries[a] in Repr)
      && Shape(buckets[..], chains, entries)
      && totalEntries == |entries|
    }

    /** The memory the table stands for. */
    ghost function Contents(): Memory
      requires Valid()
      reads this, Repr
    {
      map a | a in entries :: entries[a].Cell()
    }

    constructor ()
      ensures Valid() && fresh(Repr)
      ensures Contents() == map[]
    {
      buckets := new MemEntry?[HASH_SIZE](_ => null);
      totalEntries := 0;
      chains := seq(HASH_SIZE, _ => []);
      entries := map[];
      new;
      Repr := {this, buckets};
    }

    /** Walks the bucket of an address. */
    method Lookup(addr: uint64) returns (e: MemEntry?)
      requires Valid()
      ensures e == null ==> addr !in entries
      ensures e != null ==> e.addr == addr && addr in entries && entries[addr] == e
    {
      var h := Hash(addr);
      e := buckets[h];
      assert ChainOk(buckets[..][h], chains[h], h, entries);
      assert addr in entries ==> Listed(addr, chains, entries);
      ghost var i := 0;
      while e != null
        invariant 0 <= i <= |chains[h]|
        invariant Linked(e, chains[h][i..])
        invariant forall j :: 0 <= j < i ==> chains[h][j].addr != addr
        decreases |chains[h]| - i
      {
        assert e == chains[h][i];
        if e.addr == addr {
          return;
        }
        assert chains[h][i..][1..] == chains[h][i + 1..];
        e := e.next;
        i := i + 1;
      }
    }

    /** Writes one address: in place when its chain has it, in front otherwise. */
    method Update(addr: uint64, value: uint64, accessNum: nat)
      requires Valid()
      modifies Repr
      ensures Valid() && fresh(Repr - old(Repr))
      ensures Contents() == old(Contents())[addr := Trace.Cell.Cell(value, accessNum)]
    {
      var e := Lookup(addr);
      if e != null {
        Overwrite(e, value, accessNum);
      } else {
        Prepend(addr, value, accessNum);
      }
    }

    method Overwrite(e: MemEntry, value: uint64, accessNum: nat)
      requires Valid() && e.addr in entries && entries[e.addr] == e
      modifies Repr
      ensures Valid() && Repr == old(Repr)
      ensures Contents() == old(Contents())[e.addr := Trace.Cell.Cell(value, accessNum)]
    {
      e.value := value;
      e.lastAccess := accessNum;
      assert forall a :: a in entries && a != e.addr ==> entries[a] != e;
    }

    method Prepend(addr: uint64, value: uint64, accessNum: nat)
      requires Valid() && addr !in entries
      modifies Repr
      ensures Valid() && fresh(Repr - old(Repr))
      ensures Contents() == old(Contents())[addr := Trace.Cell.Cell(value, accessNum)]
      ensures addr in entries && chains == old(chains)[Hash(addr) := [entries[addr]] + old(chains)[Hash(addr)]]
      ensures totalEntries == old(totalEntries) + 1
    {
      var e := new MemEntry(addr, value, accessNum, buckets[Hash(addr)]);
      Link(e);
    }

    method Link(e: MemEntry)
      requires Valid() && e.addr !in entries && e.next == buckets[Hash(e.addr)]
      modifies this, buckets
      ensures Valid() && Repr == old(Repr) + {e}
      ensures entries == old(entries)[e.addr := e]
      ensures chains == old(chains)[Hash(e.addr) := [e] + old(chains)[Hash(e.addr)]]
      ensures totalEntries == old(totalEntries) + 1
    {
      var h := Hash(e.addr);
      PrependKeepsShape(buckets[..], chains, entries, e, h);
      ghost var before := buckets[..];
      buckets[h] := e;
      assert buckets[..] == before[h := e];
      totalEntries := totalEntries + 1;
      chains := chains[h := [e] + chains[h]];
      entries := entries[e.addr := e];
      Repr := Repr + {e};
    }
  }
}
