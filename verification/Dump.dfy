/** The final report: flatten the hash table into an array of entry pointers,
    sort it by address, print one row per entry. */
module Dump {
  import opened Trace
  import opened MemTable

  /** The chains of the first `n` buckets, one after the other. */
  ghost function Flat(chains: seq<seq<MemEntry>>, n: nat): seq<MemEntry>
    requires n <= |chains|
  {
    if n == 0 then [] else Flat(chains, n - 1) + chains[n - 1]
  }

  lemma {:induction false} FlatGrows(chains: seq<seq<MemEntry>>, n: nat, m: nat)
    requires n <= m <= |chains|
    ensures |Flat(chains, n)| <= |Flat(chains, m)|
    decreases m
  {
    if n < m {
      FlatGrows(chains, n, m - 1);
    }
  }

  ghost predicate DistinctAddresses(es: seq<MemEntry>) {
    forall i, j :: 0 <= i < j < |es| ==> es[i].addr != es[j].addr
  }

  ghost function Addresses(es: seq<MemEntry>): set<uint64> { set e <- es :: e.addr }

  /** Two lists of different buckets share no address. */
  lemma DistinctTogether(before: seq<MemEntry>, chain: seq<MemEntry>, h: nat)
    requires DistinctAddresses(before) && DistinctAddresses(chain)
    requires (forall e <- before :: Hash(e.addr) < h) && (forall e <- chain :: Hash(e.addr) == h)
    ensures DistinctAddresses(before + chain)
  {
    forall i, j | 0 <= i < |before| && 0 <= j < |chain| ensures before[i].addr != chain[j].addr {
      assert before[i] in before && chain[j] in chain;
    }
  }

  /** Flattening the first buckets lists each of their entries once. */
  lemma {:induction false} FlatListsBuckets(
      buckets: seq<MemEntry?>, chains: seq<seq<MemEntry>>, entries: map<uint64, MemEntry>, n: nat)
    requires Shape(buckets, chains, entries) && n <= HASH_SIZE
    ensures DistinctAddresses(Flat(chains, n))
    ensures forall e <- Flat(chains, n) :: Hash(e.addr) < n && e.addr in entries && entries[e.addr] == e
    ensures forall a <- entries :: Hash(a) < n ==> entries[a] in Flat(chains, n)
  {
    if n > 0 {
      FlatListsBuckets(buckets, chains, entries, n - 1);
      assert ChainOk(buckets[n - 1], chains[n - 1], n - 1, entries);
      DistinctTogether(Flat(chains, n - 1), chains[n - 1], n - 1);
      forall a <- entries | Hash(a) < n ensures entries[a] in Flat(chains, n) {
        assert Listed(a, chains, entries);
      }
    }
  }

  lemma {:induction false} DistinctCount(es: seq<MemEntry>)
    requires DistinctAddresses(es)
    ensures |Addresses(es)| == |es|
  {
    if es != [] {
      var init, last := es[..|es|-1], es[|es|-1];
      DistinctCount(init);
      assert Addresses(es) == Addresses(init) + {last.addr};
    }
  }

  /** The counter is the number of entries in all chains together, so the array
      of `totalEntries` pointers is filled exactly. */
  lemma FlatFillsTheDump(buckets: seq<MemEntry?>, chains: seq<seq<MemEntry>>, entries: map<uint64, MemEntry>)
    requires Shape(buckets, chains, entries)
    ensures |Flat(chains, HASH_SIZE)| == |entries|
  {
    FlatListsBuckets(buckets, chains, entries, HASH_SIZE);
    var flat := Flat(chains, HASH_SIZE);
    DistinctCount(flat);
    forall a <- entries ensures a in Addresses(flat) {
      assert entries[a] in flat;
    }
    assert Addresses(flat) == entries.Keys;
    assert |entries.Keys| == |entries|;
  }

  /** Copies one chain into the array, from position `start` on. */
  method CopyChain(list: array<MemEntry?>, start: nat, first: MemEntry?, ghost chain: seq<MemEntry>)
      returns (idx: nat)
    requires Linked(first, chain) && start + |chain| <= list.Length
    modifies list
    ensures idx == start + |chain|
    ensures list[..idx] == old(list[..start]) + chain
  {
    idx := start;
    var e := first;
    ghost var j := 0;
    while e != null
      invariant 0 <= j <= |chain| && idx == start + j
      invariant Linked(e, chain[j..])
      invariant list[..idx] == old(list[..start]) + chain[..j]
      decreases |chain| - j
    {
      assert e == chain[j];
      assert chain[j..][1..] == chain[j + 1..];
      list[idx] := e;
      idx := idx + 1;
      e := e.next;
      j := j + 1;
    }
  }

  /** Copies every chain into an array of pointers. */
  method Flatten(t: Table) returns (list: array<MemEntry?>)
    requires t.Valid()
    ensures fresh(list) && list.Length == t.totalEntries
    ensures list[..] == Flat(t.chains, HASH_SIZE)
  {
    list := new MemEntry?[t.totalEntries](_ => null);
    var idx := 0;
    FlatFillsTheDump(t.buckets[..], t.chains, t.entries);
    for i := 0 to HASH_SIZE
      invariant idx == |Flat(t.chains, i)| <= list.Length
      invariant list[..idx] == Flat(t.chains, i)
    {
      assert ChainOk(t.buckets[..][i], t.chains[i], i, t.entries);
      FlatGrows(t.chains, i + 1, HASH_SIZE);
      idx := CopyChain(list, idx, t.buckets[i], t.chains[i]);
    }
  }

  // --------------------------------------------------------------- Sorted rows

  datatype Row = Row(addr: uint64, value: uint64, lastAccess: nat)

  /** The comparison given to the library sort. */
  function CompareMemAddr(a: Row, b: Row): int {
    if a.addr < b.addr then -1 else if a.addr > b.addr then 1 else 0
  }

  ghost predicate SortedByAddress(rows: seq<Row>) {
    forall i, j :: 0 <= i < j < |rows| ==> CompareMemAddr(rows[i], rows[j]) <= 0
  }

  ghost predicate RowOf(row: Row, m: Memory) {
    row.addr in m && m[row.addr] == Cell(row.value, row.lastAccess)
  }

  /** Every address of the memory, with its cell, once. */
  ghost predicate Tabulates(rows: seq<Row>, m: Memory) {
    && (forall row <- rows :: RowOf(row, m))
    && (forall a <- m :: Row(a, m[a].value, m[a].lastAccess) in rows)
    && |rows| == |m|
  }

  /** The report as its reader expects it: strictly increasing addresses. */
  ghost predicate IsReport(rows: seq<Row>, m: Memory) {
    && Tabulates(rows, m)
    && forall i, j :: 0 <= i < j < |rows| ==> rows[i].addr < rows[j].addr
  }

  ghost function RowAt(e: MemEntry): Row
    reads e
  {
    Row(e.addr, e.value, e.lastAccess)
  }

  lemma FlatTabulates(t: Table, rows: seq<Row>)
    requires t.Valid()
    requires |rows| == |Flat(t.chains, HASH_SIZE)|
    requires forall i :: 0 <= i < |rows| ==> rows[i] == RowAt(Flat(t.chains, HASH_SIZE)[i])
    ensures Tabulates(rows, t.Contents())
  {
    var flat, m := Flat(t.chains, HASH_SIZE), t.Contents();
    FlatListsBuckets(t.buckets[..], t.chains, t.entries, HASH_SIZE);
    FlatFillsTheDump(t.buckets[..], t.chains, t.entries);
    assert m.Keys == t.entries.Keys;
    forall row <- rows ensures RowOf(row, m) {
      var i :| 0 <= i < |rows| && rows[i] == row;
      assert flat[i] in flat;
    }
    forall a <- m ensures Row(a, m[a].value, m[a].lastAccess) in rows {
      var i :| 0 <= i < |flat| && flat[i] == t.entries[a];
      assert rows[i] == Row(a, m[a].value, m[a].lastAccess);
    }
    assert |m.Keys| == |m| && |t.entries.Keys| == |t.entries|;
  }

  /** Flattens the table and reads one row from each entry. */
  method Rows(t: Table) returns (rows: seq<Row>)
    requires t.Valid()
    ensures Tabulates(rows, t.Contents())
  {
    var list := Flatten(t);
    ghost var flat := Flat(t.chains, HASH_SIZE);
    FlatFillsTheDump(t.buckets[..], t.chains, t.entries);
    rows := [];
    for i := 0 to t.totalEntries
      invariant |rows| == i
      invariant forall k :: 0 <= k < i ==> rows[k] == RowAt(flat[k])
    {
      assert list[..][i] == flat[i];
      var e := list[i];
      rows := rows + [Row(e.addr, e.value, e.lastAccess)];
    }
    FlatTabulates(t, rows);
  }

  ghost function RowAddresses(rows: seq<Row>): set<uint64> { set row <- rows :: row.addr }

  lemma {:induction false} AtMostOneAddressPerRow(rows: seq<Row>)
    ensures |RowAddresses(rows)| <= |rows|
  {
    if rows != [] {
      AtMostOneAddressPerRow(rows[1..]);
      assert RowAddresses(rows) == {rows[0].addr} + RowAddresses(rows[1..]);
    }
  }

  lemma TabulatedOnce(rows: seq<Row>, m: Memory, i: nat, j: nat)
    requires Tabulates(rows, m) && i < j < |rows|
    ensures rows[i].addr != rows[j].addr
  {
    assert |m.Keys| == |m|;
    if rows[i].addr == rows[j].addr {
      var others := rows[..j] + rows[j+1..];
      assert others[i] == rows[i];
      forall a <- m ensures a in RowAddresses(others) {
        var row := Row(a, m[a].value, m[a].lastAccess);
        var k :| 0 <= k < |rows| && rows[k] == row;
        assert k != j ==> row == others[if k < j then k else k - 1];
      }
      assert RowAddresses(others) >= m.Keys;
      SubsetSize(m.Keys, RowAddresses(others));
      AtMostOneAddressPerRow(others);
    }
  }

  lemma {:induction false} SubsetSize<T>(a: set<T>, b: set<T>)
    requires a <= b
    ensures |a| <= |b|
  {
    if x :| x in a {
      SubsetSize(a - {x}, b - {x});
    }
  }

  /** Whatever the library sort does with equal keys, its result on the
      flattened table is the report. */
  lemma SortedDumpIsReport(rows: seq<Row>, sorted: seq<Row>, m: Memory)
    requires Tabulates(rows, m)
    requires multiset(sorted) == multiset(rows) && SortedByAddress(sorted)
    ensures IsReport(sorted, m)
  {
    assert |multiset(sorted)| == |multiset(rows)|;
    assert forall row :: row in sorted <==> row in multiset(sorted);
    assert forall row :: row in rows <==> row in multiset(rows);
    assert Tabulates(sorted, m);
    forall i, j | 0 <= i < j < |sorted| ensures sorted[i].addr < sorted[j].addr {
      TabulatedOnce(sorted, m, i, j);
      assert CompareMemAddr(sorted[i], sorted[j]) <= 0;
    }
  }

  lemma ReportPosition(a: seq<Row>, b: seq<Row>, m: Memory, k: nat) returns (i: nat)
    requires IsReport(a, m) && IsReport(b, m) && k < |a| && a[..k] == b[..k]
    ensures k <= i < |b| && b[i] == a[k]
  {
    assert RowOf(a[k], m);
    i :| 0 <= i < |b| && b[i] == a[k];
    assert forall x :: 0 <= x < k ==> a[..k][x] == a[x] && b[..k][x] == b[x];
  }

  lemma {:induction false} ReportsAgreeUpTo(a: seq<Row>, b: seq<Row>, m: Memory, k: nat)
    requires IsReport(a, m) && IsReport(b, m) && k <= |m|
    ensures a[..k] == b[..k]
  {
    if k > 0 {
      ReportsAgreeUpTo(a, b, m, k - 1);
      var i := ReportPosition(a, b, m, k - 1);
      var j := ReportPosition(b, a, m, k - 1);
    }
  }

  /** A memory has one report. */
  lemma ReportIsUnique(a: seq<Row>, b: seq<Row>, m: Memory)
    requires IsReport(a, m) && IsReport(b, m)
    ensures a == b
  {
    ReportsAgreeUpTo(a, b, m, |m|);
    assert a[..|m|] == a && b[..|m|] == b;
  }
}
