/** RESOLVE records arrive out of order. The final state of a replay does not
    depend on how those of different operations are interleaved. */
module Schedule {
  import opened Trace
  import Ledger

  ghost predicate AllResolves(recs: seq<Record>) {
    forall k :: 0 <= k < |recs| ==> recs[k].IsResolve()
  }

  /** The records of one id, in the order they appear. */
  function OfId(recs: seq<Record>, id: Id): seq<Record> {
    if recs == [] then []
    else (if recs[0].id == id then [recs[0]] else []) + OfId(recs[1..], id)
  }

  /** Two blocks that only differ in how the ids are interleaved. */
  ghost predicate SameOrderPerId(a: seq<Record>, b: seq<Record>) {
    forall id :: OfId(a, id) == OfId(b, id)
  }

  /** Resolving one id never changes which entry another id resolves. */
  lemma OldestOpenOfOtherId(ops: seq<Entry>, rec: Record, id: Id)
    requires rec.IsResolve() && rec.id != id
    ensures Ledger.OldestOpen(Ledger.Step(ops, rec), id, 0) == Ledger.OldestOpen(ops, id, 0)
  {
    var next := Ledger.Step(ops, rec);
    assert forall k :: 0 <= k < |ops| && ops[k].id == id ==> next[k] == ops[k];
    Ledger.OldestOpenIs(next, id, 0, Ledger.OldestOpen(ops, id, 0));
  }

  lemma ResolvesCommute(ops: seq<Entry>, r: Record, s: Record)
    requires r.IsResolve() && s.IsResolve() && r.id != s.id
    ensures Ledger.Step(Ledger.Step(ops, r), s) == Ledger.Step(Ledger.Step(ops, s), r)
  {
    OldestOpenOfOtherId(ops, r, s.id);
    OldestOpenOfOtherId(ops, s, r.id);
  }

  /** A record may be moved in front of records that all carry other ids. */
  lemma {:induction false} MoveToFront(ops: seq<Entry>, before: seq<Record>, r: Record, after: seq<Record>)
    requires AllResolves(before) && r.IsResolve()
    requires OfId(before, r.id) == []
    ensures Ledger.Extend(ops, before + [r] + after) == Ledger.Extend(ops, [r] + before + after)
    decreases |before|
  {
    if before == [] {
      assert before + [r] + after == [r] + before + after;
    } else {
      var s, rest := before[0], before[1..];
      calc {
        Ledger.Extend(ops, before + [r] + after);
        { assert before + [r] + after == [s] + (rest + [r] + after); }
        Ledger.Extend(ops, [s] + (rest + [r] + after));
        { Ledger.ExtendCons(ops, s, rest + [r] + after); }
        Ledger.Extend(Ledger.Step(ops, s), rest + [r] + after);
        { MoveToFront(Ledger.Step(ops, s), rest, r, after); }
        Ledger.Extend(Ledger.Step(ops, s), [r] + rest + after);
        { assert [r] + rest + after == [r] + (rest + after); }
        Ledger.Extend(Ledger.Step(ops, s), [r] + (rest + after));
        { ExtendBoth(ops, s, r, rest + after); }
        Ledger.Extend(ops, [r] + ([s] + (rest + after)));
        { assert [r] + ([s] + (rest + after)) == [r] + before + after; }
        Ledger.Extend(ops, [r] + before + after);
      }
    }
  }

  lemma ExtendBoth(ops: seq<Entry>, s: Record, r: Record, rest: seq<Record>)
    requires r.IsResolve() && s.IsResolve() && r.id != s.id
    ensures Ledger.Extend(Ledger.Step(ops, s), [r] + rest) == Ledger.Extend(ops, [r] + ([s] + rest))
  {
    Ledger.ExtendCons(Ledger.Step(ops, s), r, rest);
    ResolvesCommute(ops, r, s);
    Ledger.ExtendCons(Ledger.Step(ops, r), s, rest);
    Ledger.ExtendCons(ops, r, [s] + rest);
  }

  lemma {:induction false} OfIdConcat(a: seq<Record>, b: seq<Record>, id: Id)
    ensures OfId(a + b, id) == OfId(a, id) + OfId(b, id)
  {
    if a == [] {
      assert a + b == b;
    } else {
      assert (a + b)[1..] == a[1..] + b;
      OfIdConcat(a[1..], b, id);
    }
  }

  lemma FirstIsOfItsId(recs: seq<Record>)
    ensures recs == [] || OfId(recs, recs[0].id) != []
  {
  }

  lemma DropFirst(a: seq<Record>, before: seq<Record>, r: Record, after: seq<Record>, id: Id)
    requires OfId(before, r.id) == []
    requires OfId([r] + a, id) == OfId(before + [r] + after, id)
    ensures OfId(a, id) == OfId(before + after, id)
  {
    assert before + [r] + after == before + ([r] + after);
    OfIdConcat(before, [r] + after, id);
    OfIdConcat([r], after, id);
    OfIdConcat([r], a, id);
    OfIdConcat(before, after, id);
    if r.id == id {
      assert ([r] + OfId(a, id))[1..] == OfId(a, id);
      assert ([r] + OfId(after, id))[1..] == OfId(after, id);
    } else {
      assert OfId([r], id) + OfId(a, id) == OfId(a, id);
      assert OfId([r], id) + OfId(after, id) == OfId(after, id);
    }
  }

  /** Splits a block at its first record of a given id. */
  lemma {:induction false} SplitAtFirst(recs: seq<Record>, id: Id) returns (j: nat)
    requires OfId(recs, id) != []
    ensures j < |recs| && recs[j].id == id && recs[j] == OfId(recs, id)[0]
    ensures OfId(recs[..j], id) == []
  {
    if recs[0].id == id {
      j := 0;
    } else {
      var i := SplitAtFirst(recs[1..], id);
      j := i + 1;
      assert recs[..j][1..] == recs[1..][..i];
    }
  }

  /** Schedule independence. Any reordering of a block of RESOLVE records that
      keeps each id's own order leads to the same ledger. */
  lemma {:induction false} ReorderedBlock(ops: seq<Entry>, a: seq<Record>, b: seq<Record>)
    requires AllResolves(a) && AllResolves(b)
    requires SameOrderPerId(a, b)
    ensures Ledger.Extend(ops, a) == Ledger.Extend(ops, b)
    decreases |a|
  {
    if a == [] {
      FirstIsOfItsId(b);
    } else {
      var r := a[0];
      assert OfId(a, r.id) == OfId(b, r.id);
      var j := SplitAtFirst(b, r.id);
      var rest := b[..j] + b[j+1..];
      assert b == b[..j] + [r] + b[j+1..] && a == [r] + a[1..];
      MoveToFront(ops, b[..j], r, b[j+1..]);
      assert [r] + b[..j] + b[j+1..] == [r] + rest;
      assert ([r] + rest)[1..] == rest;
      forall id ensures OfId(a[1..], id) == OfId(rest, id) {
        assert OfId(a, id) == OfId(b, id);
        DropFirst(a[1..], b[..j], r, b[j+1..], id);
      }
      ReorderedBlock(Ledger.Step(ops, r), a[1..], rest);
    }
  }
}
