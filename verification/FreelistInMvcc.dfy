/**
 The loop of mdb_freelist_save as one step of the protocol: the records it leaves are a filling
 in the sense of the protocol, and the freeDB it leaves is the one that the commit publishes.
 */
module FreelistInMvcc {
  import opened Base
  import opened FreelistSave
  import opened FreelistCommit
  import opened PrivateSteps
  import M = Mvcc
  import S = MvccSafety

  function Keys(rs: seq<Rec>): set<Txnid> {
    set r | r in rs :: r.key
  }

  /** The freeDB as the protocol sees it. */
  function Table(rs: seq<Rec>): map<Txnid, set<Pgno>> {
    map k | k in Keys(rs) :: PagesOf(IdsAt(rs, k))
  }

  /** The records up to me_pglast. */
  function FillOf(rs: seq<Rec>, last: Txnid): map<Txnid, set<Pgno>> {
    map k | k in Keys(rs) && k <= last :: PagesOf(IdsAt(rs, k))
  }

  /** The pools of a Saver that is done, and the same transaction in the protocol. */
  ghost predicate Matches(tx: M.Txn, txnid: Txnid, start: seq<Rec>, p: Pools, kept: seq<Pgno>) {
    && tx.txnid == txnid && tx.last == p.pglast
    && tx.loose == PagesOf(p.loose)
    && M.Head(tx) == PagesOf(kept)
    && tx.freed == PagesOf(p.freed)
    && tx.base.free == Table(start) && At(start, txnid).None?
  }

  // ---------------------------------------------------------------- records by key

  lemma {:induction false} KeyIsThere(rs: seq<Rec>, k: Txnid)
    ensures k in Keys(rs) <==> At(rs, k).Some?
  {
    if rs != [] {
      KeyIsThere(rs[1..], k);
      assert rs == [rs[0]] + rs[1..];
      assert k in Keys(rs[1..]) ==> k in Keys(rs);
    }
  }

  lemma {:induction false} AtIndex(rs: seq<Rec>, k: Txnid) returns (i: nat)
    requires At(rs, k).Some?
    ensures i < |rs| && rs[i].key == k
  {
    if rs[0].key == k {
      i := 0;
    } else {
      i := AtIndex(rs[1..], k);
      i := i + 1;
    }
  }

  /** A record up to `last` holds no more than all of them together. */
  lemma {:induction false} OneRecord(rs: seq<Rec>, k: Txnid, last: Txnid, x: Pgno)
    requires k <= last
    ensures multiset(IdsAt(rs, k))[x] <= StoredUpTo(rs, last)[x]
  {
    if rs != [] && rs[0].key != k {
      OneRecord(rs[1..], k, last, x);
    }
  }

  /** So do two records. */
  lemma {:induction false} TwoRecords(rs: seq<Rec>, j: Txnid, k: Txnid, last: Txnid, x: Pgno)
    requires j <= last && k <= last && j != k
    ensures multiset(IdsAt(rs, j))[x] + multiset(IdsAt(rs, k))[x] <= StoredUpTo(rs, last)[x]
  {
    if rs != [] {
      if rs[0].key == j {
        OneRecord(rs[1..], k, last, x);
      } else if rs[0].key == k {
        OneRecord(rs[1..], j, last, x);
      } else {
        TwoRecords(rs[1..], j, k, last, x);
      }
    }
  }

  /** Whatever is stored up to `last` is in a record. */
  lemma {:induction false} SomeRecord(rs: seq<Rec>, last: Txnid, x: Pgno) returns (k: Txnid)
    requires Keyed(rs) && x in StoredUpTo(rs, last)
    ensures k <= last && At(rs, k).Some? && x in IdsAt(rs, k)
  {
    if rs[0].key <= last && x in multiset(rs[0].ids) {
      k := rs[0].key;
    } else {
      k := SomeRecord(rs[1..], last, x);
      var i := AtIndex(rs[1..], k);
      assert rs[0].key < rs[i + 1].key;
    }
  }

  // ---------------------------------------------------------------- the step

  /** In a map that has every page once, no page is in two of the filled records. */
  lemma FilledOnce(rs: seq<Rec>, start: seq<Rec>, p: Pools, kept: seq<Pgno>, txnid: Txnid, total: multiset<Pgno>,
                   k: Txnid, j: Txnid, x: Pgno)
    requires Settled(rs, start, p, kept, txnid, total) && total[x] <= 1
    requires k <= p.pglast && j <= p.pglast && x in IdsAt(rs, k) && x in IdsAt(rs, j)
    ensures k == j
  {
    hide IdsAt, StoredUpTo, Unconsumed, Keyed, KeysFrom, KeysTo, SameAfter, At;
    assert multiset(IdsAt(rs, k))[x] >= 1 && multiset(IdsAt(rs, j))[x] >= 1;
    assert multiset(kept)[x] <= total[x];
    if k != j {
      TwoRecords(rs, j, k, p.pglast, x);
    }
  }

  /** What the loop leaves is what the protocol's save step asks for. */
  lemma SaveFills(tx: M.Txn, rs: seq<Rec>, start: seq<Rec>, p: Pools, kept: seq<Pgno>, txnid: Txnid, total: multiset<Pgno>)
    requires Settled(rs, start, p, kept, txnid, total) && (forall x :: total[x] <= 1)
    requires Matches(tx, txnid, start, p, kept)
    ensures M.Fills(tx, FillOf(rs, p.pglast))
  {
    hide At, IdsAt, Keyed, StoredUpTo, Unconsumed, SameAfter, Keys;
    var fill := FillOf(rs, p.pglast);
    forall k | k in fill
      ensures 1 <= k <= tx.last
    {
      KeyIsThere(rs, k);
      var i := AtIndex(rs, k);
    }
    forall k, x | k in fill && x in fill[k]
      ensures x in M.Head(tx)
    {
      OneRecord(rs, k, p.pglast, x);
      assert x in multiset(IdsAt(rs, k)) && x in multiset(kept);
    }
    forall k, j, x | k in fill && j in fill && x in fill[k] && x in fill[j]
      ensures k == j
    {
      FilledOnce(rs, start, p, kept, txnid, total, k, j, x);
    }
    forall x | x in M.Head(tx)
      ensures exists k :: k in fill && x in fill[k]
    {
      assert x in multiset(kept);
      var k := SomeRecord(rs, p.pglast, x);
      KeyIsThere(rs, k);
      assert k in fill && x in fill[k];
    }
  }

  /** The freeDB that the commit publishes is the one the loop has written, record by record. */
  lemma SaveIsTable(tx: M.Txn, rs: seq<Rec>, start: seq<Rec>, p: Pools, kept: seq<Pgno>, txnid: Txnid, total: multiset<Pgno>)
    requires Settled(rs, start, p, kept, txnid, total)
    requires Matches(tx, txnid, start, p, kept)
    ensures M.SavedFree(tx, FillOf(rs, p.pglast)) == Table(rs)
  {
    hide At, IdsAt, Keyed, StoredUpTo, Unconsumed, Keys;
    var fill, saved := FillOf(rs, p.pglast), M.SavedFree(tx, FillOf(rs, p.pglast));
    forall k: Txnid
      ensures k in saved <==> k in Table(rs)
      ensures k in saved ==> saved[k] == Table(rs)[k]
    {
      KeyIsThere(rs, k);
      KeyIsThere(start, k);
      if k == txnid {
        assert p.freed != [] ==> p.freed[0] in tx.freed;
      } else if p.pglast < k {
        assert At(rs, k) == At(start, k);
        SameIds(rs, start, k);
      }
    }
  }

  /**
   mdb_freelist_save in a run: when the loop is done, the protocol can take its save step with
   the loop's records, and the snapshot it is about to commit has the loop's freeDB.
   */
  lemma SaveIsAStep(s: M.State, rs: seq<Rec>, start: seq<Rec>, p: Pools, kept: seq<Pgno>, txnid: Txnid, total: multiset<Pgno>)
    requires Settled(rs, start, p, kept, txnid, total) && (forall x :: total[x] <= 1)
    requires s.writer.Writing? && s.writer.phase == M.Running && s.writer.scan == M.NotScanning
    requires S.TxnOk(s.writer.txn) && Matches(s.writer.txn, txnid, start, p, kept)
    ensures var tx := s.writer.txn;
            var m := M.Snapshot(txnid, tx.next, M.NewPages(tx), Table(rs));
            && M.DoSaveFreelist(s, s.(writer := s.writer.(phase := M.Saved(m))), FillOf(rs, p.pglast))
            && S.SavedOk(tx, m)
  {
    hide At, IdsAt, Keyed, StoredUpTo, Unconsumed, Keys, SameAfter, KeysFrom, KeysTo, M.Fills, M.SavedFree, S.SavedOk,
         FillOf, Table, S.Partitioned, S.Conserved, M.NewPages;
    var tx := s.writer.txn;
    SaveFills(tx, rs, start, p, kept, txnid, total);
    SaveIsTable(tx, rs, start, p, kept, txnid, total);
    assert tx.loose == {};
    S.SaveConserves(tx, FillOf(rs, p.pglast));
  }
}
