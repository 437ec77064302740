/**
 The copy-on-write transaction inside the protocol: whatever puts and deletions have done to its
 pages, the protocol's transaction can do by private steps, so that its theorems hold for it.
 */
module CowInMvcc {
  import opened Base
  import opened PageMemory
  import opened PrivateSteps
  import PageTree
  import C = CowTxn
  import M = Mvcc
  import S = MvccSafety

  // ---------------------------------------------------------------- from the beginning to any state

  /** A transaction that has written nothing yet; it may have fetched records. */
  predicate Begins(tx: M.Txn) {
    tx.mem == map[] && tx.freed == {} && tx.loose == {}
  }

  /** What is known of a transaction that has gone on from tx without fetching more. */
  ghost predicate GoneOn(tx: M.Txn, tx': M.Txn) {
    && tx' == tx.(next := tx'.next, mem := tx'.mem, used := tx'.used, freed := tx'.freed, loose := tx'.loose, head := tx'.head)
    && tx.next <= tx'.next && (tx.head.Some? <==> tx'.head.Some?) && M.Head(tx') <= M.Head(tx)
    && tx'.mem.Keys == (M.Head(tx) - M.Head(tx')) + M.Run(tx.next, tx'.next - tx.next)
    && tx'.loose <= tx'.mem.Keys
  }

  lemma TakeHead(tx: M.Txn, tx': M.Txn, oldest: Txnid)
    requires Begins(tx) && GoneOn(tx, tx')
    ensures var out := M.Head(tx) - M.Head(tx');
            Leads(tx, tx.(head := tx'.head, used := tx.used + out, mem := Part(tx'.mem, out)), oldest)
  {
    hide Leads, M.Run;
    var out := M.Head(tx) - M.Head(tx');
    var m := Part(tx'.mem, out);
    var t := tx.(head := tx'.head, used := tx.used + out, mem := m);
    if tx.head.Some? {
      Stays(tx, oldest);
      TakeAll(tx, tx, out, tx'.mem, oldest);
      assert M.Head(tx) - out == tx'.head.value;
      assert tx.mem + m == m;
      assert t == Taken(tx, out, tx'.mem);
    } else {
      assert m == map[] && tx.used + out == tx.used && t == tx;
      Stays(tx, oldest);
    }
  }

  lemma Reaches(tx: M.Txn, tx': M.Txn, oldest: Txnid)
    requires S.Partitioned(tx) && S.Partitioned(tx') && Begins(tx) && GoneOn(tx, tx')
    ensures Leads(tx, tx', oldest)
  {
    hide Leads, S.Partitioned;
    var out, more := M.Head(tx) - M.Head(tx'), M.Run(tx.next, tx'.next - tx.next);
    TakeHead(tx, tx', oldest);
    var t1 := tx.(head := tx'.head, used := tx.used + out, mem := Part(tx'.mem, out));
    HeadIsOld(tx, tx'.next);
    hide M.Run, M.Head;
    ExtendOnce(tx, t1, tx'.next, tx'.mem, oldest);
    PartsMoved(tx, tx');
    var t2 := t1.(next := tx'.next, used := t1.used + more, mem := tx'.mem);
    FreeAll(tx, t2, tx'.freed, oldest);
    var t3 := t2.(used := t2.used - tx'.freed, freed := t2.freed + tx'.freed);
    PartsApart(tx');
    LoosenAll(tx, t3, tx'.loose, oldest);
    assert t3.used - tx'.loose == tx'.used;
    assert t3.freed == tx'.freed && t3.loose + tx'.loose == tx'.loose;
  }

  lemma HeadIsOld(tx: M.Txn, next: Pgno)
    requires S.Partitioned(tx) && tx.next <= next
    ensures M.Head(tx) !! M.Run(tx.next, next - tx.next)
  {
    hide S.Listed;
    InRuns(2, tx.next - 2);
    InRuns(tx.next, next - tx.next);
    assert M.Head(tx) <= S.Below(tx.next);
  }

  lemma PartsApart(tx: M.Txn)
    requires S.Partitioned(tx)
    ensures tx.used !! tx.freed !! tx.loose
  {
  }

  /** What left me_pghead or was added to the map is in use, freed or loose. */
  lemma PartsMoved(tx: M.Txn, tx': M.Txn)
    requires S.Partitioned(tx) && S.Partitioned(tx') && Begins(tx) && GoneOn(tx, tx')
    ensures tx.used + (M.Head(tx) - M.Head(tx')) + M.Run(tx.next, tx'.next - tx.next) == tx'.used + tx'.freed + tx'.loose
  {
    hide S.Listed;
    InRuns(tx.next, tx'.next - tx.next);
    InRuns(2, tx.next - 2);
    InRuns(2, tx'.next - 2);
    assert S.Pending(tx) == S.Pending(tx');
    forall p
      ensures p in tx.used + (M.Head(tx) - M.Head(tx')) + M.Run(tx.next, tx'.next - tx.next) <==>
              p in tx'.used + tx'.freed + tx'.loose
    {
      assert p in S.Below(tx.next) <==> p in tx.used + M.Head(tx) + S.Pending(tx);
      assert p in S.Below(tx'.next) <==> p in tx'.used + tx'.freed + tx'.loose + M.Head(tx') + S.Pending(tx');
    }
  }

  // ---------------------------------------------------------------- the copy-on-write transaction

  /** How a page is laid out in bytes. */
  type Encoding = Page -> Content

  ghost function TreePages(t: Option<LTree>): set<Pgno> {
    if t.None? then {} else set p | p in Labels(t.value)
  }

  /** The protocol's transaction tx, after what t has done since it began as tx. */
  ghost function Abs(tx: M.Txn, t: C.Txn, enc: Encoding): M.Txn
    reads t
  {
    tx.(next := t.next,
        mem := map p | p in t.dirty :: if p in t.pages then enc(t.pages[p]) else [],
        used := TreePages(t.tree) + (t.others - S.Pending(tx)),
        freed := PagesOf(t.freed), loose := PagesOf(t.loose),
        head := if tx.head.Some? then Some(PagesOf(t.pool)) else None)
  }

  /** t began as the protocol's transaction tx. */
  ghost predicate BeganAs(t: C.Txn, tx: M.Txn)
    reads t
  {
    && Begins(tx) && S.Partitioned(tx)
    && M.Head(tx) == PagesOf(t.pool0) && tx.next == t.next0 && S.Pending(tx) <= t.others
    && (tx.head.None? ==> t.pool0 == [])
  }

  lemma AtPage(t: C.Txn, p: Pgno)
    requires t.Valid()
    ensures var live := if t.tree.None? then multiset{} else Labels(t.tree.value);
            live[p] + multiset(t.freed)[p] + multiset(t.loose)[p] + multiset(t.pool)[p] + multiset(t.others)[p] ==
            if NUM_METAS <= p < t.next then 1 else 0
    ensures p in TreePages(t.tree) <==> (if t.tree.None? then multiset{} else Labels(t.tree.value))[p] > 0
  {
    hide Labels;
    var live := if t.tree.None? then multiset{} else Labels(t.tree.value);
    var all := live + multiset(t.freed) + multiset(t.loose) + multiset(t.pool) + multiset(t.others);
    assert all[p] == multiset(PageTree.InUse(t.next))[p];
  }

  /** Each page below the end of the map is in just one of the five places. */
  ghost predicate OnePlace(a: M.Txn, p: Pgno) {
    && (2 <= p < a.next <==> p in a.used || p in a.freed || p in a.loose || p in M.Head(a) || p in S.Pending(a))
    && (p in a.used ==> p !in a.freed && p !in a.loose && p !in M.Head(a) && p !in S.Pending(a))
    && (p in a.freed ==> p !in a.loose && p !in M.Head(a) && p !in S.Pending(a))
    && (p in a.loose ==> p !in M.Head(a) && p !in S.Pending(a))
    && (p in M.Head(a) ==> p !in S.Pending(a))
  }

  lemma AbsAt(tx: M.Txn, t: C.Txn, enc: Encoding, p: Pgno)
    requires t.Valid() && BeganAs(t, tx)
    ensures OnePlace(Abs(tx, t, enc), p)
  {
    hide Labels, S.Listed, S.Partitioned;
    assert S.Pending(Abs(tx, t, enc)) == S.Pending(tx);
    AtPage(t, p);
  }

  lemma OnePlaceEach(a: M.Txn)
    requires 2 <= a.base.next <= a.next && forall p: Pgno :: OnePlace(a, p)
    ensures S.Partitioned(a)
  {
    hide S.Listed;
    InRuns(2, a.next - 2);
    forall p: Pgno
      ensures p in a.used + a.freed + a.loose + M.Head(a) + S.Pending(a) <==> p in S.Below(a.next)
      ensures p in a.used ==> p !in a.freed && p !in a.loose && p !in M.Head(a) && p !in S.Pending(a)
      ensures p in a.freed ==> p !in a.loose && p !in M.Head(a) && p !in S.Pending(a)
      ensures p in a.loose ==> p !in M.Head(a) && p !in S.Pending(a)
      ensures p in M.Head(a) ==> p !in S.Pending(a)
    {
      assert OnePlace(a, p);
    }
    assert a.used + a.freed + a.loose + M.Head(a) + S.Pending(a) == S.Below(a.next);
  }

  lemma AbsGoesOn(tx: M.Txn, t: C.Txn, enc: Encoding)
    requires t.Valid() && BeganAs(t, tx)
    ensures S.Partitioned(Abs(tx, t, enc)) && GoneOn(tx, Abs(tx, t, enc))
  {
    AbsIsLater(tx, t, enc);
    var a := Abs(tx, t, enc);
    assert 2 <= a.base.next <= a.next;
    hide Abs, S.Partitioned, GoneOn, BeganAs, OnePlace;
    forall p: Pgno
      ensures OnePlace(a, p)
    {
      AbsAt(tx, t, enc, p);
    }
    OnePlaceEach(a);
  }

  lemma AbsIsLater(tx: M.Txn, t: C.Txn, enc: Encoding)
    requires t.Valid() && BeganAs(t, tx)
    ensures GoneOn(tx, Abs(tx, t, enc))
  {
    hide Labels, S.Listed;
    InRuns(tx.next, t.next - tx.next);
  }

  /**
   Whatever a write transaction has done to its pages and lists, by any puts and deletions, a
   run of the protocol's private steps does as well.
   */
  lemma TxnIsPrivate(tx: M.Txn, t: C.Txn, enc: Encoding, oldest: Txnid)
    requires t.Valid() && BeganAs(t, tx)
    ensures Leads(tx, Abs(tx, t, enc), oldest)
  {
    AbsGoesOn(tx, t, enc);
    Reaches(tx, Abs(tx, t, enc), oldest);
  }

  // ---------------------------------------------------------------- in the whole protocol

  /** The protocol's state with the transaction as far as t has come is one of its states. */
  lemma AbsKeepsInv(s: M.State, t: C.Txn, enc: Encoding)
    requires S.Inv(s) && s.writer.Writing? && s.writer.phase == M.Running && s.writer.scan == M.NotScanning
    requires t.Valid() && BeganAs(t, s.writer.txn)
    ensures S.Inv(WithTxn(s, Abs(s.writer.txn, t, enc)))
  {
    hide S.Inv, M.TxnNext, Abs, BeganAs;
    var tx := s.writer.txn;
    var oldest := M.CachedOldest(s, s.writer.proc);
    TxnIsPrivate(tx, t, enc, oldest);
    LeadsKeepsInv(s, Abs(tx, t, enc), oldest);
  }

  lemma Shields(s: M.State)
    requires S.Inv(s) && s.writer.Writing? && s.writer.phase == M.Running
    ensures |s.log| >= 1 && S.TxnShields(s.writer.txn, s.readers, s.log)
  {
    hide S.MetasOk, S.ReadersOk, S.ScanOk;
    S.MetasLog(s);
  }

  /**
   In the protocol's terms, nothing that a transaction has dirtied, freed up for reuse or may
   still hand out belongs to a snapshot that a live reader or a meta page names.
   */
  lemma TxnSparesReaders(s: M.State, t: C.Txn, enc: Encoding, i: nat)
    requires S.Inv(s) && s.writer.Writing? && s.writer.phase == M.Running && s.writer.scan == M.NotScanning
    requires t.Valid() && BeganAs(t, s.writer.txn)
    ensures |s.log| >= 1
    ensures forall p :: p in S.Last(s).pages || p in S.Previous(s).pages ==> p !in t.dirty && p !in t.pool && p < t.next
    ensures i < |s.readers| && s.readers[i].pc.Active? ==>
              forall p :: p in s.readers[i].pc.snap.pages ==> p !in t.dirty && p !in t.pool && p < t.next
  {
    var a := Abs(s.writer.txn, t, enc);
    AbsKeepsInv(s, t, enc);
    Shields(WithTxn(s, a));
    AbsIs(s.writer.txn, t, enc);
    hide S.Inv, Abs, S.Avoids, BeganAs;
    Spared(a, t, S.Last(s));
    Spared(a, t, S.Previous(s));
    if i < |s.readers| && s.readers[i].pc.Active? {
      Spared(a, t, s.readers[i].pc.snap);
    }
  }

  lemma AbsIs(tx: M.Txn, t: C.Txn, enc: Encoding)
    requires t.Valid() && BeganAs(t, tx)
    ensures var a := Abs(tx, t, enc); a.mem.Keys == t.dirty && M.Head(a) == PagesOf(t.pool) && tx.base.next <= a.next == t.next
  {
    hide S.Listed;
    assert t.pool != [] ==> t.pool[0] in t.pool0;
    assert PagesOf([]) == {};
  }

  lemma Spared(a: M.Txn, t: C.Txn, m: M.Snapshot)
    requires S.Avoids(a, m) && a.mem.Keys == t.dirty && M.Head(a) == PagesOf(t.pool) && a.base.next <= a.next == t.next
    ensures forall p :: p in m.pages ==> p !in t.dirty && p !in t.pool && p < t.next
  {
    InRuns(2, a.base.next - 2);
  }
}
