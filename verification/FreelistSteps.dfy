/**
 What one put into the freeDB does to the pools of mdb_freelist_save, in the protocol: it fetches
 records, takes pages from them, from the loose ones or from the end of the map, and frees pages,
 all by private steps.
 */
module FreelistSteps {
  import opened Base
  import opened FreelistSave
  import opened FreelistCommit
  import opened FreelistInMvcc
  import opened PrivateSteps
  import M = Mvcc
  import S = MvccSafety

  function Held(m: multiset<Pgno>): set<Pgno> {
    set x | x in m
  }

  /** The pools of a Saver that is at work, and the same transaction in the protocol. */
  ghost predicate Mirrors(tx: M.Txn, txnid: Txnid, start: seq<Rec>, p: Pools) {
    && tx.txnid == txnid && tx.last == p.pglast && (tx.head.Some? <==> p.pglast > 0)
    && M.Head(tx) == PagesOf(p.pghead)
    && tx.loose == PagesOf(p.loose)
    && tx.freed == PagesOf(p.freed)
    && tx.used == Held(p.used)
    && tx.base.free == Table(start) && At(start, txnid).None?
  }

  /** Every page of a map with `next` pages is in one place. */
  ghost predicate Once(p: Pools, rs: seq<Rec>, txnid: Txnid, next: Pgno) {
    forall x: Pgno :: Total(p, rs, txnid)[x] == if 2 <= x < next then 1 else 0
  }

  /** Only records older than every reader are fetched, and new pages come from the end of the map. */
  ghost predicate Bounded(d: Disturbance, last: Txnid, rs: seq<Rec>, txnid: Txnid, next: Pgno, oldest: Txnid) {
    && (LastUpTo(rs, last, d.upTo, txnid) == last || LastUpTo(rs, last, d.upTo, txnid) < oldest)
    && forall i :: 0 <= i < |d.added| ==> d.added[i] == next + i
  }

  // ---------------------------------------------------------------- fetching

  /** The records after tx.last are those that the protocol's transaction has not fetched. */
  ghost predicate Ahead(rs: seq<Rec>, tx: M.Txn, txnid: Txnid) {
    && (forall k :: k in tx.base.free && tx.last < k ==> k in Keys(rs) && k != txnid)
    && (forall r :: r in rs && tx.last < r.key && r.key != txnid ==>
          r.key in tx.base.free && tx.base.free[r.key] == PagesOf(r.ids))
  }

  function Fetched(tx: M.Txn, rs: seq<Rec>, last: Txnid, txnid: Txnid): M.Txn {
    if last == tx.last then tx
    else tx.(last := last, head := Some(M.Head(tx) + PagesOf(Pulled(rs, tx.last, last, txnid))))
  }

  lemma {:induction false} TooNew(rs: seq<Rec>, last: Txnid, upTo: Txnid, txnid: Txnid)
    requires forall r :: r in rs ==> upTo < r.key || txnid <= r.key
    ensures LastUpTo(rs, last, upTo, txnid) == last
  {
    if rs != [] {
      TooNew(rs[1..], last, upTo, txnid);
    }
  }

  lemma {:induction false} PulledFrom(rs: seq<Rec>, last: Txnid, last': Txnid, newLast: Txnid, txnid: Txnid)
    requires forall r :: r in rs ==> last < r.key && last' < r.key
    ensures Pulled(rs, last, newLast, txnid) == Pulled(rs, last', newLast, txnid)
  {
    if rs != [] {
      PulledFrom(rs[1..], last, last', newLast, txnid);
    }
  }

  lemma Later(rs: seq<Rec>)
    requires Keyed(rs) && rs != []
    ensures Keyed(rs[1..]) && forall r :: r in rs[1..] ==> rs[0].key < r.key
    ensures Keys(rs) == {rs[0].key} + Keys(rs[1..])
  {
    assert rs == [rs[0]] + rs[1..];
    forall k
      ensures k in Keys(rs) <==> k in {rs[0].key} + Keys(rs[1..])
    {
      assert rs[0] in rs;
    }
  }

  /** The first record is the next one to fetch. */
  lemma FirstIsNext(rs: seq<Rec>, tx: M.Txn, txnid: Txnid)
    requires Keyed(rs) && rs != [] && Ahead(rs, tx, txnid) && tx.last < rs[0].key < txnid
    ensures M.NextRecord(tx.base.free, tx.last, rs[0].key) && tx.base.free[rs[0].key] == PagesOf(rs[0].ids)
    ensures Ahead(rs[1..], tx.(last := rs[0].key), txnid)
  {
    Later(rs);
    assert rs[0] in rs;
    forall r | r in rs[1..]
      ensures r in rs
    {
    }
  }

  lemma FetchedMore(tx: M.Txn, b: M.Txn, rs: seq<Rec>, last: Txnid, txnid: Txnid)
    requires Keyed(rs) && rs != [] && tx.last < rs[0].key <= last && rs[0].key < txnid
    requires b == tx.(last := rs[0].key, head := Some(M.Head(tx) + PagesOf(rs[0].ids)))
    ensures Fetched(b, rs[1..], last, txnid) == Fetched(tx, rs, last, txnid)
  {
    hide Keys;
    Later(rs);
    PulledFrom(rs[1..], tx.last, b.last, last, txnid);
    NothingPulled(rs[1..], b.last, txnid);
    PagesOfBoth(rs[0].ids, Pulled(rs[1..], b.last, last, txnid));
    var rest := Pulled(rs[1..], b.last, last, txnid);
    assert Pulled(rs, tx.last, last, txnid) == rs[0].ids + rest;
    assert last == b.last ==> rs[0].ids + rest == rs[0].ids;
    assert M.Head(b) + PagesOf(rest) == M.Head(tx) + PagesOf(rs[0].ids + rest);
  }

  lemma {:induction false} FetchAll(a: M.Txn, tx: M.Txn, rs: seq<Rec>, upTo: Txnid, txnid: Txnid, oldest: Txnid)
    requires Leads(a, tx, oldest) && Keyed(rs) && Ahead(rs, tx, txnid)
    requires var r := LastUpTo(rs, tx.last, upTo, txnid); r == tx.last || r < oldest
    ensures Leads(a, Fetched(tx, rs, LastUpTo(rs, tx.last, upTo, txnid), txnid), oldest)
    decreases rs
  {
    hide Leads, Ahead, Keyed, Keys, M.NextRecord;
    if rs != [] {
      Later(rs);
      var key, r := rs[0].key, LastUpTo(rs, tx.last, upTo, txnid);
      if tx.last < key <= upTo && key < txnid {
        FirstIsNext(rs, tx, txnid);
        var b := tx.(last := key, head := Some(M.Head(tx) + PagesOf(rs[0].ids)));
        Onward(a, tx, b, oldest, M.Consume(key));
        AheadHead(rs[1..], tx.(last := key), b, txnid);
        FetchAll(a, b, rs[1..], upTo, txnid, oldest);
        FetchedMore(tx, b, rs, r, txnid);
      } else if key <= tx.last {
        AheadRest(rs, tx, txnid);
        assert Pulled(rs, tx.last, r, txnid) == Pulled(rs[1..], tx.last, r, txnid);
        FetchAll(a, tx, rs[1..], upTo, txnid, oldest);
      } else {
        TooNew(rs[1..], tx.last, upTo, txnid);
      }
    }
  }

  lemma AheadHead(rs: seq<Rec>, tx: M.Txn, b: M.Txn, txnid: Txnid)
    requires Ahead(rs, tx, txnid) && b.base == tx.base && b.last == tx.last
    ensures Ahead(rs, b, txnid)
  {
  }

  lemma AheadRest(rs: seq<Rec>, tx: M.Txn, txnid: Txnid)
    requires Keyed(rs) && rs != [] && Ahead(rs, tx, txnid) && rs[0].key <= tx.last
    ensures Ahead(rs[1..], tx, txnid)
  {
    Later(rs);
  }

  lemma PagesOfBoth(s: seq<Pgno>, t: seq<Pgno>)
    ensures PagesOf(s + t) == PagesOf(s) + PagesOf(t)
  {
  }

  lemma {:induction false} AtRecord(rs: seq<Rec>, r: Rec)
    requires Keyed(rs) && r in rs
    ensures At(rs, r.key) == Some(r)
  {
    if rs[0] != r {
      Later(rs);
      assert rs == [rs[0]] + rs[1..];
      AtRecord(rs[1..], r);
    }
  }

  lemma StartsAhead(tx: M.Txn, txnid: Txnid, start: seq<Rec>, p: Pools, rs: seq<Rec>)
    requires Mirrors(tx, txnid, start, p) && Keyed(rs) && SameAfter(rs, start, p.pglast, txnid)
    ensures Ahead(rs, tx, txnid)
  {
    hide At, Keys, Keyed;
    forall k | k in tx.base.free && tx.last < k
      ensures k in Keys(rs) && k != txnid
    {
      KeyIsThere(start, k);
      KeyIsThere(rs, k);
    }
    forall r | r in rs && tx.last < r.key && r.key != txnid
      ensures r.key in tx.base.free && tx.base.free[r.key] == PagesOf(r.ids)
    {
      AtRecord(rs, r);
      KeyIsThere(start, r.key);
    }
  }

  // ---------------------------------------------------------------- where the pages go

  lemma {:induction false} PagesOfParts(s: seq<Pgno>, out: set<Pgno>)
    ensures PagesOf(Without(s, out)) == PagesOf(s) - out
    ensures PagesOf(Within(s, out)) == PagesOf(s) * out
  {
    if s != [] {
      PagesOfParts(s[1..], out);
      assert s == [s[0]] + s[1..];
      PagesOfBoth([s[0]], s[1..]);
      PagesOfBoth(if s[0] in out then [] else [s[0]], Without(s[1..], out));
      PagesOfBoth(if s[0] in out then [s[0]] else [], Within(s[1..], out));
    }
  }

  /** A list without repetitions, cut in two. */
  lemma PagesOfCut(s: seq<Pgno>, n: nat)
    requires n <= |s| && forall x :: multiset(s)[x] <= 1
    ensures PagesOf(s[n..]) == PagesOf(s) - PagesOf(s[..n])
  {
    assert s == s[..n] + s[n..];
    forall x: Pgno
      ensures x in PagesOf(s[n..]) <==> x in PagesOf(s) - PagesOf(s[..n])
    {
      assert multiset(s)[x] == multiset(s[..n])[x] + multiset(s[n..])[x];
      assert x in s[n..] <==> multiset(s[n..])[x] > 0;
      assert x in s[..n] <==> multiset(s[..n])[x] > 0;
      assert x in s <==> multiset(s)[x] > 0;
    }
  }

  lemma {:induction false} NewOnce(s: seq<Pgno>, next: Pgno, x: Pgno)
    requires forall i :: 0 <= i < |s| ==> s[i] == next + i
    ensures multiset(s)[x] == if next <= x < next + |s| then 1 else 0
  {
    if s != [] {
      var n := |s| - 1;
      NewOnce(s[..n], next, x);
      assert s == s[..n] + [s[n]];
    }
  }

  lemma NewPages(s: seq<Pgno>, next: Pgno)
    requires forall i :: 0 <= i < |s| ==> s[i] == next + i
    ensures PagesOf(s) == M.Run(next, |s|)
  {
    InRuns(next, |s|);
    forall x
      ensures x in PagesOf(s) <==> x in M.Run(next, |s|)
    {
      assert next <= x < next + |s| ==> s[x - next] == x;
    }
  }

  /** A disturbance leaves every page in one place. */
  lemma StillOnce(p: Pools, rs: seq<Rec>, txnid: Txnid, d: Disturbance, next: Pgno, oldest: Txnid)
    requires 2 <= next && Once(p, rs, txnid, next) && Bounded(d, p.pglast, rs, txnid, next, oldest)
    ensures Once(Disturbed(p, rs, txnid, d), rs, txnid, next + |d.added|)
  {
    hide Total, Disturbed;
    DisturbConserves(p, rs, txnid, d);
    var q := Disturbed(p, rs, txnid, d);
    forall x: Pgno
      ensures Total(q, rs, txnid)[x] == if 2 <= x < next + |d.added| then 1 else 0
    {
      NewOnce(d.added, next, x);
      assert Total(q, rs, txnid)[x] == Total(p, rs, txnid)[x] + multiset(d.added)[x];
    }
  }

  lemma OnceParts(p: Pools, rs: seq<Rec>, txnid: Txnid, next: Pgno)
    requires Once(p, rs, txnid, next)
    ensures forall x: Pgno :: multiset(p.loose)[x] <= 1
    ensures forall x: Pgno :: p.used[x] + multiset(p.freed)[x] <= 1
  {
    hide Unconsumed;
    forall x: Pgno
      ensures multiset(p.loose)[x] <= 1 && p.used[x] + multiset(p.freed)[x] <= 1
    {
      assert Total(p, rs, txnid)[x] <= 1;
    }
  }

  /** Pages freed out of those in use. */
  lemma FreedOut(used: multiset<Pgno>, freed: seq<Pgno>, frees: seq<Pgno>)
    requires multiset(frees) <= used
    requires forall x: Pgno :: (used - multiset(frees))[x] + multiset(freed + frees)[x] <= 1
    ensures PagesOf(frees) <= Held(used) && Held(used - multiset(frees)) == Held(used) - PagesOf(frees)
  {
    forall x: Pgno
      ensures x in frees ==> x in used && x !in used - multiset(frees)
      ensures x !in frees ==> (x in used <==> x in used - multiset(frees))
    {
      assert x in frees <==> multiset(frees)[x] > 0;
      assert multiset(freed + frees)[x] == multiset(freed)[x] + multiset(frees)[x];
    }
  }

  lemma HeldSum(used: multiset<Pgno>, a: seq<Pgno>, b: seq<Pgno>, c: seq<Pgno>)
    ensures Held(used + multiset(a) + multiset(b) + multiset(c)) == Held(used) + PagesOf(a) + PagesOf(b) + PagesOf(c)
  {
  }

  // ---------------------------------------------------------------- the steps

  lemma TakeSome(a: M.Txn, tx: M.Txn, head: seq<Pgno>, takes: set<Pgno>, oldest: Txnid) returns (tx': M.Txn)
    requires Leads(a, tx, oldest) && M.Head(tx) == PagesOf(head)
    ensures Leads(a, tx', oldest)
    ensures tx' == tx.(head := tx'.head, used := tx.used + PagesOf(Within(head, takes)), mem := tx'.mem)
    ensures M.Head(tx') == PagesOf(Without(head, takes)) && (tx'.head.Some? <==> tx.head.Some?)
  {
    hide Leads, Within, Without;
    PagesOfParts(head, takes);
    var out := PagesOf(Within(head, takes));
    if tx.head.Some? {
      TakeAll(a, tx, out, Blank(out), oldest);
      tx' := Taken(tx, out, Blank(out));
      assert M.Head(tx) - out == PagesOf(head) - takes;
    } else {
      tx' := tx;
      assert out == {} && tx.used + out == tx.used;
    }
  }

  lemma AddSome(a: M.Txn, tx: M.Txn, added: seq<Pgno>, oldest: Txnid) returns (tx': M.Txn)
    requires Leads(a, tx, oldest) && forall i :: 0 <= i < |added| ==> added[i] == tx.next + i
    ensures Leads(a, tx', oldest)
    ensures tx' == tx.(next := tx.next + |added|, used := tx.used + PagesOf(added), mem := tx'.mem)
  {
    hide Leads, M.WithRun, M.Run;
    NewPages(added, tx.next);
    if added == [] {
      tx' := tx;
      assert tx.used + PagesOf(added) == tx.used;
    } else {
      var cs: seq<Content> := seq(|added|, _ => []);
      tx' := tx.(next := tx.next + |cs|, used := tx.used + M.Run(tx.next, |cs|), mem := M.WithRun(tx.mem, tx.next, cs));
      Onward(a, tx, tx', oldest, M.AllocNew(cs));
    }
  }

  /** Records that the writing fetches, and pages taken from them. */
  lemma FetchAndTake(a: M.Txn, tx: M.Txn, txnid: Txnid, start: seq<Rec>, p: Pools, rs: seq<Rec>, d: Disturbance, oldest: Txnid)
    returns (tx': M.Txn)
    requires Leads(a, tx, oldest) && Mirrors(tx, txnid, start, p) && Keyed(rs) && SameAfter(rs, start, p.pglast, txnid)
    requires Bounded(d, p.pglast, rs, txnid, tx.next, oldest)
    ensures Leads(a, tx', oldest)
    ensures var last := LastUpTo(rs, p.pglast, d.upTo, txnid);
            var head := p.pghead + Pulled(rs, p.pglast, last, txnid);
            && tx' == tx.(last := last, head := tx'.head, used := Held(p.used) + PagesOf(Within(head, d.takes)), mem := tx'.mem)
            && M.Head(tx') == PagesOf(Without(head, d.takes)) && (tx'.head.Some? <==> last > 0)
  {
    hide Leads, Ahead, Keyed, SameAfter, Table, At, LastUpTo, Pulled, Within, Without, Held, PagesOf;
    var last := LastUpTo(rs, p.pglast, d.upTo, txnid);
    StartsAhead(tx, txnid, start, p, rs);
    FetchAll(a, tx, rs, d.upTo, txnid, oldest);
    FetchedHead(tx, p, rs, last, txnid);
    tx' := TakeSome(a, Fetched(tx, rs, last, txnid), p.pghead + Pulled(rs, p.pglast, last, txnid), d.takes, oldest);
  }

  /** Loose pages used again, and new ones. */
  lemma ReuseAndAdd(a: M.Txn, tx: M.Txn, loose: seq<Pgno>, n: nat, added: seq<Pgno>, oldest: Txnid) returns (tx': M.Txn)
    requires Leads(a, tx, oldest) && tx.loose == PagesOf(loose) && n <= |loose| && forall x :: multiset(loose)[x] <= 1
    requires forall i :: 0 <= i < |added| ==> added[i] == tx.next + i
    ensures Leads(a, tx', oldest)
    ensures tx' == tx.(loose := PagesOf(loose[n..]), used := tx.used + PagesOf(loose[..n]) + PagesOf(added),
                       next := tx.next + |added|, mem := tx'.mem)
  {
    hide Leads, PagesOf;
    PagesOfCut(loose, n);
    CutWithin(loose, n);
    ReuseAll(a, tx, PagesOf(loose[..n]), oldest);
    tx' := AddSome(a, Reused(tx, PagesOf(loose[..n])), added, oldest);
  }

  /** Pages freed. */
  lemma FreeSome(a: M.Txn, tx: M.Txn, used: multiset<Pgno>, freed: seq<Pgno>, frees: seq<Pgno>, oldest: Txnid) returns (tx': M.Txn)
    requires Leads(a, tx, oldest) && tx.used == Held(used) && tx.freed == PagesOf(freed) && multiset(frees) <= used
    requires forall x: Pgno :: (used - multiset(frees))[x] + multiset(freed + frees)[x] <= 1
    ensures Leads(a, tx', oldest)
    ensures tx' == tx.(used := Held(used - multiset(frees)), freed := PagesOf(freed + frees))
  {
    hide Leads, Held, PagesOf;
    FreedOut(used, freed, frees);
    FreeAll(a, tx, PagesOf(frees), oldest);
    PagesOfBoth(freed, frees);
    tx' := tx.(used := tx.used - PagesOf(frees), freed := tx.freed + PagesOf(frees));
  }

  /** Whatever a put into the freeDB does to the pools, private steps of the protocol's transaction do as well. */
  lemma DisturbanceIsPrivate(a: M.Txn, tx: M.Txn, txnid: Txnid, start: seq<Rec>, p: Pools, rs: seq<Rec>, d: Disturbance,
                             oldest: Txnid)
    returns (tx': M.Txn)
    requires Leads(a, tx, oldest) && Mirrors(tx, txnid, start, p) && Keyed(rs) && SameAfter(rs, start, p.pglast, txnid)
    requires 2 <= tx.next && Once(p, rs, txnid, tx.next) && Bounded(d, p.pglast, rs, txnid, tx.next, oldest)
    ensures Leads(a, tx', oldest) && Mirrors(tx', txnid, start, Disturbed(p, rs, txnid, d))
    ensures Once(Disturbed(p, rs, txnid, d), rs, txnid, tx'.next) && tx'.next == tx.next + |d.added|
  {
    hide Leads, Once, Keyed, SameAfter, Table, At, LastUpTo, Pulled, Within, Without, Freeable, Held, PagesOf, Total;
    var q := Disturbed(p, rs, txnid, d);
    var head := p.pghead + Pulled(rs, p.pglast, q.pglast, txnid);
    var n := if d.loose <= |p.loose| then d.loose else |p.loose|;
    var used := p.used + multiset(Within(head, d.takes)) + multiset(p.loose[..n]) + multiset(d.added);
    var frees := Freeable(d.frees, used);
    var b := FetchAndTake(a, tx, txnid, start, p, rs, d, oldest);
    OnceParts(p, rs, txnid, tx.next);
    var c := ReuseAndAdd(a, b, p.loose, n, d.added, oldest);
    HeldSum(p.used, Within(head, d.takes), p.loose[..n], d.added);
    StillOnce(p, rs, txnid, d, tx.next, oldest);
    OnceParts(q, rs, txnid, c.next);
    tx' := FreeSome(a, c, used, p.freed, frees, oldest);
  }

  lemma CutWithin(s: seq<Pgno>, n: nat)
    requires n <= |s|
    ensures PagesOf(s[..n]) <= PagesOf(s)
  {
  }

  lemma FetchedHead(tx: M.Txn, p: Pools, rs: seq<Rec>, last: Txnid, txnid: Txnid)
    requires tx.last == p.pglast <= last && M.Head(tx) == PagesOf(p.pghead) && (tx.head.Some? <==> p.pglast > 0)
    ensures var t := Fetched(tx, rs, last, txnid);
            && M.Head(t) == PagesOf(p.pghead + Pulled(rs, p.pglast, last, txnid))
            && (t.head.Some? <==> last > 0) && t.last == last
  {
    hide Pulled;
    PagesOfBoth(p.pghead, Pulled(rs, p.pglast, last, txnid));
    NothingPulled(rs, p.pglast, txnid);
  }

  // ---------------------------------------------------------------- the loop

  function Count(writes: seq<Write>): nat {
    if writes == [] then 0 else Count(writes[..|writes| - 1]) + |writes[|writes| - 1].d.added|
  }

  ghost predicate AllBounded(began: Pools, writes: seq<Write>, txnid: Txnid, next: Pgno, oldest: Txnid) {
    writes == [] ||
    var w, before := writes[|writes| - 1], writes[..|writes| - 1];
    && AllBounded(began, before, txnid, next, oldest)
    && Bounded(w.d, After(began, before, txnid).pglast, w.rs, txnid, next + Count(before), oldest)
  }

  lemma {:induction false} WritesArePrivate(a: M.Txn, tx: M.Txn, txnid: Txnid, start: seq<Rec>, began: Pools,
                                            writes: seq<Write>, oldest: Txnid)
    returns (tx': M.Txn)
    requires Leads(a, tx, oldest) && Mirrors(tx, txnid, start, began) && 2 <= tx.next && Once(began, start, txnid, tx.next)
    requires Traced(began, writes, start, txnid) && AllBounded(began, writes, txnid, tx.next, oldest)
    ensures Leads(a, tx', oldest) && Mirrors(tx', txnid, start, After(began, writes, txnid))
    ensures tx'.next == tx.next + Count(writes)
    ensures forall x: Pgno :: (Total(began, start, txnid) + AddedIn(writes))[x] == if 2 <= x < tx'.next then 1 else 0
    decreases |writes|
  {
    hide Leads, Mirrors, Bounded, Total, Disturbed, Keyed, SameAfter;
    if writes == [] {
      tx' := tx;
    } else {
      var w, before := writes[|writes| - 1], writes[..|writes| - 1];
      var t := WritesArePrivate(a, tx, txnid, start, began, before, oldest);
      var q := After(began, before, txnid);
      assert Once(q, w.rs, txnid, t.next);
      tx' := DisturbanceIsPrivate(a, t, txnid, start, q, w.rs, w.d, oldest);
      DisturbConserves(q, w.rs, txnid, w.d);
      assert Total(began, start, txnid) + AddedIn(writes) == Total(Disturbed(q, w.rs, txnid, w.d), w.rs, txnid);
    }
  }

  lemma EnterIsPrivate(tx: M.Txn, txnid: Txnid, start: seq<Rec>, p: Pools, oldest: Txnid) returns (tx': M.Txn)
    requires Mirrors(tx, txnid, start, p)
    ensures Leads(tx, tx', oldest) && Mirrors(tx', txnid, start, Entering(p)) && tx'.next == tx.next
  {
    hide Leads, Table, At, Held;
    Stays(tx, oldest);
    tx' := tx;
    if p.pglast == 0 {
      PagesOfBoth(p.freed, p.loose);
      tx' := tx.(loose := {}, freed := tx.freed + tx.loose);
      Onward(tx, tx, tx', oldest, M.LooseToFreed);
    }
  }

  lemma LeaveIsPrivate(a: M.Txn, tx: M.Txn, txnid: Txnid, start: seq<Rec>, p: Pools, oldest: Txnid) returns (tx': M.Txn)
    requires Leads(a, tx, oldest) && Mirrors(tx, txnid, start, p) && (p.pglast == 0 ==> p.loose == [])
    ensures Leads(a, tx', oldest) && Matches(tx', txnid, start, Leaving(p), Leaving(p).pghead)
  {
    hide Leads, Table, At, Held;
    tx' := tx;
    if p.pglast > 0 {
      PagesOfBoth(p.pghead, p.loose);
      tx' := tx.(loose := {}, head := Some(M.Head(tx) + tx.loose));
      Onward(a, tx, tx', oldest, M.LooseToHead);
    } else {
      assert p.pghead + p.loose == p.pghead;
    }
  }

  /** What mdb_freelist_save does to the pools from beginning to end is a run of private steps. */
  lemma SaveIsPrivate(tx: M.Txn, txnid: Txnid, start: seq<Rec>, p: Pools, writes: seq<Write>, oldest: Txnid) returns (tx': M.Txn)
    requires Mirrors(tx, txnid, start, p) && 2 <= tx.next && Once(p, start, txnid, tx.next)
    requires Traced(Entering(p), writes, start, txnid) && AllBounded(Entering(p), writes, txnid, tx.next, oldest)
    requires var q := After(Entering(p), writes, txnid); q.pglast == 0 ==> q.loose == []
    ensures Leads(tx, tx', oldest)
    ensures var q := Leaving(After(Entering(p), writes, txnid)); Matches(tx', txnid, start, q, q.pghead)
    ensures forall x: Pgno :: (Total(Entering(p), start, txnid) + AddedIn(writes))[x] <= 1
  {
    hide Leads, Mirrors, Matches, Total, Traced, AllBounded, After, Leaving;
    var b := EnterIsPrivate(tx, txnid, start, p, oldest);
    EnteringTotal(p, start, txnid);
    hide Entering;
    var c := WritesArePrivate(tx, b, txnid, start, Entering(p), writes, oldest);
    tx' := LeaveIsPrivate(tx, c, txnid, start, After(Entering(p), writes, txnid), oldest);
  }

  lemma EnteringTotal(p: Pools, start: seq<Rec>, txnid: Txnid)
    ensures Total(Entering(p), start, txnid) == Total(p, start, txnid)
  {
    LooseFreed(p, start, txnid);
  }

  /** What `Saver.Save` knows of its writes when it is done, and that they kept to their bounds. */
  ghost predicate Done(p: Pools, writes: seq<Write>, start: seq<Rec>, rs: seq<Rec>, txnid: Txnid, next: Pgno, oldest: Txnid) {
    var began := Entering(p);
    var q := After(began, writes, txnid);
    && Traced(began, writes, start, txnid) && AllBounded(began, writes, txnid, next, oldest)
    && (q.pglast == 0 ==> q.loose == [])
    && Settled(rs, start, Leaving(q), Leaving(q).pghead, txnid, Total(began, start, txnid) + AddedIn(writes))
  }

  /** The writer can take the protocol's save step, with the freeDB rs. */
  ghost predicate CanSave(s: M.State, rs: seq<Rec>) {
    s.writer.Writing? &&
    var tx := s.writer.txn;
    tx.used <= tx.base.pages.Keys + tx.mem.Keys &&
    var m := M.Snapshot(tx.txnid, tx.next, M.NewPages(tx), Table(rs));
    && M.DoSaveFreelist(s, s.(writer := s.writer.(phase := M.Saved(m))), FillOf(rs, tx.last))
    && S.SavedOk(tx, m)
  }

  /**
   mdb_freelist_save in a run: from any state of the protocol that mirrors the pools before it,
   private steps lead to one in which the save step can be taken with what the loop has written.
   */
  lemma SaveIsReached(s: M.State, txnid: Txnid, start: seq<Rec>, p: Pools, writes: seq<Write>, rs: seq<Rec>) returns (tx': M.Txn)
    requires S.Inv(s) && s.writer.Writing? && s.writer.phase == M.Running && s.writer.scan == M.NotScanning
    requires Mirrors(s.writer.txn, txnid, start, p) && 2 <= s.writer.txn.next && Once(p, start, txnid, s.writer.txn.next)
    requires Done(p, writes, start, rs, txnid, s.writer.txn.next, M.CachedOldest(s, s.writer.proc))
    ensures Leads(s.writer.txn, tx', M.CachedOldest(s, s.writer.proc))
    ensures S.Inv(WithTxn(s, tx')) && CanSave(WithTxn(s, tx'), rs)
  {
    hide S.Inv, Mirrors, Once, Traced, AllBounded, After, Entering, Settled, Total, Table, FillOf, Leads, M.DoSaveFreelist,
         S.SavedOk, S.TxnOk, Matches;
    var oldest := M.CachedOldest(s, s.writer.proc);
    tx' := SaveIsPrivate(s.writer.txn, txnid, start, p, writes, oldest);
    LeadsKeepsInv(s, tx', oldest);
    InvTxn(WithTxn(s, tx'));
    var q := Leaving(After(Entering(p), writes, txnid));
    SaveIsAStep(WithTxn(s, tx'), rs, start, q, q.pghead, txnid, Total(Entering(p), start, txnid) + AddedIn(writes));
    MatchesLast(tx', txnid, start, q);
  }

  /** The loop itself, run by a writer of the protocol. */
  method SaveInRun(v: Saver, ghost s: M.State) returns (done: bool, ghost tx': M.Txn)
    requires v.Valid() && IdsAt(v.records, v.txnid) == [] && (v.p.pglast > 0 ==> At(v.records, v.p.pglast).Some?) && v.writes == []
    requires S.Inv(s) && s.writer.Writing? && s.writer.phase == M.Running && s.writer.scan == M.NotScanning
    requires Mirrors(s.writer.txn, v.txnid, v.start, v.p) && 2 <= s.writer.txn.next
    requires Once(v.p, v.start, v.txnid, s.writer.txn.next)
    modifies v
    ensures done && AllBounded(v.began, v.writes, v.txnid, s.writer.txn.next, M.CachedOldest(s, s.writer.proc)) ==>
              && Leads(s.writer.txn, tx', M.CachedOldest(s, s.writer.proc))
              && S.Inv(WithTxn(s, tx')) && CanSave(WithTxn(s, tx'), v.records)
  {
    hide S.Inv, Mirrors, Once, Traced, AllBounded, After, Entering, Settled, Total, Leads, CanSave, IdsAt, At;
    ghost var p, kept := v.p, [];
    done, kept := v.Save();
    tx' := s.writer.txn;
    ghost var oldest := M.CachedOldest(s, s.writer.proc);
    if done && AllBounded(v.began, v.writes, v.txnid, s.writer.txn.next, oldest) {
      tx' := SaveIsReached(s, v.txnid, v.start, p, v.writes, v.records);
    }
  }

  lemma MatchesLast(tx: M.Txn, txnid: Txnid, start: seq<Rec>, q: Pools)
    requires Matches(tx, txnid, start, q, q.pghead)
    ensures tx.txnid == txnid && tx.last == q.pglast
  {
  }

  lemma InvTxn(s: M.State)
    requires S.Inv(s) && s.writer.Writing? && s.writer.phase == M.Running
    ensures S.TxnOk(s.writer.txn) && s.writer.txn.used <= s.writer.txn.base.pages.Keys + s.writer.txn.mem.Keys
  {
    hide S.MetasOk, S.ReadersOk, S.ScanOk, S.Conserved, S.Partitioned;
    S.MetasLog(s);
  }
}
