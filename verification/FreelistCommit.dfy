/** The loops of mdb_freelist_save: reserve, then fill. */
module FreelistCommit {
  import opened Base
  import opened FreelistSave

  lemma {:induction false} LastIsThere(rs: seq<Rec>, last: Txnid, upTo: Txnid, txnid: Txnid)
    ensures var r := LastUpTo(rs, last, upTo, txnid); r == last || At(rs, r).Some?
  {
    if rs != [] {
      if last < rs[0].key <= upTo && rs[0].key < txnid {
        LastIsThere(rs[1..], rs[0].key, upTo, txnid);
      } else {
        LastIsThere(rs[1..], last, upTo, txnid);
      }
    }
  }

  lemma {:induction false} NothingPulled(rs: seq<Rec>, last: Txnid, txnid: Txnid)
    ensures Pulled(rs, last, last, txnid) == []
  {
    if rs != [] {
      NothingPulled(rs[1..], last, txnid);
    }
  }

  lemma {:induction false} FirstUpTo(rs: seq<Rec>, k: Txnid)
    requires Keyed(rs) && At(rs, k).Some?
    ensures rs != [] && rs[0].key <= k
  {
    if rs[0].key != k {
      FirstUpTo(rs[1..], k);
      assert rs[0].key < rs[1..][0].key;
    }
  }

  /** What a disturbance leaves as it was. */
  ghost predicate Follows(p: Pools, q: Pools, rs: seq<Rec>, txnid: Txnid) {
    && p.pglast <= q.pglast && p.freed <= q.freed
    && (q.pglast == p.pglast || (q.pglast < txnid && At(rs, q.pglast).Some?))
    && (p.pglast == q.pglast == 0 && p.pghead == [] ==> q.pghead == [])
    && (p.loose == [] ==> q.loose == [])
  }

  lemma DisturbedFollows(p: Pools, rs: seq<Rec>, txnid: Txnid, d: Disturbance)
    ensures Follows(p, Disturbed(p, rs, txnid, d), rs, txnid)
  {
    DisturbConserves(p, rs, txnid, d);
    LastIsThere(rs, p.pglast, d.upTo, txnid);
    NothingPulled(rs, p.pglast, txnid);
  }

  /** The pages that the writes to come will add at the end of the map. */
  function AddedBy(script: seq<Disturbance>): multiset<Pgno> {
    if script == [] then multiset{} else multiset(script[0].added) + AddedBy(script[1..])
  }

  /** A write to the freeDB: the records as it finds them, and what it does to the pools. */
  datatype Write = Write(rs: seq<Rec>, d: Disturbance)

  /** The pools after some writes. */
  function After(p: Pools, writes: seq<Write>, txnid: Txnid): Pools {
    if writes == [] then p
    else
      var w := writes[|writes| - 1];
      Disturbed(After(p, writes[..|writes| - 1], txnid), w.rs, txnid, w.d)
  }

  function AddedIn(writes: seq<Write>): multiset<Pgno> {
    if writes == [] then multiset{} else AddedIn(writes[..|writes| - 1]) + multiset(writes[|writes| - 1].d.added)
  }

  /** Each write has found every page in one place, and the records after me_pglast as they were. */
  ghost predicate Traced(p: Pools, writes: seq<Write>, start: seq<Rec>, txnid: Txnid) {
    writes == [] ||
    var w, before := writes[|writes| - 1], writes[..|writes| - 1];
    var q := After(p, before, txnid);
    && Traced(p, before, start, txnid)
    && Keyed(w.rs) && SameAfter(w.rs, start, q.pglast, txnid)
    && Total(q, w.rs, txnid) == Total(p, start, txnid) + AddedIn(before)
  }

  /** The pools p, and all pages, by the writes since the pools were as in `began`. */
  ghost predicate Logged(began: Pools, writes: seq<Write>, p: Pools, start: seq<Rec>, txnid: Txnid, total: multiset<Pgno>) {
    && p == After(began, writes, txnid)
    && Traced(began, writes, start, txnid)
    && total == Total(began, start, txnid) + AddedIn(writes)
  }

  lemma LogOne(began: Pools, writes: seq<Write>, p: Pools, start: seq<Rec>, txnid: Txnid, total: multiset<Pgno>,
               rs: seq<Rec>, d: Disturbance)
    requires Logged(began, writes, p, start, txnid, total)
    requires Keyed(rs) && SameAfter(rs, start, p.pglast, txnid) && Total(p, rs, txnid) == total
    ensures Logged(began, writes + [Write(rs, d)], Disturbed(p, rs, txnid, d), start, txnid, total + multiset(d.added))
  {
    hide Total, Disturbed, Keyed, SameAfter;
    var ws := writes + [Write(rs, d)];
    assert ws[..|ws| - 1] == writes;
  }

  lemma LogStarts(p: Pools, start: seq<Rec>, txnid: Txnid, total: multiset<Pgno>)
    requires Total(p, start, txnid) == total
    ensures Logged(p, [], p, start, txnid, total)
  {
    hide Total;
  }

  lemma LoggedIs(began: Pools, writes: seq<Write>, p: Pools, start: seq<Rec>, txnid: Txnid, total: multiset<Pgno>)
    requires Logged(began, writes, p, start, txnid, total)
    ensures p == After(began, writes, txnid) && Traced(began, writes, start, txnid)
    ensures total == Total(began, start, txnid) + AddedIn(writes)
  {
  }

  /** While there is no me_pghead, loose pages are freed. */
  function Entering(p: Pools): Pools {
    if p.pglast == 0 then p.(loose := [], freed := p.freed + p.loose) else p
  }

  /** In the end they are returned to it. */
  function Leaving(p: Pools): Pools {
    p.(pghead := p.pghead + p.loose, loose := [])
  }

  lemma LogEmpty(began: Pools, p: Pools, start: seq<Rec>, txnid: Txnid, total: multiset<Pgno>)
    requires Logged(began, [], p, start, txnid, total)
    ensures began == p
  {
  }

  lemma LogBegins(began: Pools, p: Pools, start: seq<Rec>, txnid: Txnid, total: multiset<Pgno>)
    requires Logged(began, [], p, start, txnid, total) && p.pglast == 0
    ensures Logged(Entering(p), [], Entering(p), start, txnid, total)
  {
    LooseFreed(p, start, txnid);
  }

  /** How many ids to reserve space for: several records if they would not fit on one page. */
  function RoomFor(want: int, headId: Txnid, maxfree1pg: nat): (room: nat) {
    if want > maxfree1pg && headId > 1 then
      var share := want / headId;
      Remainder(share, maxfree1pg + 1);
      share + maxfree1pg - share % (maxfree1pg + 1)
    else if want < 0 then 0
    else want
  }

  /**
   Room for all that is wanted, or, if that would take an overflow page, for a share of it rounded
   up so that the record, with its count, fills its pages.
   */
  lemma RoomForRule(want: int, headId: Txnid, maxfree1pg: nat)
    ensures var room := RoomFor(want, headId, maxfree1pg);
            if want > maxfree1pg && headId > 1
            then (room + 1) % (maxfree1pg + 1) == 0 && want / headId <= room <= want / headId + maxfree1pg
            else room == if want < 0 then 0 else want
  {
    if want > maxfree1pg && headId > 1 {
      var share, m := want / headId, maxfree1pg + 1;
      Remainder(share, m);
      Rounded(share, m);
    }
  }

  lemma Rounded(x: int, m: nat)
    requires m > 0
    ensures (x - x % m + m) % m == 0
  {
    assert x - x % m + m == m * (x / m + 1);
    Multiple(x / m + 1, m);
  }

  lemma Multiple(k: int, m: nat)
    requires m > 0
    ensures m * k % m == 0
  {
    Divided(m * k, m, k, m * k / m, m * k % m);
  }

  lemma Divided(a: int, m: nat, k: int, q: int, r: int)
    requires m > 0 && a == m * k && a == m * q + r && 0 <= r < m
    ensures r == 0
  {
    assert m * (k - q) == r;
    Scaled(m, k - q);
  }

  lemma Scaled(m: nat, x: int)
    ensures x >= 1 ==> m * x >= m
    ensures x <= -1 ==> m * x + m <= 0
  {
  }

  lemma Remainder(x: int, m: nat)
    requires m > 0
    ensures 0 <= x % m < m
  {
  }

  class Saver {
    const txnid: Txnid
    const maxfree1pg: nat           // me_maxfree_1pg
    var records: seq<Rec>           // the freeDB
    var p: Pools
    var script: seq<Disturbance>    // what the writes to come will do to the pools
    ghost var total: multiset<Pgno> // every page of the map
    ghost const start: seq<Rec>     // the freeDB as the transaction found it
    ghost var began: Pools          // the pools before the writes
    ghost var writes: seq<Write>    // the writes so far

    ghost predicate Valid()
      reads this
    {
      && Keyed(records) && KeysFrom(records, 1) && KeysTo(records, txnid) && 0 < txnid
      && p.pglast < txnid
      && (p.pglast == 0 ==> p.pghead == [])   // me_pghead is created along with me_pglast
      && Total(p, records, txnid) == total
      && SameAfter(records, start, p.pglast, txnid)
      && (At(records, txnid).Some? ==> p.freed != [])
      && Logged(began, writes, p, start, txnid, total)
    }

    constructor (txnid: Txnid, maxfree1pg: nat, records: seq<Rec>, p: Pools, script: seq<Disturbance>)
      requires 0 < txnid && Keyed(records) && KeysFrom(records, 1) && KeysTo(records, txnid - 1)
      requires p.pglast < txnid && (p.pglast == 0 ==> p.pghead == [])
      ensures Valid() && this.records == records && this.p == p && this.script == script
      ensures this.txnid == txnid && total == Total(p, records, txnid) && start == records
      ensures began == p && writes == []
    {
      this.txnid, this.maxfree1pg, this.records, this.p, this.script := txnid, maxfree1pg, records, p, script;
      total, start := Total(p, records, txnid), records;
      began, writes := p, [];
      NoneAt(records, txnid);
      LogStarts(p, records, txnid, Total(p, records, txnid));
    }

    /** The work of one put or deletion in the freeDB, apart from the record itself. */
    method Touch()
      requires Valid() && script != []
      modifies this`p, this`script, this`total, this`writes
      ensures Valid() && Follows(old(p), p, records, txnid)
      ensures script == old(script)[1..] && total + AddedBy(script) == old(total + AddedBy(script))
      ensures writes == old(writes) + [Write(records, old(script)[0])]
    {
      hide Total, Disturbed, Follows, Logged;
      ghost var was := p;
      p := Disturbed(p, records, txnid, script[0]);
      DisturbConserves(was, records, txnid, script[0]);
      DisturbedFollows(was, records, txnid, script[0]);
      FollowsKeeps(was, p, records, txnid);
      LogOne(began, writes, was, start, txnid, total, records, script[0]);
      writes := writes + [Write(records, script[0])];
      total := total + multiset(script[0].added);
      script := script[1..];
    }

    /** mdb_cursor_first and mdb_cursor_del */
    method DeleteFirst() returns (key: Txnid)
      requires Valid() && script != [] && records != [] && records[0].key <= p.pglast
      modifies this`p, this`script, this`total, this`writes, this`records
      ensures Valid() && Follows(old(p), p, old(records), txnid)
      ensures total + AddedBy(script) == old(total + AddedBy(script))
      ensures script == old(script)[1..] && records == old(records)[1..] && key == old(records)[0].key
    {
      hide Follows, Logged, Keyed, KeysFrom, KeysTo, Unconsumed, At, SameAfter;
      ghost var was := p;
      Touch();
      FollowsKeeps(was, p, records, txnid);
      key := records[0].key;
      TailKeyed(records, txnid);
      TailUnconsumed(records, p.pglast, txnid);
      TailSame(records, start, p.pglast, txnid);
      records := records[1..];
    }

    /** mdb_cursor_put */
    method PutRecord(rec: Rec)
      requires Valid() && script != [] && !Counts(rec, p.pglast, txnid) && 0 < rec.key
      requires rec.key == txnid ==> p.freed != []
      modifies this`p, this`script, this`total, this`writes, this`records
      ensures Valid() && Follows(old(p), p, old(records), txnid)
      ensures total + AddedBy(script) == old(total + AddedBy(script))
      ensures script == old(script)[1..] && records == PutInto(old(records), rec)
    {
      hide Follows, PutInto, Keyed, KeysFrom, KeysTo, Unconsumed, At, SameAfter, Logged;
      ghost var was := p;
      Touch();
      FollowsKeeps(was, p, records, txnid);
      FreedGrows(was, p, records, txnid);
      PutSame(records, start, rec, p.pglast, txnid);
      PutKeeps(records, rec, 1, txnid);
      PutKeepsUnconsumed(records, rec, p.pglast, txnid);
      records := PutInto(records, rec);
    }

    // -------------------------------------------------------------- reserving

    /** The list of freed pages has been saved as far as its first freecnt pages. */
    ghost predicate Saved(freecnt: nat)
      reads this
    {
      freecnt <= |p.freed| && IdsAt(records, txnid) == p.freed[..freecnt]
    }

    /** The state at the head of the retry loop, with its local variables. */
    ghost predicate Looping(pglast: Txnid, headId: Txnid, headRoom: int, totalRoom: int)
      reads this
    {
      && Valid()
      && pglast <= p.pglast && (pglast < p.pglast ==> At(records, p.pglast).Some?)
      && Reserved(records, pglast, headId, headRoom, totalRoom) && (pglast > 0 ==> headId > 0)
      && (p.pglast == 0 ==> p.loose == [])
    }

    /** Deletes the records that have been taken into me_pghead, and all reservations with them. */
    method DeletePulled(pglast0: Txnid, headId0: Txnid, headRoom0: int, totalRoom0: int, ghost freecnt: nat)
      returns (pglast: Txnid, headId: Txnid, headRoom: int, totalRoom: int, ok: bool)
      requires Looping(pglast0, headId0, headRoom0, totalRoom0) && Saved(freecnt)
      modifies this`p, this`script, this`total, this`writes, this`records
      ensures Looping(pglast, headId, headRoom, totalRoom) && Saved(freecnt)
      ensures ok ==> pglast == p.pglast
      ensures !ok ==> script == []
      ensures total + AddedBy(script) == old(total + AddedBy(script)) && |script| <= old(|script|)
    {
      hide Reserved, At, Caps, CapAt, Follows, Total, Keyed, Unconsumed, Logged;
      pglast, headId, headRoom, totalRoom := pglast0, headId0, headRoom0, totalRoom0;
      while pglast < p.pglast
        invariant Looping(pglast, headId, headRoom, totalRoom) && Saved(freecnt)
        invariant total + AddedBy(script) == old(total + AddedBy(script)) && |script| <= old(|script|)
        decreases |script|
      {
        if script == [] {
          ok := false;
          return;
        }
        FirstUpTo(records, p.pglast);
        ghost var was, rs := p, records;
        pglast := DeleteFirst();
        AfterDelete(was, p, rs, txnid, freecnt);
        headId, headRoom, totalRoom := pglast, 0, 0;
      }
      ok := true;
    }

    /** Writes mt_free_pgs to one record, again and again while the writing itself frees pages. */
    method SaveFreed(pglast: Txnid, headId: Txnid, headRoom: int, totalRoom: int, freecnt0: nat)
      returns (freecnt: nat, ok: bool)
      requires Looping(pglast, headId, headRoom, totalRoom) && Saved(freecnt0) && freecnt0 < |p.freed|
      modifies this`p, this`script, this`total, this`writes, this`records
      ensures Looping(pglast, headId, headRoom, totalRoom) && (ok ==> Saved(freecnt))
      ensures total + AddedBy(script) == old(total + AddedBy(script)) && |script| <= old(|script|)
      ensures ok ==> |script| < old(|script|)
      ensures !ok ==> script == []
    {
      hide Reserved, At, Caps, CapAt, Follows, Total, Keyed, Unconsumed, PutInto, KeysFrom, KeysTo, IdsAt, Logged;
      freecnt := freecnt0;
      var again := true;
      while again
        invariant Looping(pglast, headId, headRoom, totalRoom) && freecnt <= |p.freed| && p.freed != []
        invariant total + AddedBy(script) == old(total + AddedBy(script)) && |script| <= old(|script|)
        invariant !again ==> freecnt == |p.freed| && |script| < old(|script|)
        decreases |script|, again
      {
        if script == [] {
          ok := false;
          return;
        }
        freecnt := |p.freed|;
        ghost var was, rs := p, records;
        PutRecord(Rec(txnid, freecnt, []));
        PutBesides(was, p, rs, txnid, Rec(txnid, freecnt, []), pglast, headId, headRoom, totalRoom);
        FreedGrows(was, p, rs, txnid);
        again := freecnt < |p.freed|;
      }
      // the list is sorted in place and copied into the space that was reserved for it
      ghost var rs := records;
      PutBesides(p, p, rs, txnid, Rec(txnid, freecnt, p.freed), pglast, headId, headRoom, totalRoom);
      PutKeeps(records, Rec(txnid, freecnt, p.freed), 1, txnid);
      PutKeepsUnconsumed(records, Rec(txnid, freecnt, p.freed), p.pglast, txnid);
      PutIds(records, Rec(txnid, freecnt, p.freed));
      PutSame(records, start, Rec(txnid, freecnt, p.freed), p.pglast, txnid);
      records := PutInto(records, Rec(txnid, freecnt, p.freed));
      SameTotal(p, rs, records, txnid);
      assert p.freed[..freecnt] == p.freed;
      ok := true;
    }

    /** One (re)written reservation. */
    method Reserve(pglast: Txnid, headId0: Txnid, headRoom0: nat, totalRoom0: nat, ghost freecnt: nat)
      returns (headId: Txnid, headRoom: int, totalRoom: int, ok: bool)
      requires Looping(pglast, headId0, headRoom0, totalRoom0) && Saved(freecnt) && pglast == p.pglast > 0
      modifies this`p, this`script, this`total, this`writes, this`records
      ensures ok ==> Looping(pglast, headId, headRoom, totalRoom) && Saved(freecnt)
      ensures total + AddedBy(script) == old(total + AddedBy(script)) && |script| <= old(|script|)
      ensures ok ==> |script| < old(|script|)
      ensures var mopLen := |old(p.pghead)| + |old(p.loose)|;
              ok ==>
                && headId == (if totalRoom0 < mopLen && headRoom0 >= maxfree1pg && headId0 > 1 then headId0 - 1 else headId0)
                && var others := if headId == headId0 then totalRoom0 - headRoom0 else totalRoom0;
                && headRoom == RoomFor(mopLen - others, headId, maxfree1pg) && totalRoom == others + headRoom
                && records == PutInto(old(records), Rec(headId, headRoom, []))
      ensures !ok ==> script == []
    {
      hide At, Caps, CapAt, Follows, Total, Keyed, Unconsumed, PutInto, KeysFrom, KeysTo, IdsAt, ReservedIds, RoomFor,
           Logged;
      var mopLen := |p.pghead| + |p.loose|;
      headId, headRoom, totalRoom := headId0, headRoom0, totalRoom0;
      if totalRoom < mopLen && headRoom >= maxfree1pg && headId > 1 {
        // keep the current record, add a new one
        HeadBelow(records, pglast, headId);
        headId, headRoom := headId - 1, 0;
      }
      ghost var room := headRoom;
      totalRoom := totalRoom - headRoom;
      headRoom := RoomFor(mopLen - totalRoom, headId, maxfree1pg);
      if script == [] {
        ok := false;
        return;
      }
      ghost var was, rs := p, records;
      PutRecord(Rec(headId, headRoom, []));
      PutReservation(was, p, rs, txnid, Rec(headId, headRoom, []), pglast, room, totalRoom + room, freecnt);
      totalRoom := totalRoom + headRoom;
      ok := true;
    }

    // -------------------------------------------------------------- filling

    /** Fills the reserved records from the end of me_pghead, the smallest page numbers first. */
    method FillReserved(mop: seq<Pgno>)
      requires |mop| <= Caps(records, p.pglast) && Keyed(records)
      modifies this`records
      ensures records == Filled(old(records), mop)
    {
      hide Caps, Filled;
      ghost var rs := records;
      var i: nat, left: nat := 0, |mop|;
      assert rs[0..] == rs && mop[..left] == mop;
      while left > 0
        invariant i <= |records| && left <= |mop| && |records| == |rs|
        invariant Filled(rs, mop) == records[..i] + Filled(records[i..], mop[..left])
        invariant left <= Caps(records[i..], p.pglast)
        decreases |records| - i
      {
        FillStep(records, i, mop, left, p.pglast);
        var len: nat := if records[i].cap > left then left else records[i].cap;
        ghost var was := records;
        records := records[i := Rec(records[i].key, len, mop[left - len..left])];
        assert records[i + 1..] == was[i + 1..] && records[..i + 1] == was[..i] + [records[i]];
        i, left := i + 1, left - len;
      }
      NothingToFill(records[i..]);
      assert mop[..0] == [];
      assert records == records[..i] + records[i..];
    }

    /** Before the retry loop: the first page of the freeDB is touched, or loose pages are freed. */
    method Enter() returns (ok: bool)
      requires Valid() && IdsAt(records, txnid) == [] && (p.pglast > 0 ==> At(records, p.pglast).Some?) && writes == []
      modifies this`p, this`script, this`total, this`writes, this`began
      ensures ok ==> Looping(0, 0, 0, 0) && Saved(0) && began == Entering(old(p))
      ensures ok && old(p.pglast) == 0 ==> script == old(script)
      ensures ok && old(p.pglast) > 0 ==>
                old(script) != [] && script == old(script)[1..] && writes == [Write(records, old(script)[0])]
      ensures !ok ==> script == []
      ensures total + AddedBy(script) == old(total + AddedBy(script))
    {
      hide Reserved, At, Follows, Total, Keyed, Unconsumed, KeysFrom, KeysTo, SameAfter, Logged;
      LogEmpty(began, p, start, txnid, total);
      NoReservations(records);
      if p.pglast > 0 {
        if script == [] {
          return false;
        }
        ghost var was := p;
        Touch();
        StillThere(was, p, records, txnid);
      }
      if p.pglast == 0 && p.loose != [] {
        LogBegins(began, p, start, txnid, total);
        LooseFreed(p, records, txnid);
        p := Entering(p);
        began := p;
      }
      ok := true;
    }

    /** After it: loose pages are returned to me_pghead, and the reserved records filled. */
    method Finish(pglast: Txnid, ghost headId: Txnid, ghost headRoom: int, ghost totalRoom: int) returns (ghost kept: seq<Pgno>)
      requires Looping(pglast, headId, headRoom, totalRoom) && Saved(|p.freed|)
      requires pglast == p.pglast && totalRoom >= |p.pghead| + |p.loose|
      modifies this`p, this`records
      ensures p == Leaving(After(began, writes, txnid)) && kept == p.pghead
      ensures p.pglast == 0 ==> After(began, writes, txnid).loose == []
      ensures Traced(began, writes, start, txnid) && total == Total(began, start, txnid) + AddedIn(writes)
      ensures p.used + Stored(records) == total && Settled(records, start, p, kept, txnid, total)
    {
      hide Reserved, At, Caps, CapAt, Total, Keyed, Unconsumed, KeysFrom, KeysTo, IdsAt, Stored, StoredUpTo, SameAfter, Settled,
           Logged, After, Traced, Filled;
      assert p.freed[..|p.freed|] == p.freed;
      LooseReturned(p, records, txnid);
      LoggedIs(began, writes, p, start, txnid, total);
      p := Leaving(p);
      RoomIs(records, pglast, headId, headRoom, totalRoom);
      ghost var rs := records;
      FillReserved(p.pghead);
      Accounts(p, rs, start, txnid, headId, total);
      kept := p.pghead;
    }

    /**
     mdb_freelist_save. If it comes to an end, every page of the map is in use or listed in
     exactly one record: those taken from the freeDB and the loose ones under ids up to
     me_pglast, older than every reader, and those freed by this transaction under its own id.
     `done` is false if the writes in `script` did not suffice.
     */
    method Save() returns (done: bool, ghost kept: seq<Pgno>)
      requires Valid() && IdsAt(records, txnid) == [] && (p.pglast > 0 ==> At(records, p.pglast).Some?) && writes == []
      modifies this
      ensures total + AddedBy(script) == old(total + AddedBy(script))
      ensures !done ==> script == []
      ensures done ==> p.used + Stored(records) == total
      ensures done ==> Settled(records, start, p, kept, txnid, total)
      ensures done ==> began == Entering(old(p)) && Traced(began, writes, start, txnid)
      ensures done ==> p == Leaving(After(began, writes, txnid)) && kept == p.pghead
      ensures done && p.pglast == 0 ==> After(began, writes, txnid).loose == []
      ensures done ==> total == Total(began, start, txnid) + AddedIn(writes)
    {
      hide Reserved, At, Caps, CapAt, Follows, Total, Keyed, Unconsumed, PutInto, KeysFrom, KeysTo, IdsAt, Stored, StoredUpTo,
           SameAfter, Settled, Logged, After, Traced, Entering, Leaving;
      kept := [];
      var ok := Enter();
      if !ok {
        return false, [];
      }
      ghost var entered := began;
      var pglast: Txnid, headId: Txnid, freecnt: nat := 0, 0, 0;
      var headRoom, totalRoom, more := 0, 0, 1;
      while true
        invariant Looping(pglast, headId, headRoom, totalRoom) && Saved(freecnt) && began == entered
        invariant total + AddedBy(script) == old(total + AddedBy(script))
        decreases |script|
      {
        pglast, headId, headRoom, totalRoom, ok := DeletePulled(pglast, headId, headRoom, totalRoom, freecnt);
        if !ok {
          return false, [];
        }
        if freecnt < |p.freed| {
          freecnt, ok := SaveFreed(pglast, headId, headRoom, totalRoom, freecnt);
          if !ok {
            return false, [];
          }
          continue;
        }
        var mopLen := |p.pghead| + |p.loose|;
        if totalRoom >= mopLen {
          more := if totalRoom == mopLen then more else more - 1;
          if totalRoom == mopLen || more < 0 {
            break;
          }
        }
        RoomsDiffer(p, records, headId, headRoom, totalRoom);
        headId, headRoom, totalRoom, ok := Reserve(pglast, headId, headRoom, totalRoom, freecnt);
        if !ok {
          return false, [];
        }
      }
      kept := Finish(pglast, headId, headRoom, totalRoom);
      done := true;
    }
  }

  /** The records after `last`, but for this transaction's own, are the same. */
  ghost predicate SameAfter(rs: seq<Rec>, rs': seq<Rec>, last: Txnid, txnid: Txnid) {
    forall k :: last < k && k != txnid ==> At(rs, k) == At(rs', k)
  }

  lemma TailKeyed(rs: seq<Rec>, txnid: Txnid)
    requires rs != [] && Keyed(rs) && KeysFrom(rs, 1) && KeysTo(rs, txnid)
    ensures Keyed(rs[1..]) && KeysFrom(rs[1..], 1) && KeysTo(rs[1..], txnid) && rs[0].key > 0
  {
  }

  lemma TailSame(rs: seq<Rec>, start: seq<Rec>, last: Txnid, txnid: Txnid)
    requires rs != [] && rs[0].key <= last < txnid && SameAfter(rs, start, last, txnid)
    ensures SameAfter(rs[1..], start, last, txnid) && At(rs[1..], txnid) == At(rs, txnid)
  {
    forall k | last < k && k != txnid
      ensures At(rs[1..], k) == At(start, k)
    {
      assert At(rs, k) == At(rs[1..], k);
    }
  }

  lemma PutSame(rs: seq<Rec>, start: seq<Rec>, rec: Rec, last: Txnid, txnid: Txnid)
    requires Keyed(rs) && !Counts(rec, last, txnid) && SameAfter(rs, start, last, txnid)
    ensures SameAfter(PutInto(rs, rec), start, last, txnid)
    ensures rec.key != txnid ==> At(PutInto(rs, rec), txnid) == At(rs, txnid)
  {
    hide PutInto, At;
    PutAt(rs, rec, txnid);
    forall k | last < k && k != txnid
      ensures At(PutInto(rs, rec), k) == At(start, k)
    {
      PutAt(rs, rec, k);
      assert At(rs, k) == At(start, k);
    }
  }

  lemma {:induction false} NoneAt(rs: seq<Rec>, k: Txnid)
    requires forall i :: 0 <= i < |rs| ==> rs[i].key < k
    ensures At(rs, k).None?
  {
    if rs != [] {
      NoneAt(rs[1..], k);
    }
  }

  /**
   How mdb_freelist_save leaves the freeDB, given what it was at the start: `kept` is in the
   records up to me_pglast, the freed pages in the transaction's own record, which is there if
   anything was freed, and the records after me_pglast are as they were.
   */
  ghost predicate Settled(rs: seq<Rec>, start: seq<Rec>, p: Pools, kept: seq<Pgno>, txnid: Txnid, total: multiset<Pgno>) {
    && Keyed(rs) && KeysFrom(rs, 1) && KeysTo(rs, txnid) && p.pglast < txnid
    && p.loose == []
    && StoredUpTo(rs, p.pglast) == multiset(kept)
    && IdsAt(rs, txnid) == p.freed && (At(rs, txnid).Some? <==> p.freed != [])
    && SameAfter(rs, start, p.pglast, txnid)
    && p.used + multiset(kept) + multiset(p.freed) + Unconsumed(rs, p.pglast, txnid) == total
  }

  /** The records after filling. */
  function Filled(rs: seq<Rec>, mop: seq<Pgno>): seq<Rec> {
    if rs == [] || mop == [] then rs
    else
      var len := if rs[0].cap > |mop| then |mop| else rs[0].cap;
      [Rec(rs[0].key, len, mop[|mop| - len..])] + Filled(rs[1..], mop[..|mop| - len])
  }

  /** The pages listed in the records up to key k. */
  function StoredUpTo(rs: seq<Rec>, k: Txnid): multiset<Pgno> {
    if rs == [] then multiset{}
    else (if rs[0].key <= k then multiset(rs[0].ids) else multiset{}) + StoredUpTo(rs[1..], k)
  }

  lemma NothingToFill(rs: seq<Rec>)
    ensures Filled(rs, []) == rs && Filled([], []) == []
    ensures forall mop :: Filled([], mop) == []
  {
  }

  lemma {:induction false} NoCapAfter(rs: seq<Rec>, k: Txnid)
    requires Keyed(rs) && rs != [] && rs[0].key > k
    ensures Caps(rs, k) == 0
  {
    NoCaps(rs, k);
  }

  lemma FillStep(rs: seq<Rec>, i: nat, mop: seq<Pgno>, left: nat, k: Txnid)
    requires i <= |rs| && 0 < left <= |mop| && left <= Caps(rs[i..], k)
    ensures i < |rs|
    ensures var len := if rs[i].cap > left then left else rs[i].cap;
            && Filled(rs[i..], mop[..left]) ==
               [Rec(rs[i].key, len, mop[left - len..left])] + Filled(rs[i + 1..], mop[..left - len])
            && left - len <= Caps(rs[i + 1..], k)
  {
    assert rs[i..][1..] == rs[i + 1..] && rs[i..][0] == rs[i];
    var len := if rs[i].cap > left then left else rs[i].cap;
    assert mop[..left][..left - len] == mop[..left - len];
    assert mop[..left][left - len..] == mop[left - len..left];
  }

  lemma SameTotal(p: Pools, rs: seq<Rec>, rs': seq<Rec>, txnid: Txnid)
    requires Unconsumed(rs', p.pglast, txnid) == Unconsumed(rs, p.pglast, txnid)
    ensures Total(p, rs', txnid) == Total(p, rs, txnid)
  {
  }

  lemma FreedGrows(p: Pools, q: Pools, rs: seq<Rec>, txnid: Txnid)
    requires Follows(p, q, rs, txnid)
    ensures |p.freed| <= |q.freed|
  {
  }

  lemma PutIds(rs: seq<Rec>, rec: Rec)
    requires Keyed(rs)
    ensures IdsAt(PutInto(rs, rec), rec.key) == rec.ids
  {
    PutAt(rs, rec, rec.key);
  }

  /** Writing this transaction's own record leaves the reservations alone. */
  lemma PutBesides(p: Pools, q: Pools, rs: seq<Rec>, txnid: Txnid, rec: Rec,
                   pglast: Txnid, headId: Txnid, headRoom: int, totalRoom: int)
    requires Keyed(rs) && rec.key == txnid && pglast <= p.pglast < txnid && (p == q || Follows(p, q, rs, txnid))
    requires Reserved(rs, pglast, headId, headRoom, totalRoom) && (pglast < p.pglast ==> At(rs, p.pglast).Some?)
    requires p.pglast == 0 ==> p.loose == []
    ensures Reserved(PutInto(rs, rec), pglast, headId, headRoom, totalRoom)
    ensures pglast <= q.pglast && (pglast < q.pglast ==> At(PutInto(rs, rec), q.pglast).Some?)
    ensures q.pglast == 0 ==> q.loose == []
  {
    PutReserved(rs, rec, pglast, headId);
    PutCaps(rs, rec, pglast);
    PutAt(rs, rec, headId);
    PutAt(rs, rec, q.pglast);
  }

  /** Writing a reservation. */
  lemma PutReservation(p: Pools, q: Pools, rs: seq<Rec>, txnid: Txnid, rec: Rec,
                       pglast: Txnid, room: int, totalRoom: int, freecnt: nat)
    requires Keyed(rs) && Follows(p, q, rs, txnid) && pglast == p.pglast < txnid
    requires 0 < rec.key <= pglast && rec.ids == []
    requires ReservedIds(rs, pglast, rec.key) && CapAt(rs, rec.key) == room && Caps(rs, pglast) == totalRoom
    requires freecnt <= |p.freed| && IdsAt(rs, txnid) == p.freed[..freecnt]
    ensures Reserved(PutInto(rs, rec), pglast, rec.key, rec.cap, totalRoom - room + rec.cap)
    ensures pglast <= q.pglast && (pglast < q.pglast ==> At(PutInto(rs, rec), q.pglast).Some?) && q.pglast > 0
    ensures freecnt <= |q.freed| && IdsAt(PutInto(rs, rec), txnid) == q.freed[..freecnt]
  {
    PutReserved(rs, rec, pglast, rec.key);
    PutCaps(rs, rec, pglast);
    PutAt(rs, rec, rec.key);
    PutAt(rs, rec, q.pglast);
    PutAt(rs, rec, txnid);
    CapWithin(rs, rec.key, pglast);
    assert q.freed[..freecnt] == p.freed[..freecnt];
  }

  lemma {:induction false} CapWithin(rs: seq<Rec>, key: Txnid, k: Txnid)
    requires key <= k
    ensures CapAt(rs, key) <= Caps(rs, k)
  {
    if rs != [] {
      CapWithin(rs[1..], key, k);
    }
  }

  /** Deleting the first record leaves no reservation, and the saved list as it is. */
  lemma AfterDelete(p: Pools, q: Pools, rs: seq<Rec>, txnid: Txnid, freecnt: nat)
    requires Keyed(rs) && rs != [] && rs[0].key <= p.pglast < txnid && Follows(p, q, rs, txnid)
    requires At(rs, p.pglast).Some? && freecnt <= |p.freed| && IdsAt(rs, txnid) == p.freed[..freecnt]
    ensures Reserved(rs[1..], rs[0].key, rs[0].key, 0, 0)
    ensures rs[0].key <= q.pglast && (rs[0].key < q.pglast ==> At(rs[1..], q.pglast).Some?)
    ensures freecnt <= |q.freed| && IdsAt(rs[1..], txnid) == q.freed[..freecnt]
    ensures p.pglast > 0 ==> q.pglast > 0
  {
    assert forall i :: 0 <= i < |rs[1..]| ==> rs[1..][i] == rs[i + 1];
    NothingUpTo(rs[1..], rs[0].key);
    assert q.freed[..freecnt] == p.freed[..freecnt];
  }

  lemma FollowsKeeps(p: Pools, q: Pools, rs: seq<Rec>, txnid: Txnid)
    requires Follows(p, q, rs, txnid)
    ensures p.pglast <= q.pglast && (p.pglast < txnid ==> q.pglast < txnid)
    ensures (p.pglast == 0 ==> p.pghead == []) && q.pglast == 0 ==> q.pghead == []
  {
  }

  lemma TailUnconsumed(rs: seq<Rec>, pglast: Txnid, txnid: Txnid)
    requires rs != [] && rs[0].key <= pglast
    ensures Unconsumed(rs[1..], pglast, txnid) == Unconsumed(rs, pglast, txnid)
  {
  }

  lemma StillThere(p: Pools, q: Pools, rs: seq<Rec>, txnid: Txnid)
    requires Follows(p, q, rs, txnid) && At(rs, p.pglast).Some? && p.pglast > 0
    ensures At(rs, q.pglast).Some? && q.pglast > 0
  {
  }

  // ---------------------------------------------------------------- the accounts

  lemma LooseFreed(p: Pools, rs: seq<Rec>, txnid: Txnid)
    ensures Total(p.(loose := [], freed := p.freed + p.loose), rs, txnid) == Total(p, rs, txnid)
  {
    assert multiset(p.freed + p.loose) == multiset(p.freed) + multiset(p.loose);
  }

  lemma LooseReturned(p: Pools, rs: seq<Rec>, txnid: Txnid)
    ensures Total(p.(pghead := p.pghead + p.loose, loose := []), rs, txnid) == Total(p, rs, txnid)
  {
    assert multiset(p.pghead + p.loose) == multiset(p.pghead) + multiset(p.loose);
  }

  lemma NoReservations(rs: seq<Rec>)
    requires KeysFrom(rs, 1)
    ensures Reserved(rs, 0, 0, 0, 0)
  {
    NothingUpTo(rs, 0);
  }

  /** As long as the rooms differ there are records up to me_pglast. */
  lemma RoomsDiffer(p: Pools, rs: seq<Rec>, headId: Txnid, headRoom: int, totalRoom: int)
    requires Reserved(rs, p.pglast, headId, headRoom, totalRoom) && KeysFrom(rs, 1)
    requires p.pglast == 0 ==> p.pghead == [] && p.loose == []
    requires totalRoom != |p.pghead| + |p.loose|
    ensures p.pglast > 0 && headRoom >= 0 && totalRoom >= 0
  {
    if p.pglast == 0 {
      NoCaps(rs, 0);
    }
  }

  lemma RoomIs(rs: seq<Rec>, pglast: Txnid, headId: Txnid, headRoom: int, totalRoom: int)
    requires Reserved(rs, pglast, headId, headRoom, totalRoom)
    ensures Caps(rs, pglast) == totalRoom && ReservedIds(rs, pglast, headId)
  {
  }

  lemma FirstKeys(rs: seq<Rec>)
    requires Keyed(rs) && |rs| > 1
    ensures rs[0].key < rs[1].key
  {
  }

  lemma {:induction false} StoredAt(rs: seq<Rec>, k: Txnid, txnid: Txnid, x: Pgno)
    requires Keyed(rs) && KeysTo(rs, txnid) && k < txnid
    ensures Stored(rs)[x] == StoredUpTo(rs, k)[x] + Unconsumed(rs, k, txnid)[x] + multiset(IdsAt(rs, txnid))[x]
  {
    if rs != [] {
      if rs[0].key == txnid {
        if |rs| > 1 { FirstKeys(rs); }
        assert rs[1..] == [];
      } else {
        StoredAt(rs[1..], k, txnid, x);
      }
    }
  }

  /** What the records hold: reservations, records not yet read, and this transaction's own. */
  lemma StoredIs(rs: seq<Rec>, k: Txnid, txnid: Txnid)
    requires Keyed(rs) && KeysTo(rs, txnid) && k < txnid
    ensures Stored(rs) == StoredUpTo(rs, k) + Unconsumed(rs, k, txnid) + multiset(IdsAt(rs, txnid))
  {
    hide Stored, StoredUpTo, Unconsumed, IdsAt;
    forall x: Pgno
      ensures Stored(rs)[x] == (StoredUpTo(rs, k) + Unconsumed(rs, k, txnid) + multiset(IdsAt(rs, txnid)))[x]
    {
      StoredAt(rs, k, txnid, x);
    }
  }

  lemma {:induction false} NothingStored(rs: seq<Rec>, k: Txnid, headId: Txnid)
    requires ReservedIds(rs, k, headId)
    ensures StoredUpTo(rs, k) == multiset{}
  {
    if rs != [] {
      assert forall i :: 0 <= i < |rs[1..]| ==> rs[1..][i] == rs[i + 1];
      NothingStored(rs[1..], k, headId);
    }
  }

  /** The first record and the others, after filling. */
  lemma FilledParts(rs: seq<Rec>, mop: seq<Pgno>)
    requires rs != [] && mop != []
    ensures var len := if rs[0].cap > |mop| then |mop| else rs[0].cap;
            var r := Filled(rs, mop);
            && r != [] && r[0] == Rec(rs[0].key, len, mop[|mop| - len..])
            && r[1..] == Filled(rs[1..], mop[..|mop| - len])
            && multiset(mop) == multiset(mop[..|mop| - len]) + multiset(mop[|mop| - len..])
  {
    var len := if rs[0].cap > |mop| then |mop| else rs[0].cap;
    assert mop == mop[..|mop| - len] + mop[|mop| - len..];
  }

  lemma {:induction false} FilledKeyed(rs: seq<Rec>, mop: seq<Pgno>)
    requires Keyed(rs)
    ensures Keyed(Filled(rs, mop)) && SameKeys(rs, Filled(rs, mop))
  {
    if rs != [] && mop != [] {
      FilledParts(rs, mop);
      var r := Filled(rs, mop);
      FilledKeyed(rs[1..], mop[..|mop| - |r[0].ids|]);
      FilledKeys(rs, r[0], r[1..]);
      assert r == [r[0]] + r[1..];
    }
  }

  /** Filling puts every page of the list into exactly one record. */
  lemma {:induction false} FilledStores(rs: seq<Rec>, mop: seq<Pgno>, k: Txnid, headId: Txnid)
    requires Keyed(rs) && ReservedIds(rs, k, headId) && |mop| <= Caps(rs, k)
    ensures StoredUpTo(Filled(rs, mop), k) == multiset(mop)
  {
    hide Filled;
    if mop == [] || rs == [] {
      NothingToFill(rs);
      NothingStored(rs, k, headId);
    } else {
      if rs[0].key > k {
        NoCapAfter(rs, k);
      }
      FilledParts(rs, mop);
      assert forall i :: 0 <= i < |rs[1..]| ==> rs[1..][i] == rs[i + 1];
      var r := Filled(rs, mop);
      FilledStores(rs[1..], mop[..|mop| - |r[0].ids|], k, headId);
    }
  }

  /** Filling does not touch the records after key k. */
  lemma {:induction false} FilledKeepsRest(rs: seq<Rec>, mop: seq<Pgno>, k: Txnid, txnid: Txnid)
    requires Keyed(rs) && |mop| <= Caps(rs, k) && k < txnid
    ensures Unconsumed(Filled(rs, mop), k, txnid) == Unconsumed(rs, k, txnid)
  {
    hide Filled;
    if mop == [] || rs == [] {
      NothingToFill(rs);
    } else {
      if rs[0].key > k {
        NoCapAfter(rs, k);
      }
      FilledParts(rs, mop);
      FilledKeepsRest(rs[1..], mop[..|mop| - |Filled(rs, mop)[0].ids|], k, txnid);
    }
  }

  lemma {:induction false} FilledKeepsAt(rs: seq<Rec>, mop: seq<Pgno>, k: Txnid, key: Txnid)
    requires Keyed(rs) && |mop| <= Caps(rs, k) && k < key
    ensures At(Filled(rs, mop), key) == At(rs, key)
  {
    hide Filled;
    if mop == [] || rs == [] {
      NothingToFill(rs);
    } else {
      if rs[0].key > k {
        NoCapAfter(rs, k);
      }
      FilledParts(rs, mop);
      FilledKeepsAt(rs[1..], mop[..|mop| - |Filled(rs, mop)[0].ids|], k, key);
    }
  }

  lemma FilledSame(rs: seq<Rec>, start: seq<Rec>, mop: seq<Pgno>, last: Txnid, txnid: Txnid)
    requires Keyed(rs) && |mop| <= Caps(rs, last) && last < txnid && SameAfter(rs, start, last, txnid)
    ensures SameAfter(Filled(rs, mop), start, last, txnid) && At(Filled(rs, mop), txnid) == At(rs, txnid)
  {
    hide Filled, At, Caps;
    FilledKeepsAt(rs, mop, last, txnid);
    forall k | last < k && k != txnid
      ensures At(Filled(rs, mop), k) == At(start, k)
    {
      FilledKeepsAt(rs, mop, last, k);
      assert At(rs, k) == At(start, k);
    }
  }

  lemma SameIds(rs: seq<Rec>, rs': seq<Rec>, k: Txnid)
    requires At(rs, k) == At(rs', k)
    ensures IdsAt(rs, k) == IdsAt(rs', k)
  {
  }

  predicate SameKeys(rs: seq<Rec>, rs': seq<Rec>) {
    |rs| == |rs'| && forall i :: 0 <= i < |rs| ==> rs'[i].key == rs[i].key
  }

  lemma FilledKeys(rs: seq<Rec>, r0: Rec, tail: seq<Rec>)
    requires Keyed(rs) && rs != [] && r0.key == rs[0].key && SameKeys(rs[1..], tail)
    ensures Keyed([r0] + tail) && SameKeys(rs, [r0] + tail)
  {
    var r := [r0] + tail;
    forall i | 0 <= i < |rs|
      ensures r[i].key == rs[i].key
    {
      assert i > 0 ==> rs[1..][i - 1] == rs[i];
    }
  }

  lemma Accounts(p: Pools, rs: seq<Rec>, start: seq<Rec>, txnid: Txnid, headId: Txnid, total: multiset<Pgno>)
    requires Keyed(rs) && KeysFrom(rs, 1) && KeysTo(rs, txnid) && p.pglast < txnid && p.loose == []
    requires ReservedIds(rs, p.pglast, headId) && |p.pghead| <= Caps(rs, p.pglast)
    requires Total(p, rs, txnid) == total && IdsAt(rs, txnid) == p.freed
    requires SameAfter(rs, start, p.pglast, txnid) && (At(rs, txnid).Some? ==> p.freed != [])
    ensures var r := Filled(rs, p.pghead);
            p.used + Stored(r) == total && Settled(r, start, p, p.pghead, txnid, total)
  {
    hide Stored, StoredUpTo, Unconsumed, At, Filled, Caps, ReservedIds, SameAfter;
    var r := Filled(rs, p.pghead);
    FilledKeyed(rs, p.pghead);
    FilledStores(rs, p.pghead, p.pglast, headId);
    FilledKeepsRest(rs, p.pghead, p.pglast, txnid);
    FilledSame(rs, start, p.pghead, p.pglast, txnid);
    SameIds(r, rs, txnid);
    assert KeysTo(r, txnid) && KeysFrom(r, 1);
    StoredIs(r, p.pglast, txnid);
  }
}
