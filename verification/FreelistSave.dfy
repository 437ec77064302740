/**
 mdb_freelist_save: the pages a transaction has freed, and those it took from the freeDB and did
 not use, are written back to the freeDB. Writing takes pages itself, so records are reserved
 until there is room for what is left, and filled only then.
 */
module FreelistSave {
  import opened Base

  /** A freeDB record: its key is a transaction id, `cap` the ids it has space for. */
  datatype Rec = Rec(key: Txnid, cap: nat, ids: seq<Pgno>)

  /** Where the pages are that no freeDB record holds, or that were taken from one. */
  datatype Pools = Pools(
    pghead: seq<Pgno>,      // me_pghead
    pglast: Txnid,          // me_pglast: records up to here are in pghead
    loose: seq<Pgno>,       // mt_loose_pgs
    freed: seq<Pgno>,       // mt_free_pgs
    used: multiset<Pgno>)   // pages of the trees, the freeDB's own among them

  predicate Keyed(rs: seq<Rec>) {
    forall i, j :: 0 <= i < j < |rs| ==> rs[i].key < rs[j].key
  }

  /** All pages listed in the records. */
  function Stored(rs: seq<Rec>): multiset<Pgno> {
    if rs == [] then multiset{} else multiset(rs[0].ids) + Stored(rs[1..])
  }

  /** A record after pglast, and not the one this transaction writes, still counts. */
  predicate Counts(r: Rec, pglast: Txnid, txnid: Txnid) {
    pglast < r.key && r.key != txnid
  }

  function Unconsumed(rs: seq<Rec>, pglast: Txnid, txnid: Txnid): multiset<Pgno> {
    if rs == [] then multiset{}
    else (if Counts(rs[0], pglast, txnid) then multiset(rs[0].ids) else multiset{}) + Unconsumed(rs[1..], pglast, txnid)
  }

  /** Every page, wherever it is. */
  function Total(p: Pools, rs: seq<Rec>, txnid: Txnid): multiset<Pgno> {
    p.used + multiset(p.pghead) + multiset(p.loose) + multiset(p.freed) + Unconsumed(rs, p.pglast, txnid)
  }

  // ---------------------------------------------------------------- what writing to the freeDB does

  /**
   What one put or deletion in the freeDB does to the pools: mdb_page_alloc may pull further
   records up to `upTo`, take pages from pghead or loose ones, or new ones from the end of the
   map; touching pages frees their old numbers.
   */
  datatype Disturbance = Disturbance(upTo: Txnid, takes: set<Pgno>, loose: nat, added: seq<Pgno>, frees: seq<Pgno>)

  /** The last record to pull. */
  function LastUpTo(rs: seq<Rec>, last: Txnid, upTo: Txnid, txnid: Txnid): (r: Txnid)
    ensures last <= r && (r == last || r < txnid)
  {
    if rs == [] then last
    else if last < rs[0].key <= upTo && rs[0].key < txnid then LastUpTo(rs[1..], rs[0].key, upTo, txnid)
    else LastUpTo(rs[1..], last, upTo, txnid)
  }

  function Pulled(rs: seq<Rec>, last: Txnid, newLast: Txnid, txnid: Txnid): seq<Pgno> {
    if rs == [] then []
    else (if Counts(rs[0], last, txnid) && rs[0].key <= newLast then rs[0].ids else []) + Pulled(rs[1..], last, newLast, txnid)
  }

  function Without(s: seq<Pgno>, out: set<Pgno>): seq<Pgno> {
    if s == [] then [] else (if s[0] in out then [] else [s[0]]) + Without(s[1..], out)
  }

  function Within(s: seq<Pgno>, out: set<Pgno>): seq<Pgno> {
    if s == [] then [] else (if s[0] in out then [s[0]] else []) + Within(s[1..], out)
  }

  lemma {:induction false} TakenOrLeft(s: seq<Pgno>, out: set<Pgno>)
    ensures multiset(s) == multiset(Without(s, out)) + multiset(Within(s, out))
  {
    if s != [] {
      TakenOrLeft(s[1..], out);
      assert s == [s[0]] + s[1..];
    }
  }

  lemma {:induction false} PulledOrLeft(rs: seq<Rec>, last: Txnid, newLast: Txnid, txnid: Txnid)
    requires last <= newLast
    ensures Unconsumed(rs, last, txnid) == multiset(Pulled(rs, last, newLast, txnid)) + Unconsumed(rs, newLast, txnid)
  {
    if rs != [] {
      PulledOrLeft(rs[1..], last, newLast, txnid);
    }
  }

  /** Only pages in use can be freed, each once. */
  function Freeable(frees: seq<Pgno>, used: multiset<Pgno>): (r: seq<Pgno>)
    ensures multiset(r) <= used
  {
    if frees == [] then []
    else if used[frees[0]] > 0 then [frees[0]] + Freeable(frees[1..], used - multiset{frees[0]})
    else Freeable(frees[1..], used)
  }

  function Disturbed(p: Pools, rs: seq<Rec>, txnid: Txnid, d: Disturbance): (r: Pools)
  {
    var newLast := LastUpTo(rs, p.pglast, d.upTo, txnid);
    var head := p.pghead + Pulled(rs, p.pglast, newLast, txnid);
    var n := if d.loose <= |p.loose| then d.loose else |p.loose|;
    var used := p.used + multiset(Within(head, d.takes)) + multiset(p.loose[..n]) + multiset(d.added);
    var frees := Freeable(d.frees, used);
    Pools(Without(head, d.takes), newLast, p.loose[n..], p.freed + frees, used - multiset(frees))
  }

  /** Writing moves pages between the pools, and adds those from the end of the map. */
  lemma DisturbConserves(p: Pools, rs: seq<Rec>, txnid: Txnid, d: Disturbance)
    ensures Total(Disturbed(p, rs, txnid, d), rs, txnid) == Total(p, rs, txnid) + multiset(d.added)
    ensures var q := Disturbed(p, rs, txnid, d);
            && p.pglast <= q.pglast && p.freed <= q.freed
            && (q.pglast == p.pglast || q.pglast < txnid)
  {
    hide Stored, LastUpTo, Pulled, Without, Within, Freeable, Unconsumed;
    var newLast := LastUpTo(rs, p.pglast, d.upTo, txnid);
    var pulled := Pulled(rs, p.pglast, newLast, txnid);
    var head := p.pghead + pulled;
    var n := if d.loose <= |p.loose| then d.loose else |p.loose|;
    PulledOrLeft(rs, p.pglast, newLast, txnid);
    TakenOrLeft(head, d.takes);
    assert p.loose == p.loose[..n] + p.loose[n..];
    var used := p.used + multiset(Within(head, d.takes)) + multiset(p.loose[..n]) + multiset(d.added);
    var frees := Freeable(d.frees, used);
    Balance(p.used, multiset(p.pghead), multiset(pulled), multiset(Without(head, d.takes)), multiset(Within(head, d.takes)),
            multiset(p.loose[..n]), multiset(p.loose[n..]), multiset(p.freed), multiset(frees),
            Unconsumed(rs, newLast, txnid), multiset(d.added));
  }

  /** The account of a disturbance. */
  lemma Balance(used: multiset<Pgno>, head: multiset<Pgno>, pulled: multiset<Pgno>, left: multiset<Pgno>, taken: multiset<Pgno>,
                reused: multiset<Pgno>, loose: multiset<Pgno>, freed: multiset<Pgno>, frees: multiset<Pgno>,
                rest: multiset<Pgno>, added: multiset<Pgno>)
    requires head + pulled == left + taken && frees <= used + taken + reused + added
    ensures (used + taken + reused + added - frees) + left + loose + (freed + frees) + rest ==
            used + head + (reused + loose) + freed + (pulled + rest) + added
  {
    forall x: Pgno
      ensures ((used + taken + reused + added - frees) + left + loose + (freed + frees) + rest)[x] ==
              (used + head + (reused + loose) + freed + (pulled + rest) + added)[x]
    {
      assert (head + pulled)[x] == (left + taken)[x];
      assert frees[x] <= (used + taken + reused + added)[x];
    }
  }

  // ---------------------------------------------------------------- the table

  /** mdb_cursor_put on the freeDB. */
  function PutInto(rs: seq<Rec>, rec: Rec): seq<Rec> {
    if rs == [] then [rec]
    else if rs[0].key < rec.key then [rs[0]] + PutInto(rs[1..], rec)
    else if rs[0].key == rec.key then [rec] + rs[1..]
    else [rec] + rs
  }

  predicate KeysFrom(rs: seq<Rec>, k: Txnid) {
    forall i :: 0 <= i < |rs| ==> k <= rs[i].key
  }

  predicate KeysTo(rs: seq<Rec>, k: Txnid) {
    forall i :: 0 <= i < |rs| ==> rs[i].key <= k
  }

  lemma {:induction false} PutKeeps(rs: seq<Rec>, rec: Rec, k: Txnid, hi: Txnid)
    requires Keyed(rs) && KeysFrom(rs, k) && k <= rec.key && KeysTo(rs, hi) && rec.key <= hi
    ensures Keyed(PutInto(rs, rec)) && KeysFrom(PutInto(rs, rec), k) && KeysTo(PutInto(rs, rec), hi)
  {
    if rs != [] && rs[0].key < rec.key {
      assert KeysFrom(rs[1..], rs[0].key + 1);
      PutKeeps(rs[1..], rec, rs[0].key + 1, hi);
    }
  }

  lemma {:induction false} PutKeepsUnconsumed(rs: seq<Rec>, rec: Rec, pglast: Txnid, txnid: Txnid)
    requires !Counts(rec, pglast, txnid)
    ensures Unconsumed(PutInto(rs, rec), pglast, txnid) == Unconsumed(rs, pglast, txnid)
  {
    if rs != [] && rs[0].key < rec.key {
      var r := [rs[0]] + PutInto(rs[1..], rec);
      assert r[1..] == PutInto(rs[1..], rec);
      PutKeepsUnconsumed(rs[1..], rec, pglast, txnid);
    } else if rs != [] && rs[0].key == rec.key {
      assert ([rec] + rs[1..])[1..] == rs[1..];
    } else {
      assert ([rec] + rs)[1..] == rs;
    }
  }

  /** The record with a given key. */
  function At(rs: seq<Rec>, k: Txnid): Option<Rec> {
    if rs == [] then None else if rs[0].key == k then Some(rs[0]) else At(rs[1..], k)
  }

  function IdsAt(rs: seq<Rec>, k: Txnid): seq<Pgno> {
    if At(rs, k).Some? then At(rs, k).value.ids else []
  }

  function CapAt(rs: seq<Rec>, k: Txnid): nat {
    if At(rs, k).Some? then At(rs, k).value.cap else 0
  }

  lemma {:induction false} PutAt(rs: seq<Rec>, rec: Rec, k: Txnid)
    requires Keyed(rs)
    ensures At(PutInto(rs, rec), k) == if k == rec.key then Some(rec) else At(rs, k)
  {
    if rs != [] && rs[0].key < rec.key {
      var r := [rs[0]] + PutInto(rs[1..], rec);
      assert r[1..] == PutInto(rs[1..], rec);
      PutAt(rs[1..], rec, k);
    } else if rs != [] && rs[0].key == rec.key {
      assert ([rec] + rs[1..])[1..] == rs[1..];
    } else {
      assert ([rec] + rs)[1..] == rs;
      if rs != [] { AtBelow(rs, rec.key); }
    }
  }

  lemma {:induction false} AtBelow(rs: seq<Rec>, k: Txnid)
    requires forall i :: 0 <= i < |rs| ==> k < rs[i].key
    ensures At(rs, k).None?
  {
    if rs != [] {
      AtBelow(rs[1..], k);
    }
  }

  /** The space in the records up to key k. */
  function Caps(rs: seq<Rec>, k: Txnid): nat {
    if rs == [] then 0 else (if rs[0].key <= k then rs[0].cap else 0) + Caps(rs[1..], k)
  }

  lemma {:induction false} PutCaps(rs: seq<Rec>, rec: Rec, k: Txnid)
    requires Keyed(rs)
    ensures Caps(PutInto(rs, rec), k) == if rec.key <= k then Caps(rs, k) - CapAt(rs, rec.key) + rec.cap else Caps(rs, k)
  {
    if rs != [] && rs[0].key < rec.key {
      var r := [rs[0]] + PutInto(rs[1..], rec);
      assert r[1..] == PutInto(rs[1..], rec);
      PutCaps(rs[1..], rec, k);
    } else if rs != [] && rs[0].key == rec.key {
      assert ([rec] + rs[1..])[1..] == rs[1..];
    } else {
      assert ([rec] + rs)[1..] == rs;
      AtBelow(rs, rec.key);
    }
  }

  /** The records up to key k are reserved: empty so far, none before headId. */
  predicate ReservedIds(rs: seq<Rec>, k: Txnid, headId: Txnid) {
    forall i :: 0 <= i < |rs| && rs[i].key <= k ==> rs[i].ids == [] && headId <= rs[i].key
  }

  lemma {:induction false} PutReserved(rs: seq<Rec>, rec: Rec, k: Txnid, headId: Txnid)
    requires ReservedIds(rs, k, headId) && (rec.key <= k ==> rec.ids == [] && headId <= rec.key)
    ensures ReservedIds(PutInto(rs, rec), k, headId)
  {
    if rs != [] && rs[0].key < rec.key {
      PutReserved(rs[1..], rec, k, headId);
      var r := PutInto(rs[1..], rec);
      forall i | 0 <= i < |[rs[0]] + r| && ([rs[0]] + r)[i].key <= k
        ensures ([rs[0]] + r)[i].ids == [] && headId <= ([rs[0]] + r)[i].key
      {
        assert i > 0 ==> ([rs[0]] + r)[i] == r[i - 1];
      }
    }
  }

  /** What the reservations amount to, in terms of the variables of mdb_freelist_save. */
  predicate Reserved(rs: seq<Rec>, pglast: Txnid, headId: Txnid, headRoom: int, totalRoom: int) {
    && headId <= pglast
    && ReservedIds(rs, pglast, headId)
    && CapAt(rs, headId) == headRoom <= totalRoom == Caps(rs, pglast)
  }

  lemma {:induction false} NothingUpTo(rs: seq<Rec>, k: Txnid)
    requires forall i :: 0 <= i < |rs| ==> k < rs[i].key
    ensures Reserved(rs, k, k, 0, 0)
  {
    AtBelow(rs, k);
    NoCaps(rs, k);
  }

  lemma {:induction false} NoCaps(rs: seq<Rec>, k: Txnid)
    requires forall i :: 0 <= i < |rs| ==> k < rs[i].key
    ensures Caps(rs, k) == 0
  {
    if rs != [] {
      NoCaps(rs[1..], k);
    }
  }

  /** A new reservation below the ones there are. */
  lemma {:induction false} HeadBelow(rs: seq<Rec>, k: Txnid, headId: Txnid)
    requires ReservedIds(rs, k, headId) && 0 < headId <= k
    ensures ReservedIds(rs, k, headId - 1) && CapAt(rs, headId - 1) == 0
  {
    if rs != [] {
      assert rs[0].key <= k ==> rs[0].key >= headId;
      assert forall i :: 0 <= i < |rs[1..]| ==> rs[1..][i] == rs[i + 1];
      HeadBelow(rs[1..], k, headId);
    }
  }
}
