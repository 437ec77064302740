/** Runs of the steps that a write transaction of the protocol takes on its own. */
module PrivateSteps {
  import opened Base
  import M = Mvcc
  import S = MvccSafety

  function PagesOf(s: seq<Pgno>): set<Pgno> {
    set p | p in s
  }

  ghost predicate IsTxnRun(txs: seq<M.Txn>, steps: seq<M.TxnStep>, oldest: Txnid) {
    && |txs| == |steps| + 1
    && forall k :: 0 <= k < |steps| ==> M.TxnNext(txs[k], txs[k + 1], oldest, steps[k])
  }

  ghost predicate Leads(a: M.Txn, b: M.Txn, oldest: Txnid) {
    exists txs, steps :: IsTxnRun(txs, steps, oldest) && txs[0] == a && txs[|steps|] == b
  }

  lemma Stays(a: M.Txn, oldest: Txnid)
    ensures Leads(a, a, oldest)
  {
    assert IsTxnRun([a], [], oldest);
  }

  lemma Onward(a: M.Txn, b: M.Txn, c: M.Txn, oldest: Txnid, step: M.TxnStep)
    requires Leads(a, b, oldest) && M.TxnNext(b, c, oldest, step)
    ensures Leads(a, c, oldest)
  {
    hide M.TxnNext;
    var txs, steps :| IsTxnRun(txs, steps, oldest) && txs[0] == a && txs[|steps|] == b;
    var txs', steps' := txs + [c], steps + [step];
    forall k | 0 <= k < |steps'|
      ensures M.TxnNext(txs'[k], txs'[k + 1], oldest, steps'[k])
    {
      if k < |steps| {
        assert txs'[k] == txs[k] && txs'[k + 1] == txs[k + 1] && steps'[k] == steps[k];
      }
    }
    assert IsTxnRun(txs', steps', oldest);
  }

  function Part(mem: map<Pgno, Content>, out: set<Pgno>): map<Pgno, Content> {
    map p | p in out && p in mem :: mem[p]
  }

  /** Pages of me_pghead, taken one by one and written. */
  function Taken(tx: M.Txn, out: set<Pgno>, mem: map<Pgno, Content>): M.Txn
    requires tx.head.Some?
  {
    tx.(head := Some(M.Head(tx) - out), used := tx.used + out, mem := tx.mem + Part(mem, out))
  }

  lemma {:induction false} TakeAll(a: M.Txn, tx: M.Txn, out: set<Pgno>, mem: map<Pgno, Content>, oldest: Txnid)
    requires Leads(a, tx, oldest)
    requires tx.head.Some? && out <= mem.Keys && out <= M.Head(tx)
    ensures Leads(a, Taken(tx, out, mem), oldest)
    decreases |out|
  {
    if out == {} {
      TakeNone(tx, out, mem);
    } else {
      var p :| p in out;
      var b := Taken(tx, out - {p}, mem);
      TakeAll(a, tx, out - {p}, mem, oldest);
      TakeOne(tx, out, p, mem, oldest);
      Onward(a, b, Taken(tx, out, mem), oldest, M.AllocHead(p, [mem[p]]));
    }
  }

  lemma TakeNone(tx: M.Txn, out: set<Pgno>, mem: map<Pgno, Content>)
    requires tx.head.Some? && out == {}
    ensures Taken(tx, out, mem) == tx
  {
    assert M.Head(tx) - out == tx.head.value;
    assert Part(mem, out) == map[];
    assert tx.mem + map[] == tx.mem;
  }

  lemma PartMore(m: map<Pgno, Content>, mem: map<Pgno, Content>, out: set<Pgno>, p: Pgno)
    requires p in out && p in mem
    ensures (m + Part(mem, out - {p}))[p := mem[p]] == m + Part(mem, out)
  {
  }

  /** What an allocation adds to the pages written. */
  lemma WithRunAt(m: map<Pgno, Content>, start: Pgno, cs: seq<Content>, p: Pgno)
    ensures p in M.WithRun(m, start, cs) <==> p in m || start <= p < start + |cs|
    ensures start <= p < start + |cs| ==> M.WithRun(m, start, cs)[p] == cs[p - start]
    ensures p in m && !(start <= p < start + |cs|) ==> M.WithRun(m, start, cs)[p] == m[p]
  {
    InRuns(start, |cs|);
  }

  lemma WithOne(m: map<Pgno, Content>, p: Pgno, x: Content)
    ensures M.WithRun(m, p, [x]) == m[p := x]
  {
    hide M.WithRun;
    forall q: Pgno
      ensures q in M.WithRun(m, p, [x]) <==> q in m[p := x]
      ensures q in m[p := x] ==> M.WithRun(m, p, [x])[q] == m[p := x][q]
    {
      WithRunAt(m, p, [x], q);
    }
  }

  lemma TakeOne(tx: M.Txn, out: set<Pgno>, p: Pgno, mem: map<Pgno, Content>, oldest: Txnid)
    requires tx.head.Some? && out <= mem.Keys && out <= M.Head(tx) && p in out
    ensures M.TxnNext(Taken(tx, out - {p}, mem), Taken(tx, out, mem), oldest, M.AllocHead(p, [mem[p]]))
  {
    hide Part, M.WithRun;
    var b, c := Taken(tx, out - {p}, mem), Taken(tx, out, mem);
    assert M.Run(p, 1) == {p} by { assert M.InRun(p, p, 1); }
    assert M.Head(b) - {p} == M.Head(c);
    assert b.used + {p} == c.used;
    WithOne(b.mem, p, mem[p]);
    PartMore(tx.mem, mem, out, p);
  }

  lemma {:induction false} FreeAll(a: M.Txn, tx: M.Txn, out: set<Pgno>, oldest: Txnid)
    requires Leads(a, tx, oldest) && out <= tx.used
    ensures Leads(a, tx.(used := tx.used - out, freed := tx.freed + out), oldest)
    decreases |out|
  {
    if out == {} {
      assert tx.(used := tx.used - out, freed := tx.freed + out) == tx;
    } else {
      var p :| p in out;
      var rest := out - {p};
      FreeAll(a, tx, rest, oldest);
      var b := tx.(used := tx.used - rest, freed := tx.freed + rest);
      assert b.used - {p} == tx.used - out && b.freed + {p} == tx.freed + out;
      Onward(a, b, tx.(used := tx.used - out, freed := tx.freed + out), oldest, M.Free(p));
    }
  }

  function Blank(out: set<Pgno>): map<Pgno, Content> {
    map p | p in out :: []
  }

  /** Loose pages, used again. */
  function Reused(tx: M.Txn, out: set<Pgno>): M.Txn {
    tx.(loose := tx.loose - out, used := tx.used + out, mem := tx.mem + Blank(out))
  }

  lemma BlankMore(m: map<Pgno, Content>, out: set<Pgno>, p: Pgno)
    requires p in out
    ensures (m + Blank(out - {p}))[p := []] == m + Blank(out)
  {
  }

  lemma {:induction false} ReuseAll(a: M.Txn, tx: M.Txn, out: set<Pgno>, oldest: Txnid)
    requires Leads(a, tx, oldest) && out <= tx.loose
    ensures Leads(a, Reused(tx, out), oldest)
    decreases |out|
  {
    hide Leads;
    if out == {} {
      assert Blank(out) == map[] && tx.mem + map[] == tx.mem;
      assert Reused(tx, out) == tx;
    } else {
      var p :| p in out;
      var b := Reused(tx, out - {p});
      ReuseAll(a, tx, out - {p}, oldest);
      assert b.loose - {p} == tx.loose - out && b.used + {p} == tx.used + out;
      BlankMore(tx.mem, out, p);
      Onward(a, b, Reused(tx, out), oldest, M.AllocLoose(p, []));
    }
  }

  lemma {:induction false} LoosenAll(a: M.Txn, tx: M.Txn, out: set<Pgno>, oldest: Txnid)
    requires Leads(a, tx, oldest) && out <= tx.used * tx.mem.Keys
    ensures Leads(a, tx.(used := tx.used - out, loose := tx.loose + out), oldest)
    decreases |out|
  {
    if out == {} {
      assert tx.(used := tx.used - out, loose := tx.loose + out) == tx;
    } else {
      var p :| p in out;
      var rest := out - {p};
      LoosenAll(a, tx, rest, oldest);
      var b := tx.(used := tx.used - rest, loose := tx.loose + rest);
      assert b.used - {p} == tx.used - out && b.loose + {p} == tx.loose + out;
      Onward(a, b, tx.(used := tx.used - out, loose := tx.loose + out), oldest, M.Loosen(p));
    }
  }

  /** All new pages, from the end of the map. */
  lemma ExtendOnce(a: M.Txn, tx: M.Txn, next: Pgno, mem: map<Pgno, Content>, oldest: Txnid)
    requires Leads(a, tx, oldest) && tx.next <= next && mem.Keys == tx.mem.Keys + M.Run(tx.next, next - tx.next)
    requires tx.mem.Keys !! M.Run(tx.next, next - tx.next) && forall p :: p in tx.mem ==> tx.mem[p] == mem[p]
    ensures Leads(a, tx.(next := next, used := tx.used + M.Run(tx.next, next - tx.next), mem := mem), oldest)
  {
    hide Leads, M.WithRun;
    var n := next - tx.next;
    InRuns(tx.next, n);
    var t := tx.(next := next, used := tx.used + M.Run(tx.next, n), mem := mem);
    if n == 0 {
      assert mem == tx.mem && t == tx;
    } else {
      forall p
        ensures p in mem <==> p in tx.mem || tx.next <= p < next
      {
        assert p in mem.Keys <==> p in tx.mem.Keys + M.Run(tx.next, n);
      }
      var cs := NewContents(tx.mem, tx.next, n, mem);
      Onward(a, tx, t, oldest, M.AllocNew(cs));
    }
  }

  lemma NewContents(m: map<Pgno, Content>, start: Pgno, n: nat, mem: map<Pgno, Content>) returns (cs: seq<Content>)
    requires forall p :: p in mem <==> p in m || start <= p < start + n
    requires forall p :: p in m ==> !(start <= p < start + n) && p in mem && m[p] == mem[p]
    ensures |cs| == n && M.WithRun(m, start, cs) == mem
  {
    hide M.WithRun;
    cs := seq(n, i requires 0 <= i < n => mem[start + i]);
    forall p: Pgno
      ensures p in M.WithRun(m, start, cs) <==> p in mem
      ensures p in mem ==> M.WithRun(m, start, cs)[p] == mem[p]
    {
      WithRunAt(m, start, cs, p);
    }
  }

  lemma InRuns(start: Pgno, n: nat)
    ensures forall p :: p in M.Run(start, n) <==> start <= p < start + n
  {
    assert forall p: Pgno :: start <= p < start + n ==> M.InRun(p, start, n);
  }

  // ---------------------------------------------------------------- in the whole protocol

  function WithTxn(s: M.State, tx: M.Txn): M.State
    requires s.writer.Writing?
  {
    s.(writer := s.writer.(txn := tx))
  }

  lemma {:induction false} RunKeepsInv(s: M.State, txs: seq<M.Txn>, steps: seq<M.TxnStep>, k: nat)
    requires S.Inv(s) && s.writer.Writing? && s.writer.phase == M.Running && s.writer.scan == M.NotScanning
    requires IsTxnRun(txs, steps, M.CachedOldest(s, s.writer.proc)) && txs[0] == s.writer.txn && k < |txs|
    ensures S.Inv(WithTxn(s, txs[k]))
  {
    hide S.Inv, M.TxnNext;
    if k == 0 {
      assert WithTxn(s, txs[0]) == s;
    } else {
      RunKeepsInv(s, txs, steps, k - 1);
      assert M.TxnNext(txs[k - 1], txs[k], M.CachedOldest(s, s.writer.proc), steps[k - 1]);
      S.PrivateKeepsInv(WithTxn(s, txs[k - 1]), WithTxn(s, txs[k]), steps[k - 1]);
    }
  }

  lemma LeadsKeepsInv(s: M.State, tx: M.Txn, oldest: Txnid)
    requires S.Inv(s) && s.writer.Writing? && s.writer.phase == M.Running && s.writer.scan == M.NotScanning
    requires oldest == M.CachedOldest(s, s.writer.proc) && Leads(s.writer.txn, tx, oldest)
    ensures S.Inv(WithTxn(s, tx))
  {
    hide S.Inv, M.TxnNext;
    var txs, steps :| IsTxnRun(txs, steps, oldest) && txs[0] == s.writer.txn && txs[|steps|] == tx;
    RunKeepsInv(s, txs, steps, |steps|);
  }
}
