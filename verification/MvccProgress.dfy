/**
 What the protocol does not only allow but brings about: the scan of the reader table finds the
 oldest reader and not something older, readers begin without waiting for anyone, freed pages are
 used again, and a write transaction can commit from every state.
 */
module MvccProgress {
  import opened Base
  import opened Mvcc
  import opened MvccSafety

  // ---------------------------------------------------------------- what the scan finds

  ghost predicate Scanning(s: State) {
    s.writer.Writing? && !s.writer.scan.NotScanning?
  }

  /** The same scan has been under way since moment b. */
  ghost predicate ScansSince(run: seq<State>, b: nat, k: nat) {
    0 < b <= k < |run| && !Scanning(run[b - 1]) && forall m :: b <= m <= k ==> Scanning(run[m])
  }

  /** A claimed slot with this id. */
  ghost predicate Shows(s: State, i: nat, t: Txnid) {
    i < |s.readers| && s.readers[i].pid != 0 && s.readers[i].mark == Some(t)
  }

  /** It was so at some moment of the scan. */
  ghost predicate Seen(run: seq<State>, b: nat, k: nat, t: Txnid) {
    exists m, i :: b <= m <= k < |run| && Shows(run[m], i, t)
  }

  /** The slot was claimed at some moment of the scan. */
  ghost predicate WasClaimed(run: seq<State>, b: nat, k: nat, i: nat) {
    exists m :: b <= m <= k < |run| && Claimed(run[m], i)
  }

  ghost predicate Claimed(s: State, i: nat) {
    i < |s.readers| && s.readers[i].pid != 0
  }

  /** An id appears in a slot only while the slot is claimed. */
  lemma MarkAppears(s: State, s': State, step: Step, i: nat, t: Txnid)
    requires Inv(s) && Next(s, s', step)
    requires i < |s'.readers| && s'.readers[i].mark == Some(t)
    ensures i < |s.readers| && (s.readers[i].mark == Some(t) || s'.readers[i].pid != 0)
  {
    hide MetasOk, WriterOk, ScanOk, TxnNext, PickMeta, OnDisk, Fills, NewPages, SavedFree, FreshTxn, CachedOldest, Unflushed;
  }

  lemma ShownNow(run: seq<State>, b: nat, k: nat, i: nat, t: Txnid)
    requires b <= k < |run| && Shows(run[k], i, t)
    ensures Seen(run, b, k, t)
  {
  }

  lemma {:induction false} MarkWasShown(run: seq<State>, steps: seq<Step>, b: nat, m: nat, k: nat, i: nat, t: Txnid)
    requires IsRun(run, steps) && b <= m <= k < |run| && Claimed(run[m], i)
    requires i < |run[k].readers| && run[k].readers[i].mark == Some(t)
    ensures Seen(run, b, k, t)
    decreases k
  {
    hide Inv, Next, Seen, IsRun;
    if run[k].readers[i].pid != 0 {
      ShownNow(run, b, k, i, t);
    } else {
      RunKeepsInv(run, steps, k - 1);
      StepOf(run, steps, k - 1);
      InvMetas(run[k - 1]);
      MarkAppears(run[k - 1], run[k], steps[k - 1], i, t);
      MarkWasShown(run, steps, b, m, k - 1, i, t);
      SeenLater(run, b, k - 1, t);
    }
  }

  lemma ClaimedThenShown(run: seq<State>, steps: seq<Step>, b: nat, k: nat, i: nat, t: Txnid)
    requires IsRun(run, steps) && k < |run| && WasClaimed(run, b, k, i)
    requires i < |run[k].readers| && run[k].readers[i].mark == Some(t)
    ensures Seen(run, b, k, t)
  {
    var m :| b <= m <= k && Claimed(run[m], i);
    MarkWasShown(run, steps, b, m, k, i, t);
  }

  lemma StepOf(run: seq<State>, steps: seq<Step>, k: nat)
    requires IsRun(run, steps) && k + 1 < |run|
    ensures k < |steps| && |run[k].metas| == 2 && Next(run[k], run[k + 1], steps[k])
  {
    assert StepAt(run, steps, k);
  }

  lemma SeenLater(run: seq<State>, b: nat, k: nat, t: Txnid)
    requires Seen(run, b, k, t) && k + 1 < |run|
    ensures Seen(run, b, k + 1, t)
  {
    var m, i :| b <= m <= k && Shows(run[m], i, t);
  }

  /** What the scan has so far comes from its start or from a claimed slot. */
  ghost predicate Founded(run: seq<State>, b: nat, k: nat)
    requires k < |run| && Scanning(run[k])
  {
    var w := run[k].writer;
    && w.txn.txnid > 0
    && (w.scan.low == w.txn.txnid - 1 || Seen(run, b, k, w.scan.low))
    && (w.scan.AtMark? ==> w.scan.left > 0 && WasClaimed(run, b, k, w.scan.left - 1))
  }

  lemma ScanBegins(s: State, s': State, step: Step)
    requires Inv(s) && Next(s, s', step) && !Scanning(s) && Scanning(s')
    ensures s'.writer.txn.txnid > 0 && s'.writer.scan.AtPid? && s'.writer.scan.low == s'.writer.txn.txnid - 1
  {
    hide MetasOk, ReadersOk, WriterOk, TxnNext, PickMeta, Vacant, OnDisk, Fills, NewPages, SavedFree, FreshTxn, CachedOldest, Unflushed;
  }

  lemma ScanGoesOn(s: State, s': State, step: Step)
    requires Inv(s) && Next(s, s', step) && Scanning(s) && Scanning(s')
    ensures s'.writer.txn == s.writer.txn
    ensures var scan, scan' := s.writer.scan, s'.writer.scan;
            || scan' == scan
            || (scan.AtPid? && scan'.low == scan.low && (scan'.AtMark? ==> scan'.left > 0 && Claimed(s, scan'.left - 1)))
            || (scan.AtMark? && scan'.AtPid? && 0 < scan.left <= |s.readers| &&
                (scan'.low == scan.low || s.readers[scan.left - 1].mark == Some(scan'.low)))
  {
    hide MetasOk, ReadersOk, WriterOk, TxnNext, PickMeta, Vacant, OnDisk, Fills, NewPages, SavedFree, FreshTxn, CachedOldest, Unflushed;
    hide Shows, Seen;
  }

  lemma {:induction false} ScanIsFounded(run: seq<State>, steps: seq<Step>, b: nat, k: nat)
    requires IsRun(run, steps) && ScansSince(run, b, k)
    ensures Founded(run, b, k)
    decreases k
  {
    hide Inv, Next, Seen, WasClaimed, IsRun;
    RunKeepsInv(run, steps, k - 1);
    StepOf(run, steps, k - 1);
    var s, s' := run[k - 1], run[k];
    InvMetas(s);
    if k == b {
      ScanBegins(s, s', steps[k - 1]);
    } else {
      ScanIsFounded(run, steps, b, k - 1);
      ScanGoesOn(s, s', steps[k - 1]);
      var scan, scan' := s.writer.scan, s'.writer.scan;
      if Seen(run, b, k - 1, scan.low) {
        SeenLater(run, b, k - 1, scan.low);
      }
      if scan'.AtMark? {
        ClaimedLater(run, b, k - 1, scan'.left - 1);
      }
      if scan.AtMark? && scan'.AtPid? && scan'.low != scan.low {
        ClaimedThenShown(run, steps, b, k - 1, scan.left - 1, scan'.low);
        SeenLater(run, b, k - 1, scan'.low);
      }
    }
  }

  lemma ClaimedLater(run: seq<State>, b: nat, k: nat, i: nat)
    requires b <= k && k + 1 < |run| && (WasClaimed(run, b, k, i) || Claimed(run[k], i))
    ensures WasClaimed(run, b, k + 1, i)
  {
    if WasClaimed(run, b, k, i) {
      var m :| b <= m <= k && Claimed(run[m], i);
    }
  }

  lemma InvMetas(s: State)
    requires Inv(s)
    ensures |s.metas| == 2 && |s.log| >= 1
  {
  }

  lemma InvScan(s: State)
    requires Inv(s) && Scanning(s)
    ensures s.writer.phase == Running && s.writer.scan.low <= s.mti && s.writer.txn.txnid == s.mti + 1
  {
    hide ReadersOk, Avoids, Conserved, Partitioned, Spares, OnDisk;
  }

  lemma ScanEnds(s: State, s': State, step: Step)
    requires |s.metas| == 2 && Next(s, s', step)
    requires Scanning(s) && s.writer.phase == Running && s'.writer.Writing? && s'.writer.scan.NotScanning?
    ensures s'.writer.proc == s.writer.proc && s'.oldest == s.oldest[s.writer.proc := s.writer.scan.low]
  {
    hide TxnNext, PickMeta, Vacant, OnDisk, Fills, NewPages, SavedFree, FreshTxn, CachedOldest, Unflushed;
  }

  /**
   mdb_find_oldest: the id that a scan leaves as me_pgoldest is that of the last commit, or that of
   a reader which a claimed slot held during the scan.
   */
  lemma OldestIsAttained(run: seq<State>, steps: seq<Step>, b: nat, k: nat)
    requires IsRun(run, steps) && k + 1 < |run| && ScansSince(run, b, k)
    requires run[k + 1].writer.Writing? && run[k + 1].writer.scan.NotScanning?
    ensures var w := run[k].writer;
            && w.proc in run[k + 1].oldest && w.txn.txnid > 0
            && var low := run[k + 1].oldest[w.proc];
            && low <= w.txn.txnid - 1
            && (low == w.txn.txnid - 1 || Seen(run, b, k, low))
  {
    hide Inv, Next, IsRun, Seen;
    RunKeepsInv(run, steps, k);
    StepOf(run, steps, k);
    InvMetas(run[k]);
    ScanIsFounded(run, steps, b, k);
    InvScan(run[k]);
    ScanEnds(run[k], run[k + 1], steps[k]);
  }

  /** Without older readers, everything but the last two snapshots' own records can be reused. */
  lemma NoReaderNoDelay(run: seq<State>, steps: seq<Step>, b: nat, k: nat)
    requires IsRun(run, steps) && k + 1 < |run| && ScansSince(run, b, k)
    requires run[k + 1].writer.Writing? && run[k + 1].writer.scan.NotScanning?
    requires forall m: nat, i: nat, t: Txnid :: b <= m <= k && Shows(run[m], i, t) ==> t >= run[k].writer.txn.txnid - 1
    ensures var w := run[k].writer; w.proc in run[k + 1].oldest && run[k + 1].oldest[w.proc] == w.txn.txnid - 1
  {
    OldestIsAttained(run, steps, b, k);
    var low := run[k + 1].oldest[run[k].writer.proc];
    if Seen(run, b, k, low) {
      var m, i :| b <= m <= k && Shows(run[m], i, low);
    }
  }

  /** Every scan has a beginning. */
  lemma {:induction false} ScanHasBegun(run: seq<State>, steps: seq<Step>, k: nat) returns (b: nat)
    requires IsRun(run, steps) && k < |run| && Scanning(run[k])
    ensures ScansSince(run, b, k)
    decreases k
  {
    if k > 0 && Scanning(run[k - 1]) {
      b := ScanHasBegun(run, steps, k - 1);
    } else {
      b := k;
    }
  }

  // ---------------------------------------------------------------- states that can be reached

  ghost predicate IsPath(ss: seq<State>, steps: seq<Step>) {
    |ss| == |steps| + 1 && forall k :: 0 <= k < |steps| ==> StepAt(ss, steps, k)
  }

  ghost predicate CanReach(s: State, t: State) {
    exists ss, steps :: IsPath(ss, steps) && ss[0] == s && ss[|steps|] == t
  }

  lemma Here(s: State)
    ensures CanReach(s, s)
  {
    assert IsPath([s], []);
  }

  lemma Onward(s: State, t: State, u: State, step: Step)
    requires CanReach(s, t) && |t.metas| == 2 && Next(t, u, step)
    ensures CanReach(s, u)
  {
    hide Next;
    var ss, steps :| IsPath(ss, steps) && ss[0] == s && ss[|steps|] == t;
    var ss', steps' := ss + [u], steps + [step];
    forall k | 0 <= k < |steps'|
      ensures StepAt(ss', steps', k)
    {
      if k < |steps| {
        assert StepAt(ss, steps, k);
        assert ss'[k] == ss[k] && ss'[k + 1] == ss[k + 1] && steps'[k] == steps[k];
      }
    }
    assert IsPath(ss', steps');
  }

  lemma Go(s: State, t: State, u: State, step: Step)
    requires CanReach(s, t) && Inv(t) && Next(t, u, step)
    ensures CanReach(s, u) && Inv(u) && |u.metas| == 2
  {
    hide Inv, Next, CanReach;
    InvMetas(t);
    NextKeepsInv(t, u, step);
    InvMetas(u);
    Onward(s, t, u, step);
  }

  // ---------------------------------------------------------------- readers

  /** Only slot i differs. */
  ghost predicate OnlySlot(s: State, t: State, i: nat) {
    && i < |s.readers| == |t.readers|
    && t == s.(readers := s.readers[i := t.readers[i]])
  }

  /** A reader begins by four steps of its own, whatever the writer is doing, on the commit that is published. */
  lemma ReadersNeverWait(s: State, i: nat) returns (t: State)
    requires Inv(s) && i < s.numReaders && i < |s.readers| && s.readers[i].pid != 0 && s.readers[i].pc == Idle
    ensures CanReach(s, t) && Inv(t) && OnlySlot(s, t, i)
    ensures t.readers[i].pc.Active? && t.readers[i].pc.snap.txnid == s.mti
  {
    hide Inv, CanReach;
    InvMetas(s);
    Here(s);
    var r := s.readers[i];
    var a := s.(readers := s.readers[i := r.(pc := Loaded(s.mti))]);
    Go(s, s, a, Load(i));
    var b := a.(readers := a.readers[i := a.readers[i].(mark := Some(s.mti), pc := Stored(s.mti))]);
    Go(s, a, b, Store(i));
    var c := b.(readers := b.readers[i := b.readers[i].(pc := Checked(s.mti))]);
    Go(s, b, c, Recheck(i));
    t := c.(readers := c.readers[i := c.readers[i].(pc := Active(s.mti, s.metas[s.mti % 2]))]);
    Go(s, c, t, CopyMeta(i));
    PublishedMeta(s);
  }

  lemma PublishedMeta(s: State)
    requires Inv(s) && |s.metas| == 2
    ensures s.metas[s.mti % 2].txnid == s.mti
  {
    hide Conserved, Spares, OnDisk, ReadersOk, ScanOk, TxnOk, TxnShields;
    var n := |s.log| - 1;
    assert s.mti == n || s.mti + 1 == n;
  }

  /** A free slot, also one behind all others, can be claimed. */
  lemma SlotsCanBeClaimed(s: State, i: nat, pid: nat) returns (t: State)
    requires Inv(s) && i < |s.readers| && i <= s.numReaders && s.readers[i].pid == 0 && pid != 0
    ensures CanReach(s, t) && Inv(t) && |t.readers| == |s.readers| && i < t.numReaders
    ensures t.readers == s.readers[i := Reader(pid, None, Idle)]
  {
    hide Inv, CanReach;
    InvMetas(s);
    Here(s);
    var a := s.(readers := s.readers[i := Reader(0, None, Idle)]);
    Go(s, s, a, ClaimReset(i));
    var b := a;
    if i == a.numReaders {
      b := a.(numReaders := a.numReaders + 1);
      Go(s, a, b, ClaimCount(i));
    }
    t := b.(readers := b.readers[i := Reader(pid, None, Idle)]);
    Go(s, b, t, ClaimPid(i, pid));
  }

  // ---------------------------------------------------------------- reuse

  /** No claimed slot has an id up to key. */
  ghost predicate NoneUpTo(s: State, key: Txnid) {
    forall i, t :: Shows(s, i, t) ==> key < t
  }

  /** The rest of a scan, with nobody else taking a step. */
  lemma {:induction false} ScanOn(a: State, s: State, key: Txnid) returns (t: State)
    requires CanReach(a, s) && Inv(s) && Scanning(s) && s.writer.scan.AtPid? && s.writer.scan.left <= |s.readers|
    requires NoneUpTo(s, key) && key < s.writer.scan.low
    ensures CanReach(a, t) && Inv(t)
    ensures t == s.(writer := s.writer.(scan := NotScanning), oldest := t.oldest)
    ensures key < CachedOldest(t, s.writer.proc)
    decreases s.writer.scan.left
  {
    hide Inv, CanReach;
    InvMetas(s);
    var k, low := s.writer.scan.left, s.writer.scan.low;
    if k == 0 {
      t := s.(writer := s.writer.(scan := NotScanning), oldest := s.oldest[s.writer.proc := low]);
      Go(a, s, t, ScanPid);
    } else {
      var r := s.readers[k - 1];
      var b := s.(writer := s.writer.(scan := if r.pid != 0 then AtMark(k, low) else AtPid(k - 1, low)));
      Go(a, s, b, ScanPid);
      if r.pid != 0 {
        var c := b.(writer := b.writer.(scan := AtPid(k - 1, if r.mark.Some? && r.mark.value < low then r.mark.value else low)));
        Go(a, b, c, ScanMark);
        assert r.mark.Some? ==> Shows(s, k - 1, r.mark.value);
        assert forall i, u :: Shows(c, i, u) ==> Shows(s, i, u);
        t := ScanOn(a, c, key);
      } else {
        assert forall i, u :: Shows(b, i, u) ==> Shows(s, i, u);
        t := ScanOn(a, b, key);
      }
    }
  }

  /** A record that is older than every reader, and than the last commit, can be fetched. */
  lemma RecordsCanBeReused(s: State, key: Txnid) returns (t: State)
    requires Inv(s) && s.writer.Writing? && s.writer.phase == Running && s.writer.scan == NotScanning
    requires NextRecord(s.writer.txn.base.free, s.writer.txn.last, key)
    requires key < s.mti && NoneUpTo(s, key)
    ensures CanReach(s, t) && Inv(t) && t.readers == s.readers && t.log == s.log && t.writer.Writing?
    ensures var tx := s.writer.txn; t.writer.txn == tx.(head := Some(Head(tx) + tx.base.free[key]), last := key)
  {
    InvWriter(s);
    hide Inv, CanReach, NextRecord;
    InvMetas(s);
    Here(s);
    var a := s.(writer := s.writer.(scan := AtPid(s.numReaders, s.writer.txn.txnid - 1)));
    Go(s, s, a, ScanStart);
    assert forall i, u :: Shows(a, i, u) ==> Shows(s, i, u);
    var b := ScanOn(s, a, key);
    var tx := s.writer.txn;
    var tx' := tx.(head := Some(Head(tx) + tx.base.free[key]), last := key);
    t := b.(writer := b.writer.(txn := tx'));
    InvMetas(b);
    Fetches(b, tx', key);
    hide NextRecord, TxnNext;
    Go(s, b, t, Private(Consume(key)));
  }

  lemma Fetches(s: State, tx': Txn, key: Txnid)
    requires s.writer.Writing? && s.writer.phase == Running && s.writer.scan == NotScanning && |s.metas| == 2
    requires NextRecord(s.writer.txn.base.free, s.writer.txn.last, key) && key < CachedOldest(s, s.writer.proc)
    requires var tx := s.writer.txn; tx' == tx.(head := Some(Head(tx) + tx.base.free[key]), last := key)
    ensures Next(s, s.(writer := s.writer.(txn := tx')), Private(Consume(key)))
  {
    hide NextRecord;
  }

  lemma InvWriter(s: State)
    requires Inv(s) && s.writer.Writing? && s.writer.phase == Running
    ensures s.numReaders <= |s.readers| && s.writer.txn.txnid == s.mti + 1
  {
    hide Avoids, Conserved, Partitioned, Spares, OnDisk, ReaderOk;
  }

  // ---------------------------------------------------------------- a transaction's pages

  /** The writer is between two operations. */
  ghost predicate Idling(s: State) {
    s.writer.Writing? && s.writer.phase == Running && s.writer.scan == NotScanning
  }

  /** A private step that the transaction's pages and lists permit can be taken. */
  lemma Privately(s: State, tx': Txn, step: TxnStep) returns (t: State)
    requires Inv(s) && Idling(s) && TxnNext(s.writer.txn, tx', CachedOldest(s, s.writer.proc), step)
    ensures CanReach(s, t) && Inv(t) && t == s.(writer := s.writer.(txn := tx'))
  {
    hide Inv, CanReach, TxnNext;
    InvMetas(s);
    Here(s);
    t := s.(writer := s.writer.(txn := tx'));
    Go(s, s, t, Private(step));
  }

  /** A run of any length can be taken from me_pghead, and holds what is written to it. */
  lemma RunsCanBeTaken(s: State, start: Pgno, cs: seq<Content>) returns (t: State)
    requires Inv(s) && Idling(s) && |cs| >= 1 && s.writer.txn.head.Some? && Run(start, |cs|) <= Head(s.writer.txn)
    ensures CanReach(s, t) && Inv(t) && t.writer.Writing?
    ensures var tx, tx' := s.writer.txn, t.writer.txn;
            && Head(tx') == Head(tx) - Run(start, |cs|) && tx'.used == tx.used + Run(start, |cs|) && tx'.next == tx.next
            && forall p: Pgno :: InRun(p, start, |cs|) ==> p in tx'.mem && tx'.mem[p] == cs[p - start]
  {
    hide Inv, CanReach;
    var tx, taken := s.writer.txn, Run(start, |cs|);
    var tx' := tx.(head := Some(Head(tx) - taken), used := tx.used + taken, mem := WithRun(tx.mem, start, cs));
    t := Privately(s, tx', AllocHead(start, cs));
    RunHolds(tx.mem, start, cs);
  }

  lemma RunHolds(mem: map<Pgno, Content>, start: Pgno, cs: seq<Content>)
    ensures forall p: Pgno :: InRun(p, start, |cs|) ==> p in WithRun(mem, start, cs) && WithRun(mem, start, cs)[p] == cs[p - start]
  {
  }

  /** A dirty run can be given back to it (mdb_ovpage_free). */
  lemma RunsCanBeGivenBack(s: State, start: Pgno, num: nat) returns (t: State)
    requires Inv(s) && Idling(s) && s.writer.txn.head.Some? && Run(start, num) <= s.writer.txn.used * s.writer.txn.mem.Keys
    ensures CanReach(s, t) && Inv(t) && t.writer.Writing?
    ensures var tx, tx' := s.writer.txn, t.writer.txn;
            Head(tx') == Head(tx) + Run(start, num) && tx'.used == tx.used - Run(start, num) && tx'.freed == tx.freed
  {
    hide Inv, CanReach;
    var tx := s.writer.txn;
    var tx' := tx.(used := tx.used - Run(start, num), head := Some(Head(tx) + Run(start, num)));
    t := Privately(s, tx', FreeToHead(start, num));
  }

  /** A page of the transaction's own can be written again and again. */
  lemma PagesCanBeEdited(s: State, p: Pgno, c: Content) returns (t: State)
    requires Inv(s) && Idling(s) && p in s.writer.txn.used && p in s.writer.txn.mem
    ensures CanReach(s, t) && Inv(t) && t.writer.Writing? && t.writer.txn.mem == s.writer.txn.mem[p := c]
  {
    hide Inv, CanReach;
    t := Privately(s, s.writer.txn.(mem := s.writer.txn.mem[p := c]), Edit(p, c));
  }

  // ---------------------------------------------------------------- commit

  /** Loose pages go where mdb_freelist_save puts them. */
  function WithoutLoose(tx: Txn): Txn {
    if tx.head.None? then tx.(loose := {}, freed := tx.freed + tx.loose)
    else tx.(loose := {}, head := Some(Head(tx) + tx.loose))
  }

  lemma LooseCanGo(a: State, s: State) returns (t: State)
    requires CanReach(a, s) && Inv(s) && Idling(s)
    ensures CanReach(a, t) && Inv(t) && t == s.(writer := s.writer.(txn := WithoutLoose(s.writer.txn)))
  {
    hide Inv, CanReach;
    InvMetas(s);
    t := s.(writer := s.writer.(txn := WithoutLoose(s.writer.txn)));
    Go(a, s, t, Private(if s.writer.txn.head.None? then LooseToFreed else LooseToHead));
  }

  function Part(mem: map<Pgno, Content>, out: set<Pgno>): map<Pgno, Content> {
    map p | p in out && p in mem :: mem[p]
  }

  lemma PartMore(disk: map<Pgno, Content>, mem: map<Pgno, Content>, out: set<Pgno>, p: Pgno)
    requires p in out && p in mem
    ensures (disk + Part(mem, out - {p}))[p := mem[p]] == disk + Part(mem, out)
  {
  }

  /** Dirty pages can be written back in any order. */
  lemma {:induction false} WriteBackAll(a: State, s: State, out: set<Pgno>)
    requires CanReach(a, s) && Inv(s) && Uncommitted(s.writer) && out <= s.writer.txn.mem.Keys
    ensures var t := s.(disk := s.disk + Part(s.writer.txn.mem, out)); CanReach(a, t) && Inv(t)
    decreases |out|
  {
    hide Inv, CanReach, Part;
    var mem := s.writer.txn.mem;
    if out == {} {
      NoPart(s, mem);
    } else {
      var p :| p in out;
      WriteBackAll(a, s, out - {p});
      var b := s.(disk := s.disk + Part(mem, out - {p}));
      InvMetas(b);
      PartMore(s.disk, mem, out, p);
      Go(a, b, b.(disk := b.disk[p := mem[p]]), WriteBack(p));
    }
  }

  lemma NoPart(s: State, mem: map<Pgno, Content>)
    ensures s.(disk := s.disk + Part(mem, {})) == s
  {
    assert Part(mem, {}) == map[];
    assert s.disk + map[] == s.disk;
  }

  /** All of me_pghead in one record. */
  function OneRecord(tx: Txn): map<Txnid, set<Pgno>> {
    if tx.last == 0 then map[] else map[tx.last := Head(tx)]
  }

  lemma OneRecordFills(tx: Txn)
    requires TxnOk(tx)
    ensures Fills(tx, OneRecord(tx))
  {
    hide Partitioned, Conserved;
    var fill := OneRecord(tx);
    if tx.last > 0 {
      assert tx.last in fill;
    }
  }

  function Committed(tx: Txn): Snapshot
    requires tx.used <= tx.base.pages.Keys + tx.mem.Keys
  {
    Snapshot(tx.txnid, tx.next, NewPages(tx), SavedFree(tx, OneRecord(tx)))
  }

  lemma InvTxn(s: State)
    requires Inv(s) && Idling(s)
    ensures TxnOk(s.writer.txn) && s.writer.txn.used <= s.writer.txn.base.pages.Keys + s.writer.txn.mem.Keys
    ensures |s.log| >= 1 && s.writer.txn.base == Last(s) && OnDisk(s.writer.txn.base, s.disk) && s.writer.txn.txnid == |s.log|
    ensures s.writer.txn.mem.Keys !! s.writer.txn.base.pages.Keys
  {
    hide Conserved, Partitioned, Spares, OnDisk, ReadersOk;
  }

  /** After that every page of the new snapshot is on disk. */
  lemma AllOnDisk(tx: Txn, disk: map<Pgno, Content>)
    requires tx.used <= tx.base.pages.Keys + tx.mem.Keys && OnDisk(tx.base, disk)
    ensures OnDisk(Committed(tx), disk + Part(tx.mem, tx.mem.Keys))
  {
    hide SavedFree, OneRecord;
  }

  lemma CanSave(s: State)
    requires Idling(s) && TxnOk(s.writer.txn) && s.writer.txn.loose == {} && |s.metas| == 2
    requires s.writer.txn.used <= s.writer.txn.base.pages.Keys + s.writer.txn.mem.Keys
    ensures Next(s, s.(writer := s.writer.(phase := Saved(Committed(s.writer.txn)))), SaveFreelist(OneRecord(s.writer.txn)))
  {
    OneRecordFills(s.writer.txn);
    hide TxnOk, Fills, NewPages, SavedFree, OneRecord;
  }

  /** From the save step to the end of the transaction. */
  lemma Finishes(a: State, s: State) returns (t: State)
    requires CanReach(a, s) && Inv(s) && s.writer.Writing? && s.writer.phase.Saved? && OnDisk(s.writer.phase.snap, s.disk)
    ensures CanReach(a, t) && Inv(t) && t.writer == Unlocked && t.log == s.log + [s.writer.phase.snap] && t.disk == s.disk
    ensures t.mti == s.writer.txn.txnid
  {
    hide Inv, CanReach, OnDisk;
    InvMetas(s);
    var m := s.writer.phase.snap;
    var b := s.(writer := s.writer.(phase := Flushed(m)));
    Go(a, s, b, FlushDone);
    var c := b.(metas := b.metas[m.txnid % 2 := m], log := b.log + [m], writer := b.writer.(phase := MetaWritten));
    Go(a, b, c, WriteMeta);
    var d := c.(mti := c.writer.txn.txnid, writer := c.writer.(phase := Published));
    Go(a, c, d, Publish);
    t := d.(writer := Unlocked);
    Go(a, d, t, Finish);
  }

  /** A write transaction can commit whatever it has done: its pages become those of the newest snapshot. */
  lemma TransactionsCanCommit(s: State) returns (t: State)
    requires Inv(s) && Idling(s)
    ensures CanReach(s, t) && Inv(t) && t.writer == Unlocked && t.mti == s.writer.txn.txnid
    ensures s.writer.txn.used <= s.writer.txn.base.pages.Keys + s.writer.txn.mem.Keys
    ensures |t.log| == |s.log| + 1 && Last(t).pages == NewPages(s.writer.txn)
  {
    hide Inv, CanReach, TxnOk, Committed, Conserved;
    Here(s);
    InvTxn(s);
    var b := LooseCanGo(s, s);
    InvTxn(b);
    InvMetas(b);
    var tx := b.writer.txn;
    WriteBackAll(s, b, tx.mem.Keys);
    var c := b.(disk := b.disk + Part(tx.mem, tx.mem.Keys));
    AllOnDisk(tx, b.disk);
    InvMetas(c);
    CanSave(c);
    var d := c.(writer := c.writer.(phase := Saved(Committed(tx))));
    Go(s, c, d, SaveFreelist(OneRecord(tx)));
    t := Finishes(s, d);
    CommittedPages(tx);
    SamePages(s.writer.txn);
  }

  lemma CommittedPages(tx: Txn)
    requires tx.used <= tx.base.pages.Keys + tx.mem.Keys
    ensures Committed(tx).pages == NewPages(tx)
  {
  }

  lemma SamePages(tx: Txn)
    requires tx.used <= tx.base.pages.Keys + tx.mem.Keys
    ensures NewPages(WithoutLoose(tx)) == NewPages(tx)
  {
  }

  /** A transaction that is under way can be given up or finished. */
  lemma LocksAreReleased(s: State) returns (t: State)
    requires Inv(s)
    ensures CanReach(s, t) && Inv(t) && !t.writer.Writing? && s.log <= t.log && t.readers == s.readers
    ensures if s.writer.Writing? then t.writer == Unlocked else t == s
  {
    hide Inv, CanReach;
    InvMetas(s);
    Here(s);
    t := s;
    if Uncommitted(s.writer) {
      t := s.(writer := Unlocked);
      Go(s, s, t, Abort);
    } else if s.writer.Writing? {
      var c := s;
      if s.writer.phase.MetaWritten? {
        c := s.(mti := s.writer.txn.txnid, writer := s.writer.(phase := Published));
        Go(s, s, c, Publish);
      }
      t := c.(writer := Unlocked);
      Go(s, c, t, Finish);
    }
  }

  /** From every state, also after the death of the owner, another transaction can be begun. */
  lemma WritersNeverStuck(s: State, proc: nat) returns (t: State)
    requires Inv(s) && (s.writer.OwnerDead? ==> proc != s.writer.proc)
    ensures CanReach(s, t) && Inv(t) && Idling(t) && s.log <= t.log && t.readers == s.readers
  {
    hide Inv, CanReach, PickMeta, FreshTxn;
    var b := LocksAreReleased(s);
    InvMetas(b);
    var d := b;
    if b.writer == Unlocked {
      d := b.(writer := Locked(proc));
      Go(s, b, d, Lock(proc));
    } else if b.writer.OwnerDead? {
      d := b.(mti := PickMeta(b.metas).txnid, writer := Locked(proc));
      Go(s, b, d, Recover(proc));
    }
    t := d.(writer := Writing(d.writer.proc, FreshTxn(d.mti, d.metas[d.mti % 2]), NotScanning, Running));
    Go(s, d, t, Begin);
  }

  /** A process that finds its own thread dead with the mutex does not become the writer. */
  lemma OwnDeadThreadIsFatal(run: seq<State>, steps: seq<Step>, k: nat)
    requires IsRun(run, steps) && k < |steps| && steps[k].Recover? && run[k].writer.OwnerDead?
    ensures run[k + 1].writer.Locked? ==> run[k + 1].writer.proc != run[k].writer.proc
    ensures !run[k + 1].writer.Writing? && |run[k].metas| == 2 && run[k + 1].mti == PickMeta(run[k].metas).txnid
  {
    hide PickMeta;
    StepOf(run, steps, k);
  }

  // ---------------------------------------------------------------- what readers, deaths and crashes may do

  /** A reader that ends its transaction no longer holds anything back. */
  lemma ReadersCanEnd(s: State, i: nat) returns (t: State)
    requires Inv(s) && i < |s.readers| && s.readers[i].pc.Active?
    ensures CanReach(s, t) && Inv(t) && OnlySlot(s, t, i) && t.readers[i] == Reader(s.readers[i].pid, None, Idle)
  {
    hide Inv, CanReach;
    InvMetas(s);
    Here(s);
    t := s.(readers := s.readers[i := Reader(s.readers[i].pid, None, Idle)]);
    Go(s, s, t, EndRead(i));
  }

  /** A reader may die at any point; its slot keeps its id. */
  lemma ReadersMayDie(s: State, i: nat) returns (t: State)
    requires Inv(s) && i < |s.readers| && s.readers[i].pid != 0
    ensures CanReach(s, t) && Inv(t) && OnlySlot(s, t, i) && t.readers[i] == s.readers[i].(pc := Gone)
  {
    hide Inv, CanReach;
    InvMetas(s);
    Here(s);
    t := s.(readers := s.readers[i := s.readers[i].(pc := Gone)]);
    Go(s, s, t, ReaderDies(i));
  }

  /** Until the slot is cleared. */
  lemma DeadSlotsAreCleared(s: State, i: nat) returns (t: State)
    requires Inv(s) && i < |s.readers| && s.readers[i].pc == Gone
    ensures CanReach(s, t) && Inv(t) && OnlySlot(s, t, i) && t.readers[i].pid == 0
  {
    hide Inv, CanReach;
    InvMetas(s);
    Here(s);
    t := s.(readers := s.readers[i := s.readers[i].(pid := 0)]);
    Go(s, s, t, ClearSlot(i));
  }

  /** So may the owner of the writer's mutex. */
  lemma OwnersMayDie(s: State) returns (t: State)
    requires Inv(s) && (s.writer.Writing? || s.writer.Locked?)
    ensures CanReach(s, t) && t == s.(writer := OwnerDead(s.writer.proc))
  {
    hide Inv, CanReach;
    InvMetas(s);
    Here(s);
    t := s.(writer := OwnerDead(s.writer.proc));
    Go(s, s, t, WriterDies);
  }

  /** A crash may lose or tear every page that is not flushed, and nothing else. */
  lemma CrashesMayTear(s: State, disk: map<Pgno, Content>) returns (t: State)
    requires Inv(s)
    requires forall p :: p in s.disk && !(Uncommitted(s.writer) && !s.writer.phase.Flushed? && p in s.writer.txn.mem) ==>
                           p in disk && disk[p] == s.disk[p]
    ensures CanReach(s, t) && t.disk == disk && t.metas == s.metas && t.log == s.log && t.writer == Unlocked
  {
    hide Inv, CanReach, PickMeta;
    InvMetas(s);
    Here(s);
    t := s.(disk := disk, mti := PickMeta(s.metas).txnid, readers := Vacant(|s.readers|),
            numReaders := 0, oldest := map[], writer := Unlocked);
    Go(s, s, t, Crash(disk));
  }
}
