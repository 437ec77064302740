/**
 What every run of the protocol keeps: no page that a live reader or either meta page can reach
 is ever allocated or overwritten, pages are conserved, and a crash loses nothing committed.
 */
module MvccSafety {
  import opened Base
  import opened Mvcc

  // ---------------------------------------------------------------- invariants

  /** Pages listed in the records after `last`. */
  ghost function Listed(free: map<Txnid, set<Pgno>>, last: Txnid): set<Pgno> {
    set k, p | k in free && last < k && p in free[k] :: p
  }

  ghost predicate RecordsDisjoint(free: map<Txnid, set<Pgno>>) {
    forall k, j :: k in free && j in free && k != j ==> free[k] !! free[j]
  }

  /** Pages 2 up to, but not including, `next`. */
  function Below(next: Pgno): set<Pgno>
    requires 2 <= next
  {
    Run(2, next - 2)
  }

  /** Each page of a snapshot is used once or listed in one freeDB record. */
  ghost predicate Conserved(m: Snapshot) {
    && 2 <= m.next
    && (forall k :: k in m.free ==> 1 <= k <= m.txnid)
    && RecordsDisjoint(m.free)
    && m.pages.Keys !! Listed(m.free, 0)
    && m.pages.Keys + Listed(m.free, 0) == Below(m.next)
  }

  /** The records of m older than `bound` list no page of the snapshot `kept`. */
  ghost predicate Spares(m: Snapshot, bound: Txnid, kept: Snapshot) {
    forall k :: k in m.free && k < bound ==> m.free[k] !! kept.pages.Keys
  }

  /** freeDB pages the transaction has not fetched. */
  ghost function Pending(tx: Txn): set<Pgno> {
    Listed(tx.base.free, tx.last)
  }

  /** Conservation in a running transaction: its pages are partitioned five ways. */
  ghost predicate Partitioned(tx: Txn) {
    && 2 <= tx.base.next <= tx.next
    && tx.used !! tx.freed !! tx.loose !! Head(tx) !! Pending(tx)
    && tx.used + tx.freed + tx.loose + Head(tx) + Pending(tx) == Below(tx.next)
  }

  ghost predicate TxnOk(tx: Txn) {
    && Conserved(tx.base)
    && tx.txnid == tx.base.txnid + 1
    && Partitioned(tx)
    && tx.used <= tx.base.pages.Keys + tx.mem.Keys
    && (tx.head.None? <==> tx.last == 0)
    && tx.last <= tx.base.txnid
  }

  /** The pages the transaction may still hand out or write are not the snapshot's. */
  ghost predicate Avoids(tx: Txn, kept: Snapshot) {
    && tx.mem.Keys + tx.loose + Head(tx) !! kept.pages.Keys
    && 2 <= tx.base.next
    && kept.pages.Keys <= Below(tx.base.next)
  }

  /** The last committed snapshot. */
  ghost function LastOf(log: seq<Snapshot>): Snapshot
    requires |log| >= 1
  {
    log[|log| - 1]
  }

  /** The one before it; an environment starts with two copies of snapshot 0. */
  ghost function PreviousOf(log: seq<Snapshot>): Snapshot
    requires |log| >= 1
  {
    if |log| == 1 then log[0] else log[|log| - 2]
  }

  ghost predicate MetasOk(metas: seq<Snapshot>, log: seq<Snapshot>, disk: map<Pgno, Content>) {
    && |metas| == 2
    && |log| >= 1
    && var n := |log| - 1;
    && (forall k :: 0 <= k <= n ==> log[k].txnid == k && Conserved(log[k]))
    && metas[n % 2] == log[n]
    && metas[(n + 1) % 2] == PreviousOf(log)
    && PreviousOf(log).next <= log[n].next
    && Spares(log[n], n, PreviousOf(log))
    && OnDisk(log[n], disk)
    && OnDisk(PreviousOf(log), disk)
  }

  ghost function Last(s: State): Snapshot
    requires |s.log| >= 1
  {
    LastOf(s.log)
  }

  ghost function Previous(s: State): Snapshot
    requires |s.log| >= 1
  {
    PreviousOf(s.log)
  }

  /** The reader's published id is known to be recent enough. */
  ghost predicate Pinned(r: Reader) {
    r.pc.Checked? || r.pc.Active?
  }

  ghost predicate ReaderOk(s: State, i: nat, r: Reader)
    requires |s.log| >= 1
  {
    && (!r.pc.Gone? && !r.pc.Idle? ==> i < s.numReaders && r.pid != 0)
    && (r.pc.Stored? ==> r.mark == Some(r.pc.t))
    && (r.pc.Loaded? || r.pc.Stored? ==> r.pc.t <= s.mti)
    && (Pinned(r) ==>
          && r.mark == Some(r.pc.t)
          && r.pc.t <= s.mti
          && forall q :: q in s.oldest ==> s.oldest[q] <= r.pc.t)
    && (r.pc.Active? ==>
          && var m := r.pc.snap;
          && r.pc.t <= m.txnid <= |s.log| - 1
          && m == s.log[m.txnid]
          && m.next <= Last(s).next
          && Spares(Last(s), r.pc.t, m)
          && OnDisk(m, s.disk))
  }

  ghost predicate ReadersOk(s: State)
    requires |s.log| >= 1
  {
    && s.numReaders <= |s.readers|
    && forall i :: 0 <= i < |s.readers| ==> ReaderOk(s, i, s.readers[i])
  }

  /** A scan that is under way has seen, or will still see, every pinned reader. */
  ghost predicate ScanOk(s: State) {
    s.writer.Writing? && !s.writer.scan.NotScanning? ==>
      && var k, low := s.writer.scan.left, s.writer.scan.low;
      && s.writer.phase == Running
      && k <= s.numReaders
      && (s.writer.scan.AtMark? ==> 0 < k)
      && low <= s.mti
      && forall i :: 0 <= i < |s.readers| && Pinned(s.readers[i]) ==> i < k || low <= s.readers[i].pc.t
  }

  /** The transaction shields everything that is committed or being read. */
  ghost predicate TxnShields(tx: Txn, readers: seq<Reader>, log: seq<Snapshot>)
    requires |log| >= 1
  {
    && tx.base == LastOf(log)
    && Avoids(tx, LastOf(log)) && Avoids(tx, PreviousOf(log))
    && (forall i :: 0 <= i < |readers| && readers[i].pc.Active? ==> Avoids(tx, readers[i].pc.snap))
  }

  ghost predicate WriterOk(s: State)
    requires |s.log| >= 1
  {
    var n := |s.log| - 1;
    match s.writer
    case Unlocked => s.mti == n
    case Locked(_) => s.mti == n
    case OwnerDead(_) => s.mti == n || s.mti + 1 == n
    case Writing(_, tx, _, phase) =>
      if phase.MetaWritten? then s.mti + 1 == n && tx.txnid == n
      else if phase.Published? then s.mti == n
      else
        && s.mti == n
        && TxnOk(tx)
        && TxnShields(tx, s.readers, s.log)
        && (phase.Saved? || phase.Flushed? ==> SavedOk(tx, phase.snap))
        && (phase.Flushed? ==> OnDisk(phase.snap, s.disk))
  }

  ghost predicate SavedOk(tx: Txn, m: Snapshot) {
    && m.txnid == tx.txnid
    && m.next == tx.next
    && Conserved(m)
    && (forall p :: p in m.pages && p in tx.mem ==> m.pages[p] == tx.mem[p])
    && forall k :: k in m.free && k < tx.txnid ==>
         if k in tx.base.free && tx.last < k then m.free[k] == tx.base.free[k] else m.free[k] <= Head(tx)
  }

  ghost predicate Inv(s: State) {
    && MetasOk(s.metas, s.log, s.disk)
    && (forall q :: q in s.oldest ==> s.oldest[q] <= s.mti)
    && ReadersOk(s)
    && ScanOk(s)
    && WriterOk(s)
  }

  // ---------------------------------------------------------------- a transaction's own steps

  lemma FetchedRecord(tx: Txn, key: Txnid)
    requires NextRecord(tx.base.free, tx.last, key) && RecordsDisjoint(tx.base.free)
    ensures tx.base.free[key] <= Pending(tx)
    ensures Listed(tx.base.free, key) == Pending(tx) - tx.base.free[key]
  {
  }

  lemma Extend(next: Pgno, num: nat)
    requires 2 <= next
    ensures Below(next) + Run(next, num) == Below(next + num)
    ensures Below(next) !! Run(next, num)
  {
  }

  lemma ConsumeKeepsPartition(tx: Txn, tx': Txn, oldest: Txnid, key: Txnid)
    requires TxnOk(tx) && TxnNext(tx, tx', oldest, Consume(key)) && oldest <= tx.base.txnid
    ensures TxnOk(tx')
  {
    FetchedRecord(tx, key);
  }

  lemma AllocKeepsPartition(tx: Txn, tx': Txn, oldest: Txnid, step: TxnStep)
    requires TxnOk(tx) && TxnNext(tx, tx', oldest, step)
    requires step.AllocLoose? || step.AllocHead? || step.AllocNew? || step.Edit?
    ensures TxnOk(tx')
  {
    if step.AllocNew? {
      Extend(tx.next, |step.cs|);
    }
  }

  lemma FreeKeepsPartition(tx: Txn, tx': Txn, oldest: Txnid, step: TxnStep)
    requires TxnOk(tx) && TxnNext(tx, tx', oldest, step)
    requires step.Free? || step.Loosen? || step.FreeToHead? || step.LooseToFreed? || step.LooseToHead?
    ensures TxnOk(tx')
  {
  }

  /** Every private step keeps the five-way partition. */
  lemma TxnKeepsPartition(tx: Txn, tx': Txn, oldest: Txnid, step: TxnStep)
    requires TxnOk(tx) && TxnNext(tx, tx', oldest, step) && oldest <= tx.base.txnid
    ensures TxnOk(tx')
  {
    match step
    case Consume(key) => ConsumeKeepsPartition(tx, tx', oldest, key);
    case AllocLoose(_, _) => AllocKeepsPartition(tx, tx', oldest, step);
    case AllocHead(_, _) => AllocKeepsPartition(tx, tx', oldest, step);
    case AllocNew(_) => AllocKeepsPartition(tx, tx', oldest, step);
    case Edit(_, _) => AllocKeepsPartition(tx, tx', oldest, step);
    case _ => FreeKeepsPartition(tx, tx', oldest, step);
  }

  /** A private step takes pages only from records that spare the snapshot, or from beyond it. */
  lemma TxnKeepsAvoiding(tx: Txn, tx': Txn, oldest: Txnid, step: TxnStep, kept: Snapshot)
    requires TxnOk(tx) && TxnNext(tx, tx', oldest, step)
    requires Avoids(tx, kept) && Spares(tx.base, oldest, kept)
    ensures Avoids(tx', kept)
  {
    match step
    case AllocNew(cs) =>
      Extend(tx.base.next, tx.next - tx.base.next);
      Extend(tx.next, |cs|);
    case _ =>
  }

  lemma ListedParts(tx: Txn, fill: map<Txnid, set<Pgno>>)
    requires TxnOk(tx) && Fills(tx, fill)
    ensures Listed(SavedFree(tx, fill), 0) == Pending(tx) + Head(tx) + tx.freed
  {
    var free := SavedFree(tx, fill);
    forall p | p in Pending(tx) + Head(tx) + tx.freed
      ensures p in Listed(free, 0)
    {
      if p in Head(tx) {
        var k :| k in fill && p in fill[k];
        assert free[k] == fill[k];
      } else if p in tx.freed {
        assert free[tx.txnid] == tx.freed;
      } else {
        var k :| k in tx.base.free && tx.last < k && p in tx.base.free[k];
        assert free[k] == tx.base.free[k];
      }
    }
  }

  lemma RecordOrigins(tx: Txn, fill: map<Txnid, set<Pgno>>, k: Txnid)
    requires TxnOk(tx) && Fills(tx, fill)
    requires k in SavedFree(tx, fill)
    ensures var r := SavedFree(tx, fill)[k];
            if k == tx.txnid then r == tx.freed
            else if k in fill then k <= tx.last && r == fill[k] <= Head(tx)
            else tx.last < k && k in tx.base.free && r == tx.base.free[k] <= Pending(tx)
  {
  }

  lemma RecordsStayDisjoint(tx: Txn, fill: map<Txnid, set<Pgno>>)
    requires TxnOk(tx) && Fills(tx, fill)
    ensures RecordsDisjoint(SavedFree(tx, fill))
  {
    var free := SavedFree(tx, fill);
    forall k, j | k in free && j in free && k != j
      ensures free[k] !! free[j]
    {
      RecordOrigins(tx, fill, k);
      RecordOrigins(tx, fill, j);
    }
  }

  /** What SaveFreelist publishes is a conserved snapshot. */
  lemma SaveConserves(tx: Txn, fill: map<Txnid, set<Pgno>>)
    requires TxnOk(tx) && tx.loose == {} && Fills(tx, fill)
    ensures SavedOk(tx, Snapshot(tx.txnid, tx.next, NewPages(tx), SavedFree(tx, fill)))
  {
    var m := Snapshot(tx.txnid, tx.next, NewPages(tx), SavedFree(tx, fill));
    assert m.pages.Keys == tx.used;
    ListedParts(tx, fill);
    RecordsStayDisjoint(tx, fill);
    forall k | k in m.free
      ensures 1 <= k <= m.txnid
      ensures k < tx.txnid ==>
        if k in tx.base.free && tx.last < k then m.free[k] == tx.base.free[k] else m.free[k] <= Head(tx)
    {
      RecordOrigins(tx, fill, k);
    }
  }

  // ---------------------------------------------------------------- readers

  /** Which of the two committed snapshots a pinned reader is about to copy. */
  lemma CopiedMeta(s: State, t: Txnid)
    requires Inv(s) && t <= s.mti
    ensures var m := s.metas[t % 2];
            && (m == Last(s) || m == Previous(s))
            && t <= m.txnid <= |s.log| - 1 && m == s.log[m.txnid]
            && m.next <= Last(s).next
            && Spares(Last(s), t, m)
            && OnDisk(m, s.disk)
  {
    var n := |s.log| - 1;
    assert s.metas[n % 2] == s.log[n] && s.metas[(n + 1) % 2] == Previous(s);
    if t % 2 == n % 2 {
      forall k | k in Last(s).free
        ensures Last(s).free[k] !! Last(s).pages.Keys
      {
        assert Last(s).free[k] <= Listed(Last(s).free, 0);
      }
    }
  }

  ghost predicate IsReaderStep(step: Step) {
    || step.ClaimReset? || step.ClaimCount? || step.ClaimPid? || step.Load? || step.Store?
    || step.Recheck? || step.CopyMeta? || step.EndRead? || step.ReaderDies? || step.ClearSlot?
  }

  /** What a reader step may do to one slot. */
  ghost predicate SlotChange(s: State, i: nat, r': Reader)
    requires i < |s.readers| && |s.metas| == 2 && |s.log| >= 1
  {
    var r := s.readers[i];
    && ReaderOk(s, i, r')
    && (Pinned(r') ==> (Pinned(r) && r.pc.t == r'.pc.t) || r'.pc.t == s.mti)
    && (r'.pc.Active? ==> (r.pc == r'.pc) || r'.pc.snap == Last(s) || r'.pc.snap == Previous(s))
  }

  lemma SlotChangeKeepsInv(s: State, s': State, i: nat, r': Reader)
    requires Inv(s) && ReaderNext(s, s', i, r') && SlotChange(s, i, r')
    ensures Inv(s')
  {
    assert s'.readers == s.readers[i := r'];
    assert ReadersOk(s') by {
      forall j | 0 <= j < |s'.readers|
        ensures ReaderOk(s', j, s'.readers[j])
      {
        assert ReaderOk(s, j, s'.readers[j]);
      }
    }
    if Uncommitted(s.writer) {
      assert TxnShields(s.writer.txn, s.readers, s.log);
      forall j | 0 <= j < |s'.readers| && s'.readers[j].pc.Active?
        ensures Avoids(s'.writer.txn, s'.readers[j].pc.snap)
      {
        assert j != i ==> s'.readers[j] == s.readers[j];
      }
      assert TxnShields(s'.writer.txn, s'.readers, s'.log);
    }
  }

  /** Every reader step but one is a harmless change of one slot. */
  lemma ReaderStepChangesSlot(s: State, s': State, step: Step) returns (r': Reader)
    requires Inv(s) && Next(s, s', step) && IsReaderStep(step) && !step.ClaimCount?
    ensures ReaderNext(s, s', step.i, r') && SlotChange(s, step.i, r')
  {
    var r := s.readers[step.i];
    r' := s'.readers[step.i];
    assert ReaderOk(s, step.i, r);
    if step.CopyMeta? {
      CopiedMeta(s, r.pc.t);
    }
  }

  lemma ClaimCountKeepsInv(s: State, s': State, i: nat)
    requires Inv(s) && DoClaimCount(s, s', i)
    ensures Inv(s')
  {
    forall j | 0 <= j < |s'.readers|
      ensures ReaderOk(s', j, s'.readers[j])
    {
      assert ReaderOk(s, j, s.readers[j]);
    }
  }

  // ---------------------------------------------------------------- the writer

  /** A snapshot some meta page or live reader refers to. */
  ghost predicate Protected(s: State, m: Snapshot)
    requires |s.log| >= 1
  {
    || m == Last(s)
    || m == Previous(s)
    || exists i :: 0 <= i < |s.readers| && s.readers[i].pc.Active? && s.readers[i].pc.snap == m
  }

  ghost predicate Intact(s: State, disk: map<Pgno, Content>)
    requires |s.log| >= 1
  {
    forall m :: Protected(s, m) ==> OnDisk(m, disk)
  }

  lemma ProtectedIsOnDisk(s: State)
    requires Inv(s)
    ensures Intact(s, s.disk)
  {
    forall m | Protected(s, m)
      ensures OnDisk(m, s.disk)
    {
      if m != Last(s) && m != Previous(s) {
        var i :| 0 <= i < |s.readers| && s.readers[i].pc.Active? && s.readers[i].pc.snap == m;
        assert ReaderOk(s, i, s.readers[i]);
      }
    }
  }

  ghost predicate OldestOk(s: State, oldest: map<nat, Txnid>) {
    forall q :: q in oldest ==>
      && oldest[q] <= s.mti
      && forall i :: 0 <= i < |s.readers| && Pinned(s.readers[i]) ==> oldest[q] <= s.readers[i].pc.t
  }

  /** Steps that leave the log, the readers and protected pages alone keep what is said of them. */
  lemma FrameInv(s: State, s': State)
    requires Inv(s)
    requires s'.readers == s.readers && s'.numReaders == s.numReaders
    requires s'.log == s.log && s'.metas == s.metas
    requires s.mti <= s'.mti
    requires s'.oldest == s.oldest || OldestOk(s', s'.oldest)
    requires Intact(s, s'.disk)
    ensures MetasOk(s'.metas, s'.log, s'.disk) && ReadersOk(s')
    ensures forall q :: q in s'.oldest ==> s'.oldest[q] <= s'.mti
  {
    assert Protected(s, Last(s)) && Protected(s, Previous(s));
    forall i | 0 <= i < |s'.readers|
      ensures ReaderOk(s', i, s'.readers[i])
    {
      assert ReaderOk(s, i, s.readers[i]);
      if s.readers[i].pc.Active? {
        assert Protected(s, s.readers[i].pc.snap);
      }
    }
  }

  /** A snapshot that a new transaction starts from is shielded, as are all older ones. */
  lemma BeginAvoids(s: State, tx: Txn, kept: Snapshot)
    requires Inv(s) && s.mti == |s.log| - 1 && tx == FreshTxn(s.mti, Last(s))
    requires Conserved(kept) && kept.next <= Last(s).next
    ensures TxnOk(tx) && Avoids(tx, kept)
  {
    Extend(kept.next, Last(s).next - kept.next);
  }

  lemma BeginKeepsInv(s: State, s': State)
    requires Inv(s) && DoBegin(s, s')
    ensures Inv(s')
  {
    ProtectedIsOnDisk(s);
    FrameInv(s, s');
    var tx := s'.writer.txn;
    assert s.metas[s.mti % 2] == Last(s);
    BeginAvoids(s, tx, Last(s));
    BeginAvoids(s, tx, Previous(s));
    forall i | 0 <= i < |s.readers| && s.readers[i].pc.Active?
      ensures Avoids(tx, s.readers[i].pc.snap)
    {
      assert ReaderOk(s, i, s.readers[i]);
      BeginAvoids(s, tx, s.readers[i].pc.snap);
    }
  }

  /** mdb_env_pick_meta finds the last committed snapshot. */
  lemma PicksLast(s: State)
    requires MetasOk(s.metas, s.log, s.disk)
    ensures PickMeta(s.metas) == Last(s)
  {
    var n := |s.log| - 1;
    assert s.metas[n % 2] == s.log[n] && s.metas[(n + 1) % 2] == Previous(s);
  }

  /** Steps that only end a transaction or move the lock. */
  lemma HandOverKeepsInv(s: State, s': State)
    requires Inv(s) && (s' == s.(mti := s'.mti, writer := s'.writer))
    requires s.mti <= s'.mti
    requires !s'.writer.Writing? && WriterOk(s')
    ensures Inv(s')
  {
    ProtectedIsOnDisk(s);
    FrameInv(s, s');
  }

  /** What a scan step must keep to bring the whole invariant with it. */
  lemma ScanFrame(s: State, s': State)
    requires Inv(s) && s.writer.Writing? && s.writer.phase == Running
    requires s'.writer.Writing?
    requires s' == s.(oldest := s'.oldest, writer := s.writer.(scan := s'.writer.scan))
    requires s'.oldest == s.oldest || OldestOk(s', s'.oldest)
    requires ScanOk(s')
    ensures Inv(s')
  {
    ProtectedIsOnDisk(s);
    FrameInv(s, s');
  }

  /** Skipping a free slot, or taking the minimum with a slot's mark, misses no pinned reader. */
  lemma ScannedSlot(s: State, k: nat, low: Txnid, low': Txnid)
    requires |s.log| >= 1 && ReadersOk(s) && 0 < k <= |s.readers|
    requires forall i :: 0 <= i < |s.readers| && Pinned(s.readers[i]) ==> i < k || low <= s.readers[i].pc.t
    requires low' <= low
    requires s.readers[k - 1].pid != 0 ==> (s.readers[k - 1].mark.Some? ==> low' <= s.readers[k - 1].mark.value)
    ensures forall i :: 0 <= i < |s.readers| && Pinned(s.readers[i]) ==> i < k - 1 || low' <= s.readers[i].pc.t
  {
    assert ReaderOk(s, k - 1, s.readers[k - 1]);
  }

  lemma ScanStartKeepsInv(s: State, s': State)
    requires Inv(s) && DoScanStart(s, s')
    ensures Inv(s')
  {
    forall i | 0 <= i < |s.readers| && Pinned(s.readers[i])
      ensures i < s.numReaders
    {
      assert ReaderOk(s, i, s.readers[i]);
    }
    ScanFrame(s, s');
  }

  lemma ScanEndKeepsInv(s: State, s': State)
    requires Inv(s) && DoScanPid(s, s') && s.writer.scan.left == 0
    ensures Inv(s')
  {
    forall q, i | q in s'.oldest && 0 <= i < |s.readers| && Pinned(s.readers[i])
      ensures s'.oldest[q] <= s.readers[i].pc.t
    {
      assert ReaderOk(s, i, s.readers[i]);
    }
    ScanFrame(s, s');
  }

  lemma ScanPidKeepsInv(s: State, s': State)
    requires Inv(s) && DoScanPid(s, s') && s.writer.scan.left > 0
    ensures Inv(s')
  {
    var k, low := s.writer.scan.left, s.writer.scan.low;
    if s.readers[k - 1].pid == 0 {
      ScannedSlot(s, k, low, low);
    }
    ScanFrame(s, s');
  }

  lemma ScanMarkKeepsInv(s: State, s': State)
    requires Inv(s) && DoScanMark(s, s')
    ensures Inv(s')
  {
    ScannedSlot(s, s.writer.scan.left, s.writer.scan.low, s'.writer.scan.low);
    ScanFrame(s, s');
  }

  lemma SparesLess(m: Snapshot, low: Txnid, bound: Txnid, kept: Snapshot)
    requires Spares(m, bound, kept) && low <= bound
    ensures Spares(m, low, kept)
  {
  }

  /** No record of a snapshot lists a page that the snapshot uses. */
  lemma SparesItself(m: Snapshot, bound: Txnid)
    requires Conserved(m)
    ensures Spares(m, bound, m)
  {
    forall k | k in m.free
      ensures m.free[k] !! m.pages.Keys
    {
      assert m.free[k] <= Listed(m.free, 0);
    }
  }

  lemma OldestKnown(s: State, proc: nat)
    requires Inv(s) && s.writer.Writing? && s.writer.phase.Running?
    ensures |s.log| >= 1 && CachedOldest(s, proc) <= s.mti == |s.log| - 1
    ensures Conserved(Last(s)) && Spares(Last(s), s.mti, Previous(s)) && TxnShields(s.writer.txn, s.readers, s.log)
  {
    hide Conserved, Spares, OnDisk, ReadersOk, ScanOk, TxnOk, TxnShields;
  }

  lemma ReaderSpared(s: State, proc: nat, i: nat)
    requires Inv(s) && i < |s.readers| && s.readers[i].pc.Active?
    ensures |s.log| >= 1 && CachedOldest(s, proc) <= s.readers[i].pc.t
    ensures Spares(Last(s), s.readers[i].pc.t, s.readers[i].pc.snap)
  {
    hide MetasOk, ScanOk, WriterOk, Spares, OnDisk;
    MetasLog(s);
    assert ReaderOk(s, i, s.readers[i]);
  }

  lemma MetasLog(s: State)
    requires MetasOk(s.metas, s.log, s.disk)
    ensures |s.log| >= 1
  {
  }

  /** The rule "only records older than the oldest reader" shields every protected snapshot. */
  lemma OldRecordsSpare(s: State, proc: nat, kept: Snapshot)
    requires Inv(s) && s.writer.Writing? && s.writer.phase.Running? && Protected(s, kept)
    ensures Spares(Last(s), CachedOldest(s, proc), kept)
    ensures Avoids(s.writer.txn, kept)
  {
    OldestKnown(s, proc);
    hide Inv, Conserved, Spares, Avoids, CachedOldest;
    if kept == Last(s) {
      SparesItself(kept, CachedOldest(s, proc));
    } else if kept == Previous(s) {
      SparesLess(Last(s), CachedOldest(s, proc), s.mti, kept);
    } else {
      var i :| 0 <= i < |s.readers| && s.readers[i].pc.Active? && s.readers[i].pc.snap == kept;
      ReaderSpared(s, proc, i);
      SparesLess(Last(s), CachedOldest(s, proc), s.readers[i].pc.t, kept);
    }
  }

  lemma PrivateAvoids(s: State, s': State, step: TxnStep, kept: Snapshot)
    requires Inv(s) && DoPrivate(s, s', step) && Protected(s, kept)
    ensures Avoids(s'.writer.txn, kept)
  {
    OldRecordsSpare(s, s.writer.proc, kept);
    var oldest := CachedOldest(s, s.writer.proc);
    TxnKeepsAvoiding(s.writer.txn, s'.writer.txn, oldest, step, kept);
  }

  lemma PrivateKeepsTxn(s: State, s': State, step: TxnStep)
    requires Inv(s) && DoPrivate(s, s', step)
    ensures TxnOk(s'.writer.txn) && s'.writer.txn.base == s.writer.txn.base
  {
    var oldest := CachedOldest(s, s.writer.proc);
    TxnKeepsPartition(s.writer.txn, s'.writer.txn, oldest, step);
  }

  lemma PrivateKeepsInv(s: State, s': State, step: TxnStep)
    requires Inv(s) && DoPrivate(s, s', step)
    ensures Inv(s')
  {
    ProtectedIsOnDisk(s);
    FrameInv(s, s');
    PrivateKeepsTxn(s, s', step);
    PrivateAvoids(s, s', step, Last(s));
    PrivateAvoids(s, s', step, Previous(s));
    forall i | 0 <= i < |s.readers| && s.readers[i].pc.Active?
      ensures Avoids(s'.writer.txn, s.readers[i].pc.snap)
    {
      PrivateAvoids(s, s', step, s.readers[i].pc.snap);
    }
  }

  lemma WriteBackIsSafe(s: State, disk: map<Pgno, Content>)
    requires Inv(s) && Uncommitted(s.writer)
    requires forall p :: p in s.disk && p !in s.writer.txn.mem ==> p in disk && disk[p] == s.disk[p]
    ensures Intact(s, disk)
  {
    ProtectedIsOnDisk(s);
    forall m | Protected(s, m)
      ensures OnDisk(m, disk)
    {
      assert Avoids(s.writer.txn, m);
    }
  }

  lemma WriteBackKeepsInv(s: State, s': State, p: Pgno)
    requires Inv(s) && DoWriteBack(s, s', p)
    ensures Inv(s')
  {
    var tx := s.writer.txn;
    assert s'.disk == s.disk[p := tx.mem[p]];
    WriteBackIsSafe(s, s'.disk);
    FrameInv(s, s');
    if s.writer.phase.Flushed? {
      assert SavedOk(tx, s.writer.phase.snap);
      assert OnDisk(s.writer.phase.snap, s'.disk);
    }
    assert WriterOk(s') by {
      assert s'.writer == s.writer;
    }
  }

  lemma SaveKeepsInv(s: State, s': State, fill: map<Txnid, set<Pgno>>)
    requires Inv(s) && DoSaveFreelist(s, s', fill)
    ensures Inv(s')
  {
    ProtectedIsOnDisk(s);
    FrameInv(s, s');
    SaveConserves(s.writer.txn, fill);
  }

  lemma FlushKeepsInv(s: State, s': State)
    requires Inv(s) && DoFlushDone(s, s')
    ensures Inv(s')
  {
    ProtectedIsOnDisk(s);
    FrameInv(s, s');
  }

  // ---------------------------------------------------------------- commit

  /** The saved freeDB spares whatever the transaction avoided and its base spared. */
  lemma SavedSpares(tx: Txn, m: Snapshot, bound: Txnid, kept: Snapshot)
    requires SavedOk(tx, m) && Avoids(tx, kept)
    requires bound <= tx.txnid && Spares(tx.base, bound, kept)
    ensures Spares(m, bound, kept)
  {
  }

  lemma WriteMetaKeepsMetas(s: State, s': State)
    requires Inv(s) && DoWriteMeta(s, s')
    ensures MetasOk(s'.metas, s'.log, s'.disk) && Last(s') == s.writer.phase.snap && Previous(s') == Last(s)
  {
    var tx, m := s.writer.txn, s.writer.phase.snap;
    var n := |s.log| - 1;
    forall k | k in Last(s).free
      ensures Last(s).free[k] !! Last(s).pages.Keys
    {
      assert Last(s).free[k] <= Listed(Last(s).free, 0);
    }
    SavedSpares(tx, m, n + 1, Last(s));
    forall k | 0 <= k <= n + 1
      ensures s'.log[k].txnid == k && Conserved(s'.log[k])
    {
      assert k <= n ==> s'.log[k] == s.log[k];
    }
    assert s.metas[n % 2] == s.log[n];
    assert m.txnid == n + 1;
    assert s'.metas[(n + 1) % 2] == m;
    assert s'.metas[n % 2] == s.metas[n % 2];
    assert (n + 2) % 2 == n % 2;
  }

  lemma WriteMetaKeepsInv(s: State, s': State)
    requires Inv(s) && DoWriteMeta(s, s')
    ensures Inv(s')
  {
    WriteMetaKeepsMetas(s, s');
    var tx, m := s.writer.txn, s.writer.phase.snap;
    forall i | 0 <= i < |s'.readers|
      ensures ReaderOk(s', i, s'.readers[i])
    {
      var r := s.readers[i];
      assert ReaderOk(s, i, r);
      if r.pc.Active? {
        SavedSpares(tx, m, r.pc.t, r.pc.snap);
        assert s'.log[r.pc.snap.txnid] == s.log[r.pc.snap.txnid];
      }
    }
    assert ScanOk(s');
  }

  lemma PublishKeepsInv(s: State, s': State)
    requires Inv(s) && DoPublish(s, s')
    ensures Inv(s')
  {
    ProtectedIsOnDisk(s);
    FrameInv(s, s');
  }

  lemma CrashKeepsInv(s: State, s': State, disk: map<Pgno, Content>)
    requires Inv(s) && DoCrash(s, s', disk)
    ensures Inv(s') && Last(s') == Last(s) && OnDisk(Last(s), s'.disk)
  {
    PicksLast(s);
    ProtectedIsOnDisk(s);
    assert OnDisk(Last(s), disk) && OnDisk(Previous(s), disk) by {
      if s.writer.Writing? && (s.writer.phase.Running? || s.writer.phase.Saved?) {
        WriteBackIsSafe(s, disk);
        assert Protected(s, Last(s)) && Protected(s, Previous(s));
      }
    }
    forall i | 0 <= i < |s'.readers|
      ensures ReaderOk(s', i, s'.readers[i])
    {
      assert s'.readers[i] == Reader(0, None, Idle);
    }
  }

  // ---------------------------------------------------------------- runs

  lemma InitHolds(s: State)
    requires Init(s)
    ensures Inv(s)
  {
    var m := Snapshot(0, 2, map[], map[]);
    assert Listed(m.free, 0) == {} && Below(2) == {};
    forall i | 0 <= i < |s.readers|
      ensures ReaderOk(s, i, s.readers[i])
    {
      assert s.readers[i] == Reader(0, None, Idle);
    }
  }

  ghost predicate IsLockStep(step: Step) {
    step.Lock? || step.Recover? || step.Finish? || step.Abort? || step.WriterDies?
  }

  lemma LockStepKeepsInv(s: State, s': State, step: Step)
    requires Inv(s) && Next(s, s', step) && IsLockStep(step)
    ensures Inv(s')
  {
    PicksLast(s);
    HandOverKeepsInv(s, s');
  }

  /** Every step keeps the invariant. */
  lemma NextKeepsInv(s: State, s': State, step: Step)
    requires Inv(s) && Next(s, s', step)
    ensures Inv(s')
  {
    if step.ClaimCount? {
      ClaimCountKeepsInv(s, s', step.i);
    } else if IsReaderStep(step) {
      var r' := ReaderStepChangesSlot(s, s', step);
      SlotChangeKeepsInv(s, s', step.i, r');
    } else if IsLockStep(step) {
      LockStepKeepsInv(s, s', step);
    } else {
      WriterKeepsInv(s, s', step);
    }
  }

  lemma WriterKeepsInv(s: State, s': State, step: Step)
    requires Inv(s) && Next(s, s', step) && !IsReaderStep(step)
    requires !IsLockStep(step)
    ensures Inv(s')
  {
    match step
    case Begin => BeginKeepsInv(s, s');
    case ScanStart => ScanStartKeepsInv(s, s');
    case ScanPid =>
      if s.writer.scan.left == 0 {
        ScanEndKeepsInv(s, s');
      } else {
        ScanPidKeepsInv(s, s');
      }
    case ScanMark => ScanMarkKeepsInv(s, s');
    case Private(t) => PrivateKeepsInv(s, s', t);
    case WriteBack(p) => WriteBackKeepsInv(s, s', p);
    case SaveFreelist(fill) => SaveKeepsInv(s, s', fill);
    case FlushDone => FlushKeepsInv(s, s');
    case WriteMeta => WriteMetaKeepsInv(s, s');
    case Publish => PublishKeepsInv(s, s');
    case Crash(disk) => CrashKeepsInv(s, s', disk);
  }

  /** A run: any interleaving of the steps of all threads, deaths and crashes. */
  ghost predicate IsRun(run: seq<State>, steps: seq<Step>) {
    && |run| == |steps| + 1
    && Init(run[0])
    && forall k :: 0 <= k < |steps| ==> StepAt(run, steps, k)
  }

  ghost predicate StepAt(run: seq<State>, steps: seq<Step>, k: nat)
    requires |run| == |steps| + 1 && k < |steps|
  {
    |run[k].metas| == 2 && Next(run[k], run[k + 1], steps[k])
  }

  lemma {:induction false} RunKeepsInv(run: seq<State>, steps: seq<Step>, k: nat)
    requires IsRun(run, steps) && k < |run|
    ensures Inv(run[k])
  {
    if k == 0 {
      InitHolds(run[0]);
    } else {
      RunKeepsInv(run, steps, k - 1);
      assert StepAt(run, steps, k - 1);
      NextKeepsInv(run[k - 1], run[k], steps[k - 1]);
    }
  }
}
