/**
 The multi-version protocol of an LMDB environment, as a state machine: readers that take no
 lock on the data, one writer at a time, and the rule that lets the writer reuse the pages
 which older transactions freed.

 Every load and store of a shared word is one step, and steps of different threads interleave
 freely. A reader may stall between any two of its steps; the writer scans the reader table
 one word at a time; processes may die and the whole system may crash at any point.
 */
module Mvcc {
  import opened Base

  // ---------------------------------------------------------------- state

  /** What a meta page names: a root, seen as the pages reachable from it, and the freeDB. */
  datatype Snapshot = Snapshot(
    txnid: Txnid,
    next: Pgno,                        // mm_last_pg + 1
    pages: map<Pgno, Content>,         // pages of all trees, overflow pages included
    free: map<Txnid, set<Pgno>>)       // freeDB records

  /** Where a reader thread is inside mdb_txn_renew0. */
  datatype ReaderPc =
    | Idle                             // no read transaction
    | Loaded(t: Txnid)                 // read mti_txnid, slot not yet written
    | Stored(t: Txnid)                 // slot written, not yet rechecked
    | Checked(t: Txnid)                // recheck succeeded, meta page not yet copied
    | Active(t: Txnid, snap: Snapshot) // running on its copy of a meta page
    | Gone                             // the thread or its process has died

  /** One slot of the reader table (mr_pid, mr_txnid) and the thread that owns it. */
  datatype Reader = Reader(pid: nat, mark: Option<Txnid>, pc: ReaderPc)

  /** Progress of mdb_find_oldest: `left` slots still to look at, minimum so far. */
  datatype Scan =
    | NotScanning
    | AtPid(left: nat, low: Txnid)
    | AtMark(left: nat, low: Txnid)

  datatype Phase = Running | Saved(snap: Snapshot) | Flushed(snap: Snapshot) | MetaWritten | Published

  /** A top-level write transaction. */
  datatype Txn = Txn(
    txnid: Txnid,
    base: Snapshot,                    // the meta page copied at begin
    next: Pgno,                        // mt_next_pgno
    mem: map<Pgno, Content>,           // pages this transaction allocated, with their newest contents
    used: set<Pgno>,                   // pages of its trees
    freed: set<Pgno>,                  // mt_free_pgs
    loose: set<Pgno>,                  // mt_loose_pgs
    head: Option<set<Pgno>>,           // me_pghead, None for NULL
    last: Txnid)                       // me_pglast

  datatype Writer =
    | Unlocked
    | Locked(proc: nat)
    | Writing(proc: nat, txn: Txn, scan: Scan, phase: Phase)
    | OwnerDead(proc: nat)             // the mutex owner died

  datatype State = State(
    disk: map<Pgno, Content>,
    metas: seq<Snapshot>,
    mti: Txnid,                        // mti_txnid
    readers: seq<Reader>,
    numReaders: nat,                   // mti_numreaders
    oldest: map<nat, Txnid>,           // me_pgoldest of each process
    writer: Writer,
    log: seq<Snapshot>)                // history: every snapshot ever committed

  // ---------------------------------------------------------------- small operations

  /** mdb_env_pick_meta. */
  function PickMeta(metas: seq<Snapshot>): Snapshot
    requires |metas| == 2
  {
    if metas[0].txnid < metas[1].txnid then metas[1] else metas[0]
  }

  function Head(tx: Txn): set<Pgno> {
    if tx.head.Some? then tx.head.value else {}
  }

  predicate InRun(p: Pgno, start: Pgno, num: nat) {
    start <= p < start + num
  }

  function Run(start: Pgno, num: nat): set<Pgno> {
    set p | start <= p < start + num && InRun(p, start, num)
  }

  /** The smallest freeDB key after `last`. */
  ghost predicate NextRecord(free: map<Txnid, set<Pgno>>, last: Txnid, key: Txnid) {
    && key in free
    && last < key
    && forall k :: k in free && last < k ==> key <= k
  }

  /** The pages and contents a transaction would publish. */
  function NewPages(tx: Txn): map<Pgno, Content>
    requires tx.used <= tx.base.pages.Keys + tx.mem.Keys
  {
    map p | p in tx.used :: if p in tx.mem then tx.mem[p] else tx.base.pages[p]
  }

  /** The freeDB mdb_freelist_save leaves: untouched records, refilled ones and its own. */
  function SavedFree(tx: Txn, fill: map<Txnid, set<Pgno>>): map<Txnid, set<Pgno>> {
    (map k | k in tx.base.free && tx.last < k :: tx.base.free[k])
    + fill
    + (if tx.freed == {} then map[] else map[tx.txnid := tx.freed])
  }

  /** mdb_freelist_save puts every page of me_pghead into exactly one record with key 1..me_pglast. */
  ghost predicate Fills(tx: Txn, fill: map<Txnid, set<Pgno>>) {
    && (forall k :: k in fill ==> 1 <= k <= tx.last)
    && (forall k, p :: k in fill && p in fill[k] ==> p in Head(tx))
    && (forall k, j, p :: k in fill && j in fill && p in fill[k] && p in fill[j] ==> k == j)
    && (forall p :: p in Head(tx) ==> exists k :: k in fill && p in fill[k])
  }

  // ---------------------------------------------------------------- steps

  /** Steps inside a write transaction that touch only its private state. */
  datatype TxnStep =
    | Consume(key: Txnid)
    | AllocLoose(p: Pgno, c: Content)
    | AllocHead(start: Pgno, cs: seq<Content>)
    | AllocNew(cs: seq<Content>)
    | Edit(p: Pgno, c: Content)
    | Free(p: Pgno)
    | Loosen(p: Pgno)
    | FreeToHead(start: Pgno, num: nat)
    | LooseToFreed
    | LooseToHead

  function WithRun(mem: map<Pgno, Content>, start: Pgno, cs: seq<Content>): map<Pgno, Content> {
    mem + (map p | p in Run(start, |cs|) :: cs[p - start])
  }

  ghost predicate TxnNext(tx: Txn, tx': Txn, oldest: Txnid, step: TxnStep) {
    match step
    case Consume(key) =>
      // mdb_page_alloc: the next record, unless it is too recent
      && NextRecord(tx.base.free, tx.last, key)
      && key < oldest
      && tx' == tx.(head := Some(Head(tx) + tx.base.free[key]), last := key)
    case AllocLoose(p, c) =>
      && p in tx.loose
      && tx' == tx.(loose := tx.loose - {p}, used := tx.used + {p}, mem := tx.mem[p := c])
    case AllocHead(start, cs) =>
      && |cs| >= 1 && tx.head.Some?
      && Run(start, |cs|) <= Head(tx)
      && tx' == tx.(head := Some(Head(tx) - Run(start, |cs|)), used := tx.used + Run(start, |cs|),
                    mem := WithRun(tx.mem, start, cs))
    case AllocNew(cs) =>
      && |cs| >= 1
      && tx' == tx.(next := tx.next + |cs|, used := tx.used + Run(tx.next, |cs|),
                    mem := WithRun(tx.mem, tx.next, cs))
    case Edit(p, c) =>
      && p in tx.used && p in tx.mem
      && tx' == tx.(mem := tx.mem[p := c])
    case Free(p) =>
      // mdb_page_touch, mdb_page_loose and mdb_ovpage_free append to mt_free_pgs
      && p in tx.used
      && tx' == tx.(used := tx.used - {p}, freed := tx.freed + {p})
    case Loosen(p) =>
      && p in tx.used && p in tx.mem
      && tx' == tx.(used := tx.used - {p}, loose := tx.loose + {p})
    case FreeToHead(start, num) =>
      // mdb_ovpage_free of pages allocated here, when me_pghead exists
      && tx.head.Some?
      && Run(start, num) <= tx.used * tx.mem.Keys
      && tx' == tx.(used := tx.used - Run(start, num), head := Some(Head(tx) + Run(start, num)))
    case LooseToFreed =>
      && tx.head.None?
      && tx' == tx.(loose := {}, freed := tx.freed + tx.loose)
    case LooseToHead =>
      && tx.head.Some?
      && tx' == tx.(loose := {}, head := Some(Head(tx) + tx.loose))
  }

  datatype Step =
    // readers
    | ClaimReset(i: nat) | ClaimCount(i: nat) | ClaimPid(i: nat, pid: nat)
    | Load(i: nat) | Store(i: nat) | Recheck(i: nat) | CopyMeta(i: nat)
    | EndRead(i: nat) | ReaderDies(i: nat) | ClearSlot(i: nat)
    // the writer
    | Lock(proc: nat) | Recover(proc: nat) | Begin
    | ScanStart | ScanPid | ScanMark
    | Private(step: TxnStep)
    | WriteBack(p: Pgno)
    | SaveFreelist(fill: map<Txnid, set<Pgno>>) | FlushDone | WriteMeta | Publish | Finish
    | Abort | WriterDies
    | Crash(disk: map<Pgno, Content>)

  ghost predicate ReaderNext(s: State, s': State, i: nat, r': Reader) {
    && i < |s.readers|
    && s' == s.(readers := s.readers[i := r'])
  }

  // A slot is claimed under the reader mutex: reset it, publish it in mti_numreaders, take it.

  ghost predicate DoClaimReset(s: State, s': State, i: nat) {
    && i < |s.readers| && i <= s.numReaders && s.readers[i].pid == 0
    && ReaderNext(s, s', i, Reader(0, None, Idle))
  }

  ghost predicate DoClaimCount(s: State, s': State, i: nat) {
    && i < |s.readers| && i == s.numReaders && s.readers[i].pid == 0
    && s' == s.(numReaders := s.numReaders + 1)
  }

  ghost predicate DoClaimPid(s: State, s': State, i: nat, pid: nat) {
    && i < |s.readers| && i < s.numReaders && pid != 0
    && s.readers[i] == Reader(0, None, Idle)
    && ReaderNext(s, s', i, s.readers[i].(pid := pid))
  }

  // mdb_txn_renew0 of a reader: load, publish, recheck, copy.

  ghost predicate DoLoad(s: State, s': State, i: nat) {
    && i < |s.readers| && i < s.numReaders && s.readers[i].pid != 0 && s.readers[i].pc == Idle
    && ReaderNext(s, s', i, s.readers[i].(pc := Loaded(s.mti)))
  }

  ghost predicate DoStore(s: State, s': State, i: nat) {
    && i < |s.readers| && s.readers[i].pc.Loaded?
    && var t := s.readers[i].pc.t;
    && ReaderNext(s, s', i, s.readers[i].(mark := Some(t), pc := Stored(t)))
  }

  ghost predicate DoRecheck(s: State, s': State, i: nat) {
    && i < |s.readers| && s.readers[i].pc.Stored?
    && ReaderNext(s, s', i, s.readers[i].(pc := if s.readers[i].pc.t == s.mti then Checked(s.mti) else Idle))
  }

  ghost predicate DoCopyMeta(s: State, s': State, i: nat)
    requires |s.metas| == 2
  {
    && i < |s.readers| && s.readers[i].pc.Checked?
    && var t := s.readers[i].pc.t;
    && ReaderNext(s, s', i, s.readers[i].(pc := Active(t, s.metas[t % 2])))
  }

  ghost predicate DoEndRead(s: State, s': State, i: nat) {
    && i < |s.readers| && s.readers[i].pc.Active?
    && ReaderNext(s, s', i, s.readers[i].(mark := None, pc := Idle))
  }

  ghost predicate DoReaderDies(s: State, s': State, i: nat) {
    && i < |s.readers| && s.readers[i].pid != 0
    && ReaderNext(s, s', i, s.readers[i].(pc := Gone))
  }

  /** mdb_reader_check0: only slots of dead processes. */
  ghost predicate DoClearSlot(s: State, s': State, i: nat) {
    && i < |s.readers| && s.readers[i].pc == Gone
    && ReaderNext(s, s', i, s.readers[i].(pid := 0))
  }

  // The writer.

  ghost predicate DoLock(s: State, s': State, proc: nat) {
    && s.writer == Unlocked
    && s' == s.(writer := Locked(proc))
  }

  /** mdb_mutex_failed: the new owner repairs mti_txnid; it may only go on in another process. */
  ghost predicate DoRecover(s: State, s': State, proc: nat)
    requires |s.metas| == 2
  {
    && s.writer.OwnerDead?
    && s' == s.(mti := PickMeta(s.metas).txnid,
                writer := if proc == s.writer.proc then Unlocked else Locked(proc))
  }

  function FreshTxn(mti: Txnid, base: Snapshot): Txn {
    Txn(mti + 1, base, base.next, map[], base.pages.Keys, {}, {}, None, 0)
  }

  ghost predicate DoBegin(s: State, s': State)
    requires |s.metas| == 2
  {
    && s.writer.Locked?
    && s' == s.(writer := Writing(s.writer.proc, FreshTxn(s.mti, s.metas[s.mti % 2]), NotScanning, Running))
  }

  ghost predicate DoScanStart(s: State, s': State) {
    && s.writer.Writing? && s.writer.phase == Running && s.writer.scan == NotScanning
    && s.writer.txn.txnid > 0
    && s' == s.(writer := s.writer.(scan := AtPid(s.numReaders, s.writer.txn.txnid - 1)))
  }

  /** Look at mr_pid of the next slot; when none is left, cache the result as me_pgoldest. */
  ghost predicate DoScanPid(s: State, s': State) {
    && s.writer.Writing? && s.writer.scan.AtPid?
    && var k, low := s.writer.scan.left, s.writer.scan.low;
    && if k == 0 then
         s' == s.(writer := s.writer.(scan := NotScanning), oldest := s.oldest[s.writer.proc := low])
       else
         && k <= |s.readers|
         && s' == s.(writer := s.writer.(scan :=
                     if s.readers[k - 1].pid != 0 then AtMark(k, low) else AtPid(k - 1, low)))
  }

  ghost predicate DoScanMark(s: State, s': State) {
    && s.writer.Writing? && s.writer.scan.AtMark?
    && var k, low := s.writer.scan.left, s.writer.scan.low;
    && 0 < k <= |s.readers|
    && var mark := s.readers[k - 1].mark;
    && s' == s.(writer := s.writer.(scan :=
                AtPid(k - 1, if mark.Some? && mark.value < low then mark.value else low)))
  }

  function CachedOldest(s: State, proc: nat): Txnid {
    if proc in s.oldest then s.oldest[proc] else 0
  }

  ghost predicate DoPrivate(s: State, s': State, step: TxnStep) {
    && s.writer.Writing? && s.writer.phase == Running && s.writer.scan == NotScanning
    && s'.writer.Writing?
    && TxnNext(s.writer.txn, s'.writer.txn, CachedOldest(s, s.writer.proc), step)
    && s' == s.(writer := s.writer.(txn := s'.writer.txn))
  }

  /** The transaction can still write pages and be abandoned. */
  predicate Uncommitted(w: Writer) {
    w.Writing? && !w.phase.MetaWritten? && !w.phase.Published?
  }

  /** A dirty page reaches the file: mdb_page_spill at any time, mdb_page_flush at commit. */
  ghost predicate DoWriteBack(s: State, s': State, p: Pgno) {
    && Uncommitted(s.writer)
    && p in s.writer.txn.mem
    && s' == s.(disk := s.disk[p := s.writer.txn.mem[p]])
  }

  ghost predicate DoSaveFreelist(s: State, s': State, fill: map<Txnid, set<Pgno>>) {
    && s.writer.Writing? && s.writer.phase == Running && s.writer.scan == NotScanning
    && var tx := s.writer.txn;
    && tx.loose == {} && Fills(tx, fill)
    && tx.used <= tx.base.pages.Keys + tx.mem.Keys
    && s' == s.(writer := s.writer.(phase :=
                Saved(Snapshot(tx.txnid, tx.next, NewPages(tx), SavedFree(tx, fill)))))
  }

  /** The data is on disk before the meta page is written. */
  ghost predicate DoFlushDone(s: State, s': State) {
    && s.writer.Writing? && s.writer.phase.Saved?
    && OnDisk(s.writer.phase.snap, s.disk)
    && s' == s.(writer := s.writer.(phase := Flushed(s.writer.phase.snap)))
  }

  ghost predicate DoWriteMeta(s: State, s': State)
    requires |s.metas| == 2
  {
    && s.writer.Writing? && s.writer.phase.Flushed?
    && var m := s.writer.phase.snap;
    && s' == s.(metas := s.metas[m.txnid % 2 := m], log := s.log + [m],
                writer := s.writer.(phase := MetaWritten))
  }

  ghost predicate DoPublish(s: State, s': State) {
    && s.writer.Writing? && s.writer.phase.MetaWritten?
    && s' == s.(mti := s.writer.txn.txnid, writer := s.writer.(phase := Published))
  }

  ghost predicate DoFinish(s: State, s': State) {
    && s.writer.Writing? && s.writer.phase.Published?
    && s' == s.(writer := Unlocked)
  }

  ghost predicate DoAbort(s: State, s': State) {
    && Uncommitted(s.writer)
    && s' == s.(writer := Unlocked)
  }

  ghost predicate DoWriterDies(s: State, s': State) {
    && (s.writer.Writing? || s.writer.Locked?)
    && s' == s.(writer := OwnerDead(s.writer.proc))
  }

  /**
   Everything in memory is lost and the environment is opened anew. Pages the writer had not
   flushed yet may hold anything.
   */
  ghost predicate DoCrash(s: State, s': State, disk: map<Pgno, Content>)
    requires |s.metas| == 2
  {
    && (forall p :: p in s.disk && p !in Unflushed(s) ==> p in disk && disk[p] == s.disk[p])
    && s' == s.(disk := disk, mti := PickMeta(s.metas).txnid, readers := Vacant(|s.readers|),
                numReaders := 0, oldest := map[], writer := Unlocked)
  }

  ghost predicate Next(s: State, s': State, step: Step)
    requires |s.metas| == 2
  {
    match step
    case ClaimReset(i) => DoClaimReset(s, s', i)
    case ClaimCount(i) => DoClaimCount(s, s', i)
    case ClaimPid(i, pid) => DoClaimPid(s, s', i, pid)
    case Load(i) => DoLoad(s, s', i)
    case Store(i) => DoStore(s, s', i)
    case Recheck(i) => DoRecheck(s, s', i)
    case CopyMeta(i) => DoCopyMeta(s, s', i)
    case EndRead(i) => DoEndRead(s, s', i)
    case ReaderDies(i) => DoReaderDies(s, s', i)
    case ClearSlot(i) => DoClearSlot(s, s', i)
    case Lock(proc) => DoLock(s, s', proc)
    case Recover(proc) => DoRecover(s, s', proc)
    case Begin => DoBegin(s, s')
    case ScanStart => DoScanStart(s, s')
    case ScanPid => DoScanPid(s, s')
    case ScanMark => DoScanMark(s, s')
    case Private(t) => DoPrivate(s, s', t)
    case WriteBack(p) => DoWriteBack(s, s', p)
    case SaveFreelist(fill) => DoSaveFreelist(s, s', fill)
    case FlushDone => DoFlushDone(s, s')
    case WriteMeta => DoWriteMeta(s, s')
    case Publish => DoPublish(s, s')
    case Finish => DoFinish(s, s')
    case Abort => DoAbort(s, s')
    case WriterDies => DoWriterDies(s, s')
    case Crash(disk) => DoCrash(s, s', disk)
  }

  ghost predicate OnDisk(m: Snapshot, disk: map<Pgno, Content>) {
    forall p :: p in m.pages ==> p in disk && disk[p] == m.pages[p]
  }

  /** Pages whose writes a crash may lose or tear. */
  ghost function Unflushed(s: State): set<Pgno> {
    if s.writer.Writing? && (s.writer.phase.Running? || s.writer.phase.Saved?)
    then s.writer.txn.mem.Keys else {}
  }

  function Vacant(n: nat): seq<Reader> {
    seq(n, i => Reader(0, None, Idle))
  }

  /** A fresh environment (mdb_env_init_meta): both meta pages name the empty snapshot 0. */
  ghost predicate Init(s: State) {
    var m := Snapshot(0, 2, map[], map[]);
    && s.metas == [m, m]
    && s.mti == 0
    && s.readers == Vacant(|s.readers|)
    && s.numReaders == 0
    && s.oldest == map[]
    && s.writer == Unlocked
    && s.log == [m]
  }
}
