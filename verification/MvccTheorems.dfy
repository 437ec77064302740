/** The guarantees of the protocol, over whole runs. */
module MvccTheorems {
  import opened Base
  import opened Mvcc
  import opened MvccSafety

  /** Reader i is running on snapshot m. */
  ghost predicate Reads(s: State, i: nat, m: Snapshot) {
    i < |s.readers| && s.readers[i].pc.Active? && s.readers[i].pc.snap == m
  }

  /** The writer could, in state s, hand out or overwrite page p. */
  ghost predicate Writable(s: State, p: Pgno) {
    && Uncommitted(s.writer)
    && (p in s.writer.txn.mem || p in s.writer.txn.loose || p in Head(s.writer.txn) || s.writer.txn.next <= p)
  }

  /**
   A live reader runs on a committed snapshot at least as new as the id in its slot, the file
   still holds every page of that snapshot, and none of them is open to the writer.
   */
  lemma LiveReadersAreSafe(run: seq<State>, steps: seq<Step>, k: nat, i: nat, m: Snapshot)
    requires IsRun(run, steps) && k < |run| && Reads(run[k], i, m)
    ensures var s := run[k];
            && s.readers[i].pc.t <= m.txnid < |s.log| && m == s.log[m.txnid]
            && OnDisk(m, s.disk)
            && forall p :: p in m.pages ==> !Writable(s, p)
  {
    RunKeepsInv(run, steps, k);
    assert ReaderOk(run[k], i, run[k].readers[i]);
    var s := run[k];
    if Uncommitted(s.writer) {
      assert Avoids(s.writer.txn, m);
    }
  }

  /** Between any two moments of a read transaction, its pages hold the same bytes. */
  lemma ReadersSeeOneVersion(run: seq<State>, steps: seq<Step>, j: nat, k: nat, i: nat, m: Snapshot, p: Pgno)
    requires IsRun(run, steps) && j <= k < |run|
    requires Reads(run[j], i, m) && Reads(run[k], i, m) && p in m.pages
    ensures p in run[j].disk && p in run[k].disk && run[j].disk[p] == run[k].disk[p]
  {
    LiveReadersAreSafe(run, steps, j, i, m);
    LiveReadersAreSafe(run, steps, k, i, m);
  }

  /** The snapshots named by the two meta pages are those of the last two commits, untouched. */
  lemma MetasStayIntact(run: seq<State>, steps: seq<Step>, k: nat)
    requires IsRun(run, steps) && k < |run|
    ensures var s := run[k];
            && |s.log| >= 1 && |s.metas| == 2
            && PickMeta(s.metas) == Last(s)
            && (Previous(s) == s.metas[0] || Previous(s) == s.metas[1])
            && OnDisk(Last(s), s.disk) && OnDisk(Previous(s), s.disk)
            && forall p :: p in Last(s).pages || p in Previous(s).pages ==> !Writable(s, p)
  {
    RunKeepsInv(run, steps, k);
    var s := run[k];
    PicksLast(s);
    assert Previous(s) == s.metas[|s.log| % 2];
    if Uncommitted(s.writer) {
      assert Avoids(s.writer.txn, Last(s)) && Avoids(s.writer.txn, Previous(s));
    }
  }

  lemma StepCommits(s: State, s': State, step: Step)
    requires Inv(s) && Next(s, s', step)
    ensures if step.WriteMeta? then s.writer.Writing? && s.writer.phase.Flushed?
                                    && s'.log == s.log + [s.writer.phase.snap]
            else s'.log == s.log
  {
  }

  /** Step j writes the meta page of snapshot m. */
  ghost predicate WritesMeta(run: seq<State>, steps: seq<Step>, j: nat, m: Snapshot)
    requires j < |steps| <= |run|
  {
    steps[j].WriteMeta? && run[j].writer.Writing? && run[j].writer.phase.Flushed? && run[j].writer.phase.snap == m
  }

  /** The last meta page written in the first k steps is m's; m is empty if none was written. */
  ghost predicate LastWritten(run: seq<State>, steps: seq<Step>, k: nat, m: Snapshot)
    requires k <= |steps| <= |run|
  {
    || (m == Snapshot(0, 2, map[], map[]) && forall i :: 0 <= i < k ==> !steps[i].WriteMeta?)
    || exists j :: 0 <= j < k && WritesMeta(run, steps, j, m) && forall i :: j < i < k ==> !steps[i].WriteMeta?
  }

  /** A commit is one step, the writing of a meta page. */
  lemma {:induction false} LastCommitIsWritten(run: seq<State>, steps: seq<Step>, k: nat)
    requires IsRun(run, steps) && k < |run|
    ensures |run[k].log| >= 1 && LastWritten(run, steps, k, Last(run[k]))
  {
    hide Inv, Next;
    RunKeepsInv(run, steps, k);
    if k > 0 {
      LastCommitIsWritten(run, steps, k - 1);
      RunKeepsInv(run, steps, k - 1);
      assert StepAt(run, steps, k - 1);
      StepCommits(run[k - 1], run[k], steps[k - 1]);
      var m := Last(run[k]);
      if steps[k - 1].WriteMeta? {
        assert WritesMeta(run, steps, k - 1, m);
      } else if !(forall i :: 0 <= i < k - 1 ==> !steps[i].WriteMeta?) {
        var j :| 0 <= j < k - 1 && WritesMeta(run, steps, j, m) && forall i :: j < i < k - 1 ==> !steps[i].WriteMeta?;
        assert forall i :: j < i < k ==> !steps[i].WriteMeta?;
      }
    }
    LogIsThere(run[k]);
  }

  lemma LogIsThere(s: State)
    requires Inv(s)
    ensures |s.log| >= 1
  {
  }

  /**
   A crash at any step recovers exactly the last commit, which is the snapshot whose meta page was
   written last, with all its pages in the file.
   */
  lemma CrashRecoversLastCommit(run: seq<State>, steps: seq<Step>, k: nat)
    requires IsRun(run, steps) && k < |steps| && steps[k].Crash?
    ensures |run[k].log| >= 1 && |run[k + 1].metas| == 2
    ensures var m := Last(run[k]);
            && PickMeta(run[k + 1].metas) == m
            && run[k + 1].mti == m.txnid
            && OnDisk(m, run[k + 1].disk)
            && LastWritten(run, steps, k, m)
  {
    RunKeepsInv(run, steps, k);
    assert StepAt(run, steps, k);
    CrashKeepsInv(run[k], run[k + 1], steps[k].disk);
    PicksLast(run[k + 1]);
    LastCommitIsWritten(run, steps, k);
  }

  /** Every write transaction, also the first after a dead owner, builds on the newest meta page. */
  lemma WritersBuildOnNewest(run: seq<State>, steps: seq<Step>, k: nat)
    requires IsRun(run, steps) && k < |steps| && steps[k].Begin?
    ensures |run[k].metas| == 2 && run[k + 1].writer.Writing?
    ensures run[k + 1].writer.txn.base == PickMeta(run[k].metas)
  {
    RunKeepsInv(run, steps, k);
    assert StepAt(run, steps, k);
    PicksLast(run[k]);
    assert run[k].metas[run[k].mti % 2] == Last(run[k]);
  }

  /**
   Why the recovery re-reads the meta pages: an owner that died between writing its meta page
   and publishing its id leaves an mti_txnid that names the older meta page.
   */
  lemma DeadOwnerLeavesStaleId(run: seq<State>, steps: seq<Step>, k: nat)
    requires IsRun(run, steps) && k < |run|
    requires run[k].writer.OwnerDead? && run[k].mti + 1 == |run[k].log| - 1
    ensures |run[k].metas| == 2
    ensures run[k].metas[run[k].mti % 2] == Previous(run[k])
    ensures Previous(run[k]).txnid < PickMeta(run[k].metas).txnid
  {
    RunKeepsInv(run, steps, k);
    PicksLast(run[k]);
    var n := |run[k].log| - 1;
    assert run[k].metas[(n + 1) % 2] == Previous(run[k]);
    assert run[k].mti % 2 == (n + 1) % 2;
  }

  // The first transaction of a new environment: it writes page 2, and its owner dies between the
  // meta page and the id.

  const EMPTY: Snapshot := Snapshot(0, 2, map[], map[])
  const FIRST: Snapshot := Snapshot(1, 3, map[2 := []], map[])

  function UnpublishedTxn(): Txn {
    FreshTxn(0, EMPTY).(next := 3, mem := map[2 := []], used := {2})
  }

  function UnpublishedSteps(): seq<Step> {
    [Lock(1), Begin, Private(AllocNew([[]])), WriteBack(2), SaveFreelist(map[]), FlushDone, WriteMeta, WriterDies]
  }

  /** The environment with this page 2 on disk and this writer, before its meta page is written. */
  function Early(disk: map<Pgno, Content>, writer: Writer): State {
    State(disk, [EMPTY, EMPTY], 0, [], 0, map[], writer, [EMPTY])
  }

  /** And afterwards. */
  function Late(writer: Writer): State {
    State(map[2 := []], [EMPTY, FIRST], 0, [], 0, map[], writer, [EMPTY, FIRST])
  }

  function Holding(tx: Txn, phase: Phase): Writer {
    Writing(1, tx, NotScanning, phase)
  }

  function UnpublishedRun(): seq<State> {
    var tx, disk := UnpublishedTxn(), map[2 := []];
    [ Early(map[], Unlocked), Early(map[], Locked(1)),
      Early(map[], Holding(FreshTxn(0, EMPTY), Running)),
      Early(map[], Holding(tx, Running)),
      Early(disk, Holding(tx, Running)),
      Early(disk, Holding(tx, Saved(FIRST))),
      Early(disk, Holding(tx, Flushed(FIRST))),
      Late(Holding(tx, MetaWritten)), Late(OwnerDead(1)) ]
  }

  lemma FirstPageIsNew()
    ensures TxnNext(FreshTxn(0, EMPTY), UnpublishedTxn(), 0, AllocNew([[]]))
  {
    assert Run(2, 1) == {2} by { assert InRun(2, 2, 1); }
    assert WithRun(map[], 2, [[]]) == map[2 := []];
  }

  lemma FirstIsSaved()
    ensures var tx := UnpublishedTxn();
            Fills(tx, map[]) && FIRST == Snapshot(tx.txnid, tx.next, NewPages(tx), SavedFree(tx, map[]))
  {
    assert NewPages(UnpublishedTxn()) == map[2 := []];
  }

  lemma ItBegins()
    ensures Next(Early(map[], Unlocked), Early(map[], Locked(1)), Lock(1))
    ensures Next(Early(map[], Locked(1)), Early(map[], Holding(FreshTxn(0, EMPTY), Running)), Begin)
  {
  }

  lemma ItWrites()
    ensures var tx := UnpublishedTxn();
            && Next(Early(map[], Holding(FreshTxn(0, EMPTY), Running)), Early(map[], Holding(tx, Running)),
                    Private(AllocNew([[]])))
            && Next(Early(map[], Holding(tx, Running)), Early(map[2 := []], Holding(tx, Running)), WriteBack(2))
  {
    FirstPageIsNew();
  }

  lemma ItSaves()
    ensures var tx, disk := UnpublishedTxn(), map[2 := []];
            && Next(Early(disk, Holding(tx, Running)), Early(disk, Holding(tx, Saved(FIRST))), SaveFreelist(map[]))
            && Next(Early(disk, Holding(tx, Saved(FIRST))), Early(disk, Holding(tx, Flushed(FIRST))), FlushDone)
  {
    hide Fills, NewPages, SavedFree;
    FirstIsSaved();
  }

  lemma ItDies()
    ensures var tx := UnpublishedTxn();
            && Next(Early(map[2 := []], Holding(tx, Flushed(FIRST))), Late(Holding(tx, MetaWritten)), WriteMeta)
            && Next(Late(Holding(tx, MetaWritten)), Late(OwnerDead(1)), WriterDies)
  {
  }

  /** A run that gets there. */
  lemma OwnerMayDieUnpublished()
    ensures IsRun(UnpublishedRun(), UnpublishedSteps())
    ensures var s := UnpublishedRun()[8]; s.writer.OwnerDead? && s.mti + 1 == |s.log| - 1
  {
    hide Next, UnpublishedTxn, FreshTxn;
    ItBegins();
    ItWrites();
    ItSaves();
    ItDies();
  }

  /**
   Page conservation: a write transaction's pages are partitioned five ways at every moment,
   and each committed snapshot uses or lists every page exactly once.
   */
  lemma PagesAreConserved(run: seq<State>, steps: seq<Step>, k: nat)
    requires IsRun(run, steps) && k < |run|
    ensures var s := run[k];
            && (Uncommitted(s.writer) ==>
                  Partitioned(s.writer.txn))
            && forall m :: m in s.log ==> Conserved(m)
  {
    RunKeepsInv(run, steps, k);
  }

  /** Each process's cached me_pgoldest, however stale, is a lower bound for all pinned readers. */
  lemma CachedOldestIsLowerBound(run: seq<State>, steps: seq<Step>, k: nat, proc: nat, i: nat)
    requires IsRun(run, steps) && k < |run|
    requires proc in run[k].oldest && i < |run[k].readers| && Pinned(run[k].readers[i])
    ensures run[k].oldest[proc] <= run[k].readers[i].pc.t <= run[k].mti
  {
    RunKeepsInv(run, steps, k);
    assert ReaderOk(run[k], i, run[k].readers[i]);
  }

  // ---------------------------------------------------------------- freshness

  lemma StepGrowsId(s: State, s': State, step: Step)
    requires Inv(s) && Next(s, s', step)
    ensures s.mti <= s'.mti
  {
    PicksLast(s);
  }

  lemma {:induction false} IdsGrow(run: seq<State>, steps: seq<Step>, j: nat, k: nat)
    requires IsRun(run, steps) && j <= k < |run|
    ensures run[j].mti <= run[k].mti
  {
    if j < k {
      IdsGrow(run, steps, j, k - 1);
      RunKeepsInv(run, steps, k - 1);
      assert StepAt(run, steps, k - 1);
      StepGrowsId(run[k - 1], run[k], steps[k - 1]);
    }
  }

  /** The id a reader works with, from the moment it loads one. */
  ghost predicate AtLeast(r: Reader, t: Txnid) {
    !r.pc.Idle? && !r.pc.Gone? ==> t <= r.pc.t
  }

  lemma StepKeepsFresh(s: State, s': State, step: Step, i: nat, t: Txnid)
    requires |s.metas| == 2 && Next(s, s', step)
    requires i < |s.readers| && AtLeast(s.readers[i], t) && t <= s.mti
    ensures i < |s'.readers| && AtLeast(s'.readers[i], t)
  {
    if IsReaderStep(step) {
      if step.ClaimCount? {
      } else if step.i == i {
        FreshSlot(s, s', step, t);
      } else {
        assert s'.readers[i] == s.readers[i];
      }
    }
  }

  lemma FreshSlot(s: State, s': State, step: Step, t: Txnid)
    requires |s.metas| == 2 && Next(s, s', step) && IsReaderStep(step) && !step.ClaimCount?
    requires step.i < |s.readers| && AtLeast(s.readers[step.i], t) && t <= s.mti
    ensures step.i < |s'.readers| && AtLeast(s'.readers[step.i], t)
  {
  }

  lemma {:induction false} IdsAreFresh(run: seq<State>, steps: seq<Step>, j: nat, k: nat, i: nat)
    requires IsRun(run, steps) && j <= k < |run|
    requires i < |run[j].readers| && run[j].readers[i].pc.Idle?
    ensures i < |run[k].readers| && AtLeast(run[k].readers[i], run[j].mti)
  {
    if j < k {
      IdsAreFresh(run, steps, j, k - 1, i);
      IdsGrow(run, steps, j, k - 1);
      assert StepAt(run, steps, k - 1);
      StepKeepsFresh(run[k - 1], run[k], steps[k - 1], i, run[j].mti);
    }
  }

  /** A read transaction sees every commit that was published before it began. */
  lemma ReadsAreFresh(run: seq<State>, steps: seq<Step>, j: nat, k: nat, i: nat, m: Snapshot)
    requires IsRun(run, steps) && j <= k < |run|
    requires i < |run[j].readers| && run[j].readers[i].pc.Idle?
    requires Reads(run[k], i, m)
    ensures run[j].mti <= m.txnid
  {
    IdsAreFresh(run, steps, j, k, i);
    LiveReadersAreSafe(run, steps, k, i, m);
  }
}
