/**
 The two buffers of the compacting copy: the tree walker (mdb_env_cwalk, mdb_env_cthr_toggle)
 fills one while the writer thread (mdb_env_copythr) writes the other. One mutex, one condition
 variable for both directions.
 */
module CopyHandoff {
  import opened Base

  type Bytes = seq<byte>

  /** Added to mc_new when the walker is done. */
  const EOF: nat := 0x10

  /** The walker. `adjust` is the argument of mdb_env_cthr_toggle: 1, or 1 | EOF. */
  datatype Walker =
    | Filling
    | Locking(adjust: nat)
    | Adding(adjust: nat)       // has the mutex, mc_new not yet adjusted
    | Signalling(adjust: nat)
    | Testing(adjust: nat)      // while (mc_new & 2)
    | Waiting(adjust: nat)      // in pthread_cond_wait
    | Waking(adjust: nat)       // signalled, wants the mutex back
    | Turning(adjust: nat)      // mutex released, mc_toggle not yet changed
    | Joining                   // THREAD_FINISH
    | Finished

  datatype Writer =
    | WLocking
    | WTesting                  // while (!mc_new)
    | WWaiting
    | WWaking
    | WWriting(rest: Bytes, go: bool)   // go: mc_error was found clear, write() follows
    | WReturning                // buffer written, not yet given back
    | WSignalling
    | WExited

  datatype Owner = Nobody | TheWalker | TheWriter

  datatype State = State(
    walker: Walker,
    writer: Writer,
    owner: Owner,
    mcNew: nat,
    toggle: nat,            // mc_toggle: the walker's buffer
    wtoggle: nat,           // the writer's buffer
    wbuf: seq<Bytes>,       // mc_wbuf up to mc_wlen
    over: seq<Bytes>,       // mc_over up to mc_olen
    error: bool,            // mc_error
    skipped: bool,          // history: the writer has left out bytes because of an error
    output: Bytes,          // what has been written to mc_fd
    handed: Bytes)          // history: all that was handed over

  ghost predicate Init(s: State) {
    exists metas: Bytes ::
      s == State(Filling, WLocking, Nobody, 0, 0, 0, [metas, []], [[], []], false, false, [], [])
  }

  function Other(b: nat): nat {
    if b == 0 then 1 else 0
  }

  /** Buffers handed over and not yet given back. */
  function Pending(s: State): nat {
    if s.mcNew >= EOF then s.mcNew - EOF else s.mcNew
  }

  predicate BothInUse(mcNew: nat) {
    mcNew / 2 % 2 == 1
  }

  predicate Shaped(s: State) {
    |s.wbuf| == |s.over| == 2 && s.toggle < 2 && s.wtoggle < 2
  }

  // ---------------------------------------------------------------- the walker's steps

  datatype Step =
    | Append(page: Bytes)
    | HandOver(tail: Bytes)     // a full buffer, or an overflow page's head with its tail elsewhere
    | Finish(failed: bool)      // the end of the walk, or an error in it
    | WalkerLocks
    | Adds
    | Signals
    | FindsBufferFree
    | Waits
    | WakesUp
    | Turns
    | Joins
    | WriterLocks
    | FindsWork
    | FindsNoError
    | FindsEof
    | WriterWaits
    | WriterWakesUp
    | Writes(n: nat)            // write() accepts n bytes
    | WriteFails
    | PartDone
    | Returns
    | WriterSignals
    | Spurious(walker: bool)    // pthread_cond_wait may return unsignalled

  function Wake(w: Walker): Walker {
    if w.Waiting? then Waking(w.adjust) else w
  }

  function WakeWriter(w: Writer): Writer {
    if w.WWaiting? then WWaking else w
  }

  ghost predicate WalkerStep(s: State, t: State, step: Step)
    requires Shaped(s)
  {
    match step
    case Append(page) =>
      s.walker.Filling? && t == s.(wbuf := s.wbuf[s.toggle := s.wbuf[s.toggle] + page])
    case HandOver(tail) =>
      s.walker.Filling? && t == s.(walker := Locking(1), over := s.over[s.toggle := tail])
    case Finish(failed) =>
      s.walker.Filling? && t == s.(walker := Locking(1 + EOF), error := s.error || failed)
    case WalkerLocks =>
      s.walker.Locking? && s.owner.Nobody? && t == s.(walker := Adding(s.walker.adjust), owner := TheWalker)
    case Adds =>
      && s.walker.Adding?
      && t == s.(walker := Signalling(s.walker.adjust), mcNew := s.mcNew + s.walker.adjust,
                 handed := s.handed + s.wbuf[s.toggle] + s.over[s.toggle])
    case Signals =>
      s.walker.Signalling? && t == s.(walker := Testing(s.walker.adjust), writer := WakeWriter(s.writer))
    case FindsBufferFree =>
      s.walker.Testing? && !BothInUse(s.mcNew) && t == s.(walker := Turning(s.walker.adjust), owner := Nobody)
    case Waits =>
      s.walker.Testing? && BothInUse(s.mcNew) && t == s.(walker := Waiting(s.walker.adjust), owner := Nobody)
    case WakesUp =>
      s.walker.Waking? && s.owner.Nobody? && t == s.(walker := Testing(s.walker.adjust), owner := TheWalker)
    case Turns =>
      // on an error the walk ends: the next hand-over is the last
      var next := if s.walker.Turning? && s.walker.adjust >= EOF then Joining
                  else if s.error then Locking(1 + EOF) else Filling;
      && s.walker.Turning?
      && t == s.(walker := next, toggle := Other(s.toggle), wbuf := s.wbuf[Other(s.toggle) := []])
    case Joins =>
      s.walker.Joining? && s.writer.WExited? && t == s.(walker := Finished)
    case _ => false
  }

  ghost predicate WriterStep(s: State, t: State, step: Step)
    requires Shaped(s)
  {
    match step
    case WriterLocks =>
      s.writer.WLocking? && s.owner.Nobody? && t == s.(writer := WTesting, owner := TheWriter)
    case FindsWork =>
      s.writer.WTesting? && s.mcNew != 0 && s.mcNew != EOF && t == s.(writer := WWriting(s.wbuf[s.wtoggle], false))
    case FindsEof =>
      s.writer.WTesting? && s.mcNew == EOF && t == s.(writer := WExited, owner := Nobody)
    case WriterWaits =>
      s.writer.WTesting? && s.mcNew == 0 && t == s.(writer := WWaiting, owner := Nobody)
    case WriterWakesUp =>
      s.writer.WWaking? && s.owner.Nobody? && t == s.(writer := WTesting, owner := TheWriter)
    case FindsNoError =>
      && s.writer.WWriting? && !s.writer.go && s.writer.rest != [] && !s.error
      && t == s.(writer := WWriting(s.writer.rest, true))
    case Writes(n) =>
      && s.writer.WWriting? && s.writer.go && 0 < n <= |s.writer.rest|
      && t == s.(writer := WWriting(s.writer.rest[n..], false), output := s.output + s.writer.rest[..n])
    case WriteFails =>
      s.writer.WWriting? && s.writer.go && t == s.(writer := WWriting(s.writer.rest, false), error := true)
    case PartDone =>
      && s.writer.WWriting? && !s.writer.go && (s.writer.rest == [] || s.error)
      && t == s.(skipped := s.skipped || s.writer.rest != [],
                 writer := if s.over[s.wtoggle] != [] then WWriting(s.over[s.wtoggle], false) else WReturning,
                 over := s.over[s.wtoggle := []])
    case Returns =>
      && s.writer.WReturning? && s.mcNew > 0
      && t == s.(writer := WSignalling, wbuf := s.wbuf[s.wtoggle := []], wtoggle := Other(s.wtoggle), mcNew := s.mcNew - 1)
    case WriterSignals =>
      s.writer.WSignalling? && t == s.(writer := WTesting, walker := Wake(s.walker))
    case Spurious(walker) =>
      if walker then s.walker.Waiting? && t == s.(walker := Wake(s.walker))
      else s.writer.WWaiting? && t == s.(writer := WWaking)
    case _ => false
  }

  ghost predicate Next(s: State, t: State, step: Step) {
    Shaped(s) && (WalkerStep(s, t, step) || WriterStep(s, t, step))
  }

  // ---------------------------------------------------------------- what every state keeps

  /** The walker has handed its buffer over and not yet turned to the other one. */
  predicate InTransit(w: Walker) {
    w.Signalling? || w.Testing? || w.Waiting? || w.Waking? || w.Turning?
  }

  predicate WalkerLocked(w: Walker) {
    w.Adding? || w.Signalling? || w.Testing?
  }

  predicate WriterLocked(w: Writer) {
    w.WTesting? || w.WWriting? || w.WReturning? || w.WSignalling?
  }

  predicate MutexOk(s: State) {
    && (s.owner.TheWalker? <==> WalkerLocked(s.walker))
    && (s.owner.TheWriter? <==> WriterLocked(s.writer))
  }

  /** The walker's last hand-over has been added. */
  predicate EofGiven(w: Walker) {
    (InTransit(w) && w.adjust >= EOF) || w.Joining? || w.Finished?
  }

  predicate AdjustOk(w: Walker) {
    !w.Filling? && !w.Joining? && !w.Finished? ==> w.adjust == 1 || w.adjust == 1 + EOF
  }

  function After(b: nat, n: nat): nat {
    if n == 1 then Other(b) else b
  }

  /** Whose buffer is whose: the buffer after the pending ones is the walker's next. */
  predicate CountOk(s: State) {
    && AdjustOk(s.walker)
    && Pending(s) <= 2
    && s.mcNew == Pending(s) + (if EofGiven(s.walker) then EOF else 0)
    && (!InTransit(s.walker) || s.walker.Turning? ==> Pending(s) <= 1)
    && After(s.wtoggle, Pending(s)) == After(s.toggle, if InTransit(s.walker) then 1 else 0)
    && (s.writer.WWriting? || s.writer.WReturning? ==> Pending(s) >= 1)
    && (s.writer.WExited? ==> s.mcNew == EOF)
  }

  /** A thread waits only for what has not happened, or has not been signalled yet. */
  predicate WaitOk(s: State) {
    && (s.walker.Waiting? ==> Pending(s) == 2 || s.writer.WSignalling?)
    && (s.writer.WWaiting? ==> s.mcNew == 0 || s.walker.Signalling?)
  }

  /** A pending buffer. */
  function Whole(s: State, b: nat): Bytes
    requires Shaped(s) && b < 2
  {
    s.wbuf[b] + s.over[b]
  }

  /** The bytes still to be written of the buffer that the writer is at. */
  function First(s: State): Bytes
    requires Shaped(s)
  {
    match s.writer
    case WWriting(rest, _) => rest + s.over[s.wtoggle]
    case WReturning => []
    case _ => if Pending(s) >= 1 then Whole(s, s.wtoggle) else []
  }

  function Second(s: State): Bytes
    requires Shaped(s)
  {
    if Pending(s) == 2 then Whole(s, Other(s.wtoggle)) else []
  }

  /** A buffer that is nobody's, or being filled, has no tail. */
  predicate TailsOk(s: State)
    requires Shaped(s)
  {
    && (Pending(s) < 2 && !s.walker.Locking? && !s.walker.Adding? ==> s.over[Other(s.wtoggle)] == [] || Pending(s) == 0)
    && (Pending(s) == 0 && !s.walker.Locking? && !s.walker.Adding? ==> s.over[0] == s.over[1] == [])
    && (Pending(s) == 0 && (s.walker.Locking? || s.walker.Adding?) ==> s.over[Other(s.toggle)] == [])
    && (s.writer.WReturning? ==> s.over[s.wtoggle] == [])
  }

  predicate DataOk(s: State)
    requires Shaped(s)
  {
    if s.skipped then s.error && s.output <= s.handed && !(s.writer.WWriting? && s.writer.go)
    else s.handed == s.output + First(s) + Second(s)
  }

  predicate Inv(s: State) {
    Shaped(s) && MutexOk(s) && CountOk(s) && WaitOk(s) && TailsOk(s) && DataOk(s)
  }

  lemma InitHolds(s: State)
    requires Init(s)
    ensures Inv(s)
  {
  }

  lemma BothMeansTwo(s: State)
    requires CountOk(s)
    ensures BothInUse(s.mcNew) <==> Pending(s) == 2
  {
  }

  lemma AppendKeeps(s: State, t: State, page: Bytes)
    requires Inv(s) && WalkerStep(s, t, Append(page))
    ensures Inv(t)
  {
  }

  lemma HandOverKeeps(s: State, t: State, tail: Bytes)
    requires Inv(s) && WalkerStep(s, t, HandOver(tail))
    ensures Inv(t)
  {
  }

  lemma FinishKeeps(s: State, t: State, failed: bool)
    requires Inv(s) && WalkerStep(s, t, Finish(failed))
    ensures Inv(t)
  {
  }

  lemma AddsKeeps(s: State, t: State)
    requires Inv(s) && WalkerStep(s, t, Adds)
    ensures Inv(t)
  {
  }

  lemma TurnsKeeps(s: State, t: State)
    requires Inv(s) && WalkerStep(s, t, Turns)
    ensures Inv(t)
  {
  }

  lemma WalkerSyncData(s: State, t: State, step: Step)
    requires Inv(s) && WalkerStep(s, t, step)
    requires step.WalkerLocks? || step.WakesUp? || step.Joins?
    ensures Shaped(t) && DataOk(t)
  {
    hide MutexOk, WaitOk, TailsOk;
    assert Second(t) == Second(s) && First(t) == First(s);
  }

  lemma WalkerSyncKeeps(s: State, t: State, step: Step)
    requires Inv(s) && WalkerStep(s, t, step)
    requires step.WalkerLocks? || step.WakesUp? || step.Joins?
    ensures Inv(t)
  {
    WalkerSyncData(s, t, step);
    hide DataOk;
  }

  lemma WalkerSignalData(s: State, t: State, step: Step)
    requires Inv(s) && WalkerStep(s, t, step)
    requires step.Signals?
    ensures Shaped(t) && DataOk(t)
  {
    hide MutexOk, WaitOk, TailsOk;
    assert Second(t) == Second(s) && First(t) == First(s);
  }

  lemma WalkerSignalKeeps(s: State, t: State, step: Step)
    requires Inv(s) && WalkerStep(s, t, step)
    requires step.Signals?
    ensures Inv(t)
  {
    WalkerSignalData(s, t, step);
    hide DataOk;
  }

  lemma WalkerTestData(s: State, t: State, step: Step)
    requires Inv(s) && WalkerStep(s, t, step)
    requires step.FindsBufferFree? || step.Waits?
    ensures Shaped(t) && DataOk(t)
  {
    hide MutexOk, WaitOk, TailsOk;
    assert Second(t) == Second(s) && First(t) == First(s);
  }

  lemma WalkerTestKeeps(s: State, t: State, step: Step)
    requires Inv(s) && WalkerStep(s, t, step)
    requires step.FindsBufferFree? || step.Waits?
    ensures Inv(t)
  {
    BothMeansTwo(s);
    hide BothInUse;
    WalkerTestData(s, t, step);
    hide DataOk;
  }

  lemma WalkerKeeps(s: State, t: State, step: Step)
    requires Inv(s) && WalkerStep(s, t, step)
    ensures Inv(t)
  {
    hide Inv;
    match step
    case Append(page) => AppendKeeps(s, t, page);
    case HandOver(tail) => HandOverKeeps(s, t, tail);
    case Finish(failed) => FinishKeeps(s, t, failed);
    case Adds => AddsKeeps(s, t);
    case Turns => TurnsKeeps(s, t);
    case Signals => WalkerSignalKeeps(s, t, step);
    case FindsBufferFree => WalkerTestKeeps(s, t, step);
    case Waits => WalkerTestKeeps(s, t, step);
    case _ => WalkerSyncKeeps(s, t, step);
  }

  lemma WritesKeeps(s: State, t: State, n: nat)
    requires Inv(s) && WriterStep(s, t, Writes(n))
    ensures Inv(t)
  {
  }

  lemma WriteFailsKeeps(s: State, t: State)
    requires Inv(s) && WriterStep(s, t, WriteFails)
    ensures Inv(t)
  {
  }

  lemma PartDoneData(s: State, t: State)
    requires Inv(s) && WriterStep(s, t, PartDone)
    ensures Shaped(t) && DataOk(t)
  {
    hide MutexOk, WaitOk, TailsOk;
    var b := s.wtoggle;
    assert Second(t) == Second(s);
    if !t.skipped {
      assert First(s) == s.over[b];
      assert First(t) == s.over[b];
    } else if !s.skipped {
      assert s.handed == s.output + (First(s) + Second(s));
    }
  }

  lemma PartDoneKeeps(s: State, t: State)
    requires Inv(s) && WriterStep(s, t, PartDone)
    ensures Inv(t)
  {
    PartDoneData(s, t);
    hide DataOk;
  }

  lemma ReturnsKeeps(s: State, t: State)
    requires Inv(s) && WriterStep(s, t, Returns)
    ensures Inv(t)
  {
  }

  lemma WriterSyncData(s: State, t: State, step: Step)
    requires Inv(s) && WriterStep(s, t, step)
    requires step.WriterLocks? || step.FindsEof? || step.WriterWaits? || step.WriterWakesUp?
    ensures Shaped(t) && DataOk(t)
  {
    hide MutexOk, WaitOk, TailsOk;
    assert Second(t) == Second(s) && First(t) == First(s);
  }

  lemma WriterSyncKeeps(s: State, t: State, step: Step)
    requires Inv(s) && WriterStep(s, t, step)
    requires step.WriterLocks? || step.FindsEof? || step.WriterWaits? || step.WriterWakesUp?
    ensures Inv(t)
  {
    WriterSyncData(s, t, step);
    hide DataOk;
  }

  lemma WriterStartData(s: State, t: State, step: Step)
    requires Inv(s) && WriterStep(s, t, step)
    requires step.FindsWork? || step.FindsNoError?
    ensures Shaped(t) && DataOk(t)
  {
    hide MutexOk, WaitOk, TailsOk;
    assert Second(t) == Second(s) && First(t) == First(s);
  }

  lemma WriterStartKeeps(s: State, t: State, step: Step)
    requires Inv(s) && WriterStep(s, t, step)
    requires step.FindsWork? || step.FindsNoError?
    ensures Inv(t)
  {
    WriterStartData(s, t, step);
    hide DataOk;
  }

  lemma WriterSignalData(s: State, t: State, step: Step)
    requires Inv(s) && WriterStep(s, t, step)
    requires step.WriterSignals?
    ensures Shaped(t) && DataOk(t)
  {
    hide MutexOk, WaitOk, TailsOk;
    assert Second(t) == Second(s) && First(t) == First(s);
  }

  lemma WriterSignalKeeps(s: State, t: State, step: Step)
    requires Inv(s) && WriterStep(s, t, step)
    requires step.WriterSignals?
    ensures Inv(t)
  {
    WriterSignalData(s, t, step);
    hide DataOk;
  }

  lemma SpuriousData(s: State, t: State, step: Step)
    requires Inv(s) && WriterStep(s, t, step)
    requires step.Spurious?
    ensures Shaped(t) && DataOk(t)
  {
    hide MutexOk, WaitOk, TailsOk;
    assert Second(t) == Second(s) && First(t) == First(s);
  }

  lemma SpuriousKeeps(s: State, t: State, step: Step)
    requires Inv(s) && WriterStep(s, t, step)
    requires step.Spurious?
    ensures Inv(t)
  {
    SpuriousData(s, t, step);
    hide DataOk;
  }

  lemma WriterKeeps(s: State, t: State, step: Step)
    requires Inv(s) && WriterStep(s, t, step)
    ensures Inv(t)
  {
    hide Inv;
    match step
    case Writes(n) => WritesKeeps(s, t, n);
    case WriteFails => WriteFailsKeeps(s, t);
    case PartDone => PartDoneKeeps(s, t);
    case Returns => ReturnsKeeps(s, t);
    case FindsWork => WriterStartKeeps(s, t, step);
    case FindsNoError => WriterStartKeeps(s, t, step);
    case WriterSignals => WriterSignalKeeps(s, t, step);
    case Spurious(_) => SpuriousKeeps(s, t, step);
    case _ => WriterSyncKeeps(s, t, step);
  }

  // ---------------------------------------------------------------- runs

  ghost predicate StepAt(run: seq<State>, steps: seq<Step>, k: nat)
    requires |run| == |steps| + 1 && k < |steps|
  {
    Next(run[k], run[k + 1], steps[k])
  }

  ghost predicate IsRun(run: seq<State>, steps: seq<Step>) {
    && |run| == |steps| + 1
    && Init(run[0])
    && forall k :: 0 <= k < |steps| ==> StepAt(run, steps, k)
  }

  lemma {:induction false} RunKeepsInv(run: seq<State>, steps: seq<Step>, k: nat)
    requires IsRun(run, steps) && k < |run|
    ensures Inv(run[k])
  {
    hide Inv, WalkerStep, WriterStep;
    if k == 0 {
      InitHolds(run[0]);
    } else {
      RunKeepsInv(run, steps, k - 1);
      assert StepAt(run, steps, k - 1);
      if WriterStep(run[k - 1], run[k], steps[k - 1]) {
        WriterKeeps(run[k - 1], run[k], steps[k - 1]);
      } else {
        WalkerKeeps(run[k - 1], run[k], steps[k - 1]);
      }
    }
  }

  /** The writer has been given buffer b and has not given it back. */
  predicate WriterOwns(s: State, b: nat) {
    Pending(s) == 2 || (Pending(s) == 1 && b == s.wtoggle)
  }

  /** While the walker fills a buffer, the writer owns at most the other one. */
  lemma BuffersAreExclusive(run: seq<State>, steps: seq<Step>, k: nat)
    requires IsRun(run, steps) && k < |run|
    ensures run[k].walker.Filling? ==> !WriterOwns(run[k], run[k].toggle)
  {
    RunKeepsInv(run, steps, k);
  }

  /**
   What has been written is always a prefix of what was handed over, in order, each buffer with
   its overflow tail. When the writer has exited and no error is reported, it is all of it.
   */
  lemma OutputIsInOrder(run: seq<State>, steps: seq<Step>, k: nat)
    requires IsRun(run, steps) && k < |run|
    ensures run[k].output <= run[k].handed
    ensures run[k].writer.WExited? && !run[k].error ==> run[k].output == run[k].handed
  {
    RunKeepsInv(run, steps, k);
  }

  /** The writer exits only after the last buffer, the one handed over with MDB_EOF. */
  lemma WriterExitsLast(run: seq<State>, steps: seq<Step>, k: nat)
    requires IsRun(run, steps) && k < |run| && run[k].writer.WExited?
    ensures EofGiven(run[k].walker) && Pending(run[k]) == 0
  {
    RunKeepsInv(run, steps, k);
  }

  // ---------------------------------------------------------------- no deadlock

  /** What the walker does next, if it does not wait for the mutex or in pthread_cond_wait. */
  function WalkerChoice(s: State): Step {
    match s.walker
    case Filling => Finish(false)
    case Locking(_) => WalkerLocks
    case Adding(_) => Adds
    case Signalling(_) => Signals
    case Testing(_) => if BothInUse(s.mcNew) then Waits else FindsBufferFree
    case Waiting(_) => Spurious(true)
    case Waking(_) => WakesUp
    case Turning(_) => Turns
    case Joining => Joins
    case Finished => Joins
  }

  function WriterChoice(s: State): Step {
    match s.writer
    case WLocking => WriterLocks
    case WTesting => if s.mcNew == 0 then WriterWaits else if s.mcNew == EOF then FindsEof else FindsWork
    case WWaiting => Spurious(false)
    case WWaking => WriterWakesUp
    case WWriting(rest, go) =>
      if go then (if rest != [] then Writes(|rest|) else WriteFails)
      else if rest == [] || s.error then PartDone else FindsNoError
    case WReturning => Returns
    case WSignalling => WriterSignals
    case WExited => WriterLocks
  }

  /** The walker can move on its own. */
  predicate WalkerReady(s: State) {
    match s.walker
    case Locking(_) => s.owner.Nobody?
    case Waking(_) => s.owner.Nobody?
    case Waiting(_) => false
    case Joining => s.writer.WExited?
    case Finished => false
    case _ => true
  }

  predicate WriterReady(s: State) {
    match s.writer
    case WLocking => s.owner.Nobody?
    case WWaking => s.owner.Nobody?
    case WWaiting => false
    case WExited => false
    case _ => true
  }

  lemma WalkerMoves(s: State) returns (t: State)
    requires Inv(s) && WalkerReady(s)
    ensures WalkerStep(s, t, WalkerChoice(s)) && !WalkerChoice(s).Spurious?
  {
    hide MutexOk, CountOk, WaitOk, TailsOk, DataOk, BothInUse;
    match s.walker
    case Filling => t := s.(walker := Locking(1 + EOF), error := s.error || false);
    case Locking(adjust) => t := s.(walker := Adding(adjust), owner := TheWalker);
    case Adding(adjust) =>
      t := s.(walker := Signalling(adjust), mcNew := s.mcNew + adjust,
              handed := s.handed + s.wbuf[s.toggle] + s.over[s.toggle]);
    case Signalling(adjust) => t := s.(walker := Testing(adjust), writer := WakeWriter(s.writer));
    case Testing(adjust) =>
      t := s.(walker := if BothInUse(s.mcNew) then Waiting(adjust) else Turning(adjust), owner := Nobody);
    case Waking(adjust) => t := s.(walker := Testing(adjust), owner := TheWalker);
    case Turning(adjust) =>
      t := s.(walker := if adjust >= EOF then Joining else if s.error then Locking(1 + EOF) else Filling,
              toggle := Other(s.toggle), wbuf := s.wbuf[Other(s.toggle) := []]);
    case Joining => t := s.(walker := Finished);
  }

  lemma WriterMoves(s: State) returns (t: State)
    requires Inv(s) && WriterReady(s)
    ensures WriterStep(s, t, WriterChoice(s)) && !WriterChoice(s).Spurious?
  {
    hide MutexOk, WaitOk, TailsOk, DataOk;
    match s.writer
    case WLocking => t := s.(writer := WTesting, owner := TheWriter);
    case WTesting =>
      t := if s.mcNew == 0 then s.(writer := WWaiting, owner := Nobody)
           else if s.mcNew == EOF then s.(writer := WExited, owner := Nobody)
           else s.(writer := WWriting(s.wbuf[s.wtoggle], false));
    case WWaking => t := s.(writer := WTesting, owner := TheWriter);
    case WWriting(rest, go) =>
      if go && rest != [] {
        t := s.(writer := WWriting(rest[|rest|..], false), output := s.output + rest[..|rest|]);
      } else if go {
        t := s.(writer := WWriting(rest, false), error := true);
      } else if rest == [] || s.error {
        t := s.(skipped := s.skipped || rest != [],
                writer := if s.over[s.wtoggle] != [] then WWriting(s.over[s.wtoggle], false) else WReturning,
                over := s.over[s.wtoggle := []]);
      } else {
        t := s.(writer := WWriting(rest, true));
      }
    case WReturning =>
      t := s.(writer := WSignalling, wbuf := s.wbuf[s.wtoggle := []], wtoggle := Other(s.wtoggle), mcNew := s.mcNew - 1);
    case WSignalling => t := s.(writer := WTesting, walker := Wake(s.walker));
  }

  lemma SomeoneReady(s: State)
    requires Inv(s) && !s.walker.Finished?
    ensures WalkerReady(s) || WriterReady(s)
  {
    hide TailsOk, DataOk;
  }

  /** Until the walker has joined the writer, some thread can move without a spurious wake-up. */
  lemma NoDeadlock(run: seq<State>, steps: seq<Step>, k: nat)
    requires IsRun(run, steps) && k < |run| && !run[k].walker.Finished?
    ensures exists t, step :: Next(run[k], t, step) && !step.Spurious?
  {
    hide WalkerStep, WriterStep, WalkerChoice, WriterChoice, WalkerReady, WriterReady;
    var s := run[k];
    RunKeepsInv(run, steps, k);
    SomeoneReady(s);
    if WalkerReady(s) {
      var t := WalkerMoves(s);
      assert Next(s, t, WalkerChoice(s));
    } else {
      var t := WriterMoves(s);
      assert Next(s, t, WriterChoice(s));
    }
  }

  /** While it fills its buffer, the walk may append any page, hand over any tail, or end, with or without an error. */
  lemma WalkMayGoOn(s: State, data: Bytes, failed: bool)
    requires Inv(s) && s.walker.Filling?
    ensures Next(s, s.(wbuf := s.wbuf[s.toggle := s.wbuf[s.toggle] + data]), Append(data))
    ensures Next(s, s.(walker := Locking(1), over := s.over[s.toggle := data]), HandOver(data))
    ensures Next(s, s.(walker := Locking(1 + EOF), error := s.error || failed), Finish(failed))
  {
  }

  /** write() may take fewer bytes than it is given, or fail. */
  lemma WritesMayBeShort(s: State, n: nat)
    requires Inv(s) && s.writer.WWriting? && s.writer.go && 0 < n <= |s.writer.rest|
    ensures Next(s, s.(writer := WWriting(s.writer.rest[n..], false), output := s.output + s.writer.rest[..n]), Writes(n))
    ensures Next(s, s.(writer := WWriting(s.writer.rest, false), error := true), WriteFails)
  {
  }
}
