/** The end of a compacting copy: once the walker hands over its last buffer, both threads finish. */
module CopyEnds {
  import opened CopyHandoff

  /** The walker is at its last hand-over, or past it. */
  predicate LastRound(w: Walker) {
    w.Joining? || w.Finished? || (!w.Filling? && w.adjust >= EOF)
  }

  // ---------------------------------------------------------------- what there is left to do

  function Phase(w: Walker): nat {
    match w
    case Filling => 8
    case Locking(_) => 7
    case Adding(_) => 6
    case Signalling(_) => 5
    case Testing(_) => 4
    case Waiting(_) => 4
    case Waking(_) => 4
    case Turning(_) => 3
    case Joining => 2
    case Finished => 1
  }

  /** A walker that was signalled tests once more before it waits again. */
  function Wakeful(w: Walker): nat {
    if w.Waking? then 2 else if w.Testing? then 1 else 0
  }

  /** The writer's way to giving back the buffer it is at, or to waiting. */
  function Ahead(s: State): nat
    requires Shaped(s)
  {
    var bytes := 4 * |First(s)|;
    match s.writer
    case WSignalling => bytes + 40
    case WLocking => bytes + 30
    case WWaking => bytes + 30
    case WTesting => bytes + 20
    case WWriting(_, go) =>
      bytes + 10 + (if s.over[s.wtoggle] != [] then 4 else 0) + (if go then 1 else if s.error then 0 else 2)
    case WWaiting => 5
    case WReturning => 4
    case WExited => 0
  }

  /** Lexicographically: the walker's phase, buffers to give back, the writer's way, wake-ups. */
  ghost predicate Nearer(t: State, s: State)
    requires Shaped(s) && Shaped(t)
  {
    || Phase(t.walker) < Phase(s.walker)
    || (Phase(t.walker) == Phase(s.walker) && Pending(t) < Pending(s))
    || (Phase(t.walker) == Phase(s.walker) && Pending(t) == Pending(s) && Ahead(t) < Ahead(s))
    || (Phase(t.walker) == Phase(s.walker) && Pending(t) == Pending(s) && Ahead(t) == Ahead(s)
        && Wakeful(t.walker) < Wakeful(s.walker))
  }

  lemma WaitsAlone(s: State, t: State, step: Step)
    requires Shaped(s) && WalkerStep(s, t, step) && (step.Waits? || step.WakesUp?)
    ensures Shaped(t) && Ahead(t) == Ahead(s)
  {
    assert First(t) == First(s);
  }

  lemma WalkerNears(s: State, t: State, step: Step)
    requires Inv(s) && WalkerStep(s, t, step) && LastRound(s.walker)
    ensures Shaped(t) && LastRound(t.walker) && Nearer(t, s)
  {
    hide MutexOk, WaitOk, TailsOk, DataOk, BothInUse, Ahead;
    if step.Waits? || step.WakesUp? {
      WaitsAlone(s, t, step);
    }
  }

  lemma WritingNears(s: State, t: State, step: Step)
    requires Inv(s) && WriterStep(s, t, step) && !step.Spurious? && s.writer.WWriting?
    ensures Shaped(t) && Pending(t) == Pending(s) && Ahead(t) < Ahead(s)
  {
    hide MutexOk, WaitOk, TailsOk, DataOk, CountOk;
    var rest, over := s.writer.rest, s.over[s.wtoggle];
    assert |First(s)| == |rest| + |over|;
    if step.Writes? {
      assert |First(t)| == |rest| - step.n + |over|;
    } else if step.PartDone? {
      assert |First(t)| == |over|;
    }
  }

  lemma WriterNears(s: State, t: State, step: Step)
    requires Inv(s) && WriterStep(s, t, step) && !step.Spurious? && LastRound(s.walker)
    ensures Shaped(t) && LastRound(t.walker) && Nearer(t, s)
  {
    hide MutexOk, WaitOk, TailsOk, DataOk, BothInUse;
    if s.writer.WWriting? {
      hide Ahead;
      WritingNears(s, t, step);
    } else if step.FindsWork? {
      assert First(t) == First(s);
    }
  }

  // ---------------------------------------------------------------- schedules

  /** The schedule goes on until the walker has finished, without spurious wake-ups. */
  ghost predicate Spared(f: nat -> State, g: nat -> Step, j: nat) {
    f(j).walker.Finished? || (Next(f(j), f(j + 1), g(j)) && !g(j).Spurious?)
  }

  /** Both threads are done, and all was written unless an error is reported. */
  predicate CopyDone(s: State) {
    s.walker.Finished? && s.writer.WExited? && (!s.error ==> s.output == s.handed)
  }

  lemma DoneData(s: State)
    requires Inv(s) && s.walker.Finished? && s.writer.WExited?
    ensures CopyDone(s)
  {
    hide MutexOk, WaitOk, TailsOk;
  }

  /** The walker finishes by joining the writer. */
  lemma JoinsExited(s: State, t: State, step: Step)
    requires Shaped(s) && WalkerStep(s, t, step) && t.walker.Finished?
    ensures t.writer.WExited? && !s.walker.Finished?
  {
  }

  lemma {:induction false} Reached(f: nat -> State, g: nat -> Step, i: nat)
    requires Init(f(0)) && forall j: nat :: j < i ==> Next(f(j), f(j + 1), g(j))
    ensures Inv(f(i)) && (f(i).walker.Finished? ==> f(i).writer.WExited?)
  {
    hide Inv, WalkerStep, WriterStep;
    if i == 0 {
      InitHolds(f(0));
    } else {
      Reached(f, g, i - 1);
      assert Next(f(i - 1), f(i), g(i - 1));
      if WriterStep(f(i - 1), f(i), g(i - 1)) {
        WriterKeeps(f(i - 1), f(i), g(i - 1));
        WriterIsNotDone(f(i - 1), f(i), g(i - 1));
      } else {
        WalkerKeeps(f(i - 1), f(i), g(i - 1));
        if f(i).walker.Finished? {
          JoinsExited(f(i - 1), f(i), g(i - 1));
        }
      }
    }
  }

  lemma WriterIsNotDone(s: State, t: State, step: Step)
    requires Shaped(s) && WriterStep(s, t, step)
    ensures !(s.walker.Finished? && s.writer.WExited?) && (t.walker.Finished? ==> s.walker.Finished?)
  {
  }

  lemma {:induction false} EndsFrom(f: nat -> State, g: nat -> Step, i: nat)
    requires Inv(f(i)) && LastRound(f(i).walker) && forall j: nat :: j >= i ==> Spared(f, g, j)
    requires f(i).walker.Finished? ==> f(i).writer.WExited?
    ensures exists k: nat :: CopyDone(f(k))
    decreases Phase(f(i).walker), Pending(f(i)), Ahead(f(i)), Wakeful(f(i).walker)
  {
    hide Inv, WalkerStep, WriterStep, Phase, Pending, Ahead, Wakeful;
    assert Shaped(f(i)) by { InvShaped(f(i)); }
    if !f(i).walker.Finished? {
      assert Spared(f, g, i);
      if WriterStep(f(i), f(i + 1), g(i)) {
        WriterKeeps(f(i), f(i + 1), g(i));
        WriterNears(f(i), f(i + 1), g(i));
        WriterIsNotDone(f(i), f(i + 1), g(i));
      } else {
        WalkerKeeps(f(i), f(i + 1), g(i));
        WalkerNears(f(i), f(i + 1), g(i));
        if f(i + 1).walker.Finished? {
          JoinsExited(f(i), f(i + 1), g(i));
        }
      }
      EndsFrom(f, g, i + 1);
    } else {
      DoneData(f(i));
    }
  }

  lemma InvShaped(s: State)
    requires Inv(s)
    ensures Shaped(s)
  {
  }

  /**
   However the two threads are scheduled, once the walker is at its last hand-over both threads
   come to their end, unless pthread_cond_wait keeps returning unsignalled.
   */
  lemma CopyEnds(f: nat -> State, g: nat -> Step, i: nat)
    requires Init(f(0)) && LastRound(f(i).walker)
    requires forall j: nat :: j < i ==> Next(f(j), f(j + 1), g(j))
    requires forall j: nat :: j >= i ==> Spared(f, g, j)
    ensures exists k: nat :: CopyDone(f(k))
  {
    hide Inv, Next, Init, CopyDone, Spared;
    Reached(f, g, i);
    EndsFrom(f, g, i);
  }
}
