/** Safety of the synchronization primitives over every interleaving. */
module SynchSafe {
  import opened Options
  import opened Synch
  import opened SynchInv

  lemma PKept(s: State, init: seq<int>, t: Tid, n: nat, p: PPc)
    requires s.cur == Some(t) && t in s.pc && s.pc[t] == InP(n, p) && n < |s.count| == |s.ps| && Inv(s, init)
    ensures Inv(ExecP(s, t, n, p), init)
  {
    hide Inv;
    Own(s, init, t);
    match p
    case PSpl => PlainKept(s, Go(s, t, InP(n, PTest)), init, t);
    case PTest =>
      if s.count[n] == 0 {
        SleepKept(s, init, t, SemAddr(n), InP(n, PTest));
      } else {
        PlainKept(s, Go(s, t, InP(n, PTake)), init, t);
      }
    case PTake => TakeKept(s, init, t, n);
    case PSplx => PlainKept(s, Go(s, t, Idle), init, t);
  }

  lemma VKept(s: State, init: seq<int>, t: Tid, n: nat, v: VPc)
    requires s.cur == Some(t) && t in s.pc && s.pc[t] == InV(n, v) && n < |s.count| == |s.vs| && Inv(s, init)
    ensures Inv(ExecV(s, t, n, v), init)
  {
    hide Inv;
    hide Wakeup;
    Own(s, init, t);
    match v
    case VSpl => PlainKept(s, Go(s, t, InV(n, VInc)), init, t);
    case VInc => IncKept(s, init, t, n);
    case VWake => WakeKept(s, init, t, SemAddr(n), InV(n, VSplx));
    case VSplx => PlainKept(s, Go(s, t, Idle), init, t);
  }

  lemma AcquireKept(s: State, init: seq<int>, t: Tid, l: nat, q: APc, ret: Ret)
    requires s.cur == Some(t) && t in s.pc && s.pc[t] == InAcquire(l, q, ret) && l < |s.holder| && Inv(s, init)
    ensures Inv(ExecAcquire(s, t, l, q, ret), init)
  {
    hide Inv;
    Own(s, init, t);
    match q
    case ASpl => PlainKept(s, Go(s, t, InAcquire(l, ATest, ret)), init, t);
    case ATest =>
      if s.holder[l] != None {
        SleepKept(s, init, t, LockAddr(l), InAcquire(l, ATest, ret));
      } else {
        PlainKept(s, Go(s, t, InAcquire(l, ATake, ret)), init, t);
      }
    case ATake => GetKept(s, init, t, l, ret);
    case ASplx => PlainKept(s, ExecAcquire(s, t, l, q, ret), init, t);
  }

  lemma ReleaseKept(s: State, init: seq<int>, t: Tid, l: nat, r: RPc, ret: Ret)
    requires s.cur == Some(t) && t in s.pc && s.pc[t] == InRelease(l, r, ret) && l < |s.holder| && Inv(s, init)
    ensures Inv(ExecRelease(s, t, l, r, ret), init)
  {
    hide Inv;
    hide Wakeup;
    Own(s, init, t);
    match r
    case RSpl => PlainKept(s, Go(s, t, InRelease(l, RClear, ret)), init, t);
    case RClear => ClearKept(s, init, t, l, ret);
    case RWake => WakeKept(s, init, t, LockAddr(l), InRelease(l, RSplx, ret));
    case RSplx => PlainKept(s, ExecRelease(s, t, l, r, ret), init, t);
  }

  lemma WaitKept(s: State, init: seq<int>, t: Tid, c: nat, l: nat, w: WPc)
    requires s.cur == Some(t) && t in s.pc && s.pc[t] == InWait(c, l, w) && l < |s.holder| && Inv(s, init)
    ensures Inv(ExecWait(s, t, c, l, w), init)
  {
    hide Inv;
    Own(s, init, t);
    match w
    case WSpl => PlainKept(s, Go(s, t, InRelease(l, RSpl, Wait(c))), init, t);
    case WSleep => SleepKept(s, init, t, CvAddr(c), InWait(c, l, WWoken));
    case WWoken => PlainKept(s, Go(s, t, InAcquire(l, ASpl, Wait(c))), init, t);
    case WSplx => PlainKept(s, ExecWait(s, t, c, l, w), init, t);
  }

  lemma SignalsKept(s: State, init: seq<int>, t: Tid, x: Tid, c: nat, l: nat, g: SPc, all: bool)
    requires s.cur == Some(t) && t in s.pc && s.pc[t] == InSignal(c, l, g, all) && l < |s.holder| && Inv(s, init)
    ensures Inv(ExecSignal(s, t, x, c, l, g, all), init)
  {
    hide Inv;
    hide Wakeup;
    hide Unwait;
    Own(s, init, t);
    match g
    case SSpl => PlainKept(s, Go(s, t, InSignal(c, l, SWake, all)), init, t);
    case SWake => SignalKept(s, ExecSignal(s, t, x, c, l, g, all), init, t, c, l, all);
    case SSplx => PlainKept(s, Go(s, t, Idle), init, t);
  }

  lemma CallKept(s: State, init: seq<int>, t: Tid, op: Op)
    requires Enabled(s, Call(t, op)) && Inv(s, init)
    ensures Inv(Invoke(s, t, op), init)
  {
    hide Inv;
    Own(s, init, t);
    PlainKept(s, Invoke(s, t, op), init, t);
  }

  lemma StepKept(s: State, init: seq<int>, step: Step)
    requires Enabled(s, step) && Inv(s, init)
    ensures Inv(Apply(s, step), init)
  {
    hide Inv;
    hide ExecP;
    hide ExecV;
    hide ExecAcquire;
    hide ExecRelease;
    hide ExecWait;
    hide ExecSignal;
    hide Invoke;
    match step
    case Call(t, op) => CallKept(s, init, t, op);
    case Micro(t, x) => {
      match s.pc[t]
      case Idle =>
      case InP(n, p) => PKept(s, init, t, n, p);
      case InV(n, v) => VKept(s, init, t, n, v);
      case InAcquire(l, q, ret) => AcquireKept(s, init, t, l, q, ret);
      case InRelease(l, r, ret) => ReleaseKept(s, init, t, l, r, ret);
      case InWait(c, l, w) => WaitKept(s, init, t, c, l, w);
      case InSignal(c, l, g, all) => SignalsKept(s, init, t, x, c, l, g, all);
    }
    case Preempt => PreemptKept(s, init);
    case Dispatch(t) => DispatchKept(s, init, t);
  }

  lemma InitialInv(s: State, init: seq<int>)
    requires Initial(s, init)
    ensures Inv(s, init)
  {
    forall t | t in s.pc
      ensures ThreadOk(s, t)
    {
    }
  }

  // ---------------------------------------------------------------- theorems

  /** Interrupts are on: no primitive is under way on the processor. */
  predicate Open(s: State) {
    s.cur.Some? ==> s.cur.value in s.pc && !Off(s.pc[s.cur.value])
  }

  ghost predicate Safe(s: State, init: seq<int>) {
    // no assertion failed
    && !s.panic
    // a count is the initial count plus Vs minus completed Ps, and never negative
    && |s.count| == |s.ps| == |s.vs| == |init|
    && (forall n :: 0 <= n < |s.count| ==> s.count[n] == init[n] + s.vs[n] - s.ps[n] && s.count[n] >= 0)
    // no thread sleeps on a positive semaphore or on a free lock
    && (Open(s) ==> forall t, n: nat :: t in s.asleep && s.asleep[t] == SemAddr(n) && n < |s.count| ==> s.count[n] == 0)
    && (Open(s) ==>
          forall t, l: nat :: t in s.asleep && s.asleep[t] == LockAddr(l) && l < |s.holder| ==> s.holder[l] != None)
    // two threads are never inside the same lock
    && (forall t, u, l :: (t, l) in s.inside && (u, l) in s.inside ==> t == u)
    // a thread that let go of its lock to wait is asleep on its condition variable whenever another runs
    && (forall t :: t in s.waiting && s.cur != Some(t) ==> t in s.asleep && s.asleep[t] == CvAddr(s.waiting[t]))
  }

  lemma InvSafe(s: State, init: seq<int>)
    requires Inv(s, init)
    ensures Safe(s, init)
  {
    hide ThreadOk;
    forall t | t in s.waiting && s.cur != Some(t)
      ensures t in s.asleep && s.asleep[t] == CvAddr(s.waiting[t])
    {
      WaiterSleeps(s, init, t);
    }
    forall t, n: nat | Open(s) && t in s.asleep && s.asleep[t] == SemAddr(n) && n < |s.count|
      ensures s.count[n] == 0
    {
      assert SemOk(s, init, n) && Sleeper(s, SemAddr(n));
    }
    forall t, l: nat | Open(s) && t in s.asleep && s.asleep[t] == LockAddr(l) && l < |s.holder|
      ensures s.holder[l] != None
    {
      assert LockOk(s, l) && Sleeper(s, LockAddr(l));
    }
    forall n | 0 <= n < |s.count|
      ensures s.count[n] == init[n] + s.vs[n] - s.ps[n] && s.count[n] >= 0
    {
      assert SemOk(s, init, n);
    }
  }

  lemma {:induction false} RunInv(run: seq<State>, steps: seq<Step>, init: seq<int>, i: nat)
    requires Run(run, steps) && Initial(run[0], init) && i < |run|
    ensures Inv(run[i], init)
  {
    hide Inv;
    hide Apply;
    hide Enabled;
    hide Initial;
    if i == 0 {
      InitialInv(run[0], init);
    } else {
      RunInv(run, steps, init, i - 1);
      StepKept(run[i - 1], init, steps[i - 1]);
      assert run[i - 1 + 1] == Apply(run[i - 1], steps[i - 1]);
    }
  }

  /** Every state of every run of any threads on any semaphores, locks and condition variables is safe. */
  lemma EveryRunSafe(run: seq<State>, steps: seq<Step>, init: seq<int>)
    requires Run(run, steps) && Initial(run[0], init)
    ensures forall i :: 0 <= i < |run| ==> Safe(run[i], init)
  {
    hide Inv;
    hide Safe;
    hide Run;
    hide Initial;
    forall i | 0 <= i < |run|
      ensures Safe(run[i], init)
    {
      RunInv(run, steps, init, i);
      InvSafe(run[i], init);
    }
  }

  /** No signal is lost: a broadcast wakes every thread that has let go of its lock to wait, and a signal wakes
      one of them if there is one. */
  lemma NoLostSignal(s: State, init: seq<int>, t: Tid, x: Tid, c: nat, l: nat, all: bool)
    requires Enabled(s, Micro(t, x)) && s.pc[t] == InSignal(c, l, SWake, all) && Inv(s, init)
    ensures var s' := Exec(s, t, x);
      if all then forall y :: y in s.waiting && s.waiting[y] == c ==> y !in s'.waiting && y !in s'.asleep
      else (exists y :: y in s.waiting && s.waiting[y] == c) ==>
        x in s.waiting && s.waiting[x] == c && s'.waiting == s.waiting - {x} && x !in s'.asleep
  {
    hide Inv;
    Own(s, init, t);
    forall y | y in s.waiting
      ensures y in s.asleep && s.asleep[y] == CvAddr(s.waiting[y])
    {
      WaiterSleeps(s, init, y);
    }
    if !all && x in s.asleep && s.asleep[x] == CvAddr(c) {
      AsleepWaits(s, init, x);
    }
  }

  lemma AsleepWaits(s: State, init: seq<int>, x: Tid)
    requires Inv(s, init) && x in s.asleep && s.asleep[x].CvAddr?
    ensures x in s.waiting && s.waiting[x] == s.asleep[x].n
  {
    assert ThreadOk(s, x);
    hide SemOk;
    hide LockOk;
  }
}
