/** Semaphores, locks and condition variables (kern/thread/synch.c) on one processor,
    as a transition system. Each statement of a primitive is a step. The running
    thread may be preempted between any two steps while interrupts are enabled, and
    gives up the processor with interrupts disabled only by going to sleep. Any
    thread that is awake may be scheduled next. */
module Synch {
  import opened Options

  type Tid = nat

  /** The sleep addresses: a semaphore, a lock or a condition variable. */
  datatype Addr = SemAddr(n: nat) | LockAddr(n: nat) | CvAddr(n: nat)

  /** What a primitive goes back to: the client, or cv_wait on a condition variable. */
  datatype Ret = Client | Wait(c: nat)

  datatype Pc =
    | Idle
    | InP(s: nat, p: PPc)
    | InV(s: nat, v: VPc)
    | InAcquire(l: nat, q: APc, ret: Ret)
    | InRelease(l: nat, r: RPc, ret: Ret)
    | InWait(c: nat, l: nat, w: WPc)
    | InSignal(c: nat, l: nat, g: SPc, all: bool)

  datatype PPc = PSpl | PTest | PTake | PSplx
  datatype VPc = VSpl | VInc | VWake | VSplx
  datatype APc = ASpl | ATest | ATake | ASplx
  datatype RPc = RSpl | RClear | RWake | RSplx
  datatype WPc = WSpl | WSleep | WWoken | WSplx
  datatype SPc = SSpl | SWake | SSplx

  /** A call a client makes. */
  datatype Op =
    | P(s: nat) | V(s: nat)
    | Acquire(l: nat) | Release(l: nat)
    | CvWait(c: nat, l: nat) | CvSignal(c: nat, l: nat, all: bool)

  datatype State = State(
    cur: Option<Tid>,
    pc: map<Tid, Pc>,
    /** The sleeping threads, each with its sleep address. */
    asleep: map<Tid, Addr>,
    count: seq<int>,
    holder: seq<Option<Tid>>,
    /** Completed Ps and Vs of each semaphore. */
    ps: seq<nat>, vs: seq<nat>,
    /** The threads that have let go of their lock in cv_wait and have not been signalled, each with its
        condition variable. */
    waiting: map<Tid, nat>,
    /** The threads that are back from lock_acquire or cv_wait, with the lock they got. */
    inside: set<(Tid, nat)>,
    /** An assertion of synch.c failed. */
    panic: bool)

  /** Interrupts are disabled when a thread is at pc. */
  predicate Off(pc: Pc) {
    match pc
    case Idle => false
    case InP(s, p) => p != PSpl
    case InV(s, v) => v != VSpl
    case InAcquire(l, q, ret) => q != ASpl || ret.Wait?
    case InRelease(l, r, ret) => r != RSpl || ret.Wait?
    case InWait(c, l, w) => w != WSpl
    case InSignal(c, l, g, all) => g != SSpl
  }

  function Go(s: State, t: Tid, pc: Pc): State {
    s.(pc := s.pc[t := pc])
  }

  function Fail(s: State): State {
    s.(panic := true)
  }

  /** thread_sleep: the thread goes on at pc when it is next scheduled. */
  function Sleep(s: State, t: Tid, a: Addr, pc: Pc): State {
    Go(s, t, pc).(asleep := s.asleep[t := a], cur := None)
  }

  /** thread_wakeup */
  function Wakeup(asleep: map<Tid, Addr>, a: Addr): map<Tid, Addr> {
    map t | t in asleep && asleep[t] != a :: asleep[t]
  }

  function Unwait(waiting: map<Tid, nat>, c: nat): map<Tid, nat> {
    map t | t in waiting && waiting[t] != c :: waiting[t]
  }

  predicate InRange(s: State, pc: Pc) {
    match pc
    case Idle => true
    case InP(n, p) => n < |s.count| == |s.ps|
    case InV(n, v) => n < |s.count| == |s.vs|
    case InAcquire(l, q, ret) => l < |s.holder|
    case InRelease(l, r, ret) => l < |s.holder|
    case InWait(c, l, w) => l < |s.holder|
    case InSignal(c, l, g, all) => l < |s.holder|
  }

  function ExecP(s: State, t: Tid, n: nat, p: PPc): State
    requires n < |s.count| == |s.ps|
  {
    match p
    case PSpl => Go(s, t, InP(n, PTest))
    case PTest => if s.count[n] == 0 then Sleep(s, t, SemAddr(n), InP(n, PTest)) else Go(s, t, InP(n, PTake))
    case PTake =>
      if s.count[n] <= 0 then Fail(s)
      else Go(s, t, InP(n, PSplx)).(count := s.count[n := s.count[n] - 1], ps := s.ps[n := s.ps[n] + 1])
    case PSplx => Go(s, t, Idle)
  }

  function ExecV(s: State, t: Tid, n: nat, v: VPc): State
    requires n < |s.count| == |s.vs|
  {
    match v
    case VSpl => Go(s, t, InV(n, VInc))
    case VInc => Go(s, t, InV(n, VWake)).(count := s.count[n := s.count[n] + 1], vs := s.vs[n := s.vs[n] + 1])
    case VWake =>
      if s.count[n] <= 0 then Fail(s) else Go(s, t, InV(n, VSplx)).(asleep := Wakeup(s.asleep, SemAddr(n)))
    case VSplx => Go(s, t, Idle)
  }

  function ExecAcquire(s: State, t: Tid, l: nat, q: APc, ret: Ret): State
    requires l < |s.holder|
  {
    match q
    case ASpl => Go(s, t, InAcquire(l, ATest, ret))
    case ATest =>
      if s.holder[l] != None then Sleep(s, t, LockAddr(l), InAcquire(l, ATest, ret))
      else Go(s, t, InAcquire(l, ATake, ret))
    case ATake =>
      if s.holder[l] != None then Fail(s) else Go(s, t, InAcquire(l, ASplx, ret)).(holder := s.holder[l := Some(t)])
    case ASplx =>
      if ret.Client? then Go(s, t, Idle).(inside := s.inside + {(t, l)})
      else Go(s, t, InWait(ret.c, l, WSplx))
  }

  function ExecRelease(s: State, t: Tid, l: nat, r: RPc, ret: Ret): State
    requires l < |s.holder|
  {
    match r
    case RSpl => if s.holder[l] == None then Fail(s) else Go(s, t, InRelease(l, RClear, ret))
    case RClear =>
      if s.holder[l] != Some(t) then Fail(s)
      else Go(s, t, InRelease(l, RWake, ret)).(holder := s.holder[l := None],
                                              waiting := if ret.Wait? then s.waiting[t := ret.c] else s.waiting)
    case RWake => Go(s, t, InRelease(l, RSplx, ret)).(asleep := Wakeup(s.asleep, LockAddr(l)))
    case RSplx => if ret.Client? then Go(s, t, Idle) else Go(s, t, InWait(ret.c, l, WSleep))
  }

  function ExecWait(s: State, t: Tid, c: nat, l: nat, w: WPc): State {
    match w
    case WSpl => Go(s, t, InRelease(l, RSpl, Wait(c)))
    case WSleep => Sleep(s, t, CvAddr(c), InWait(c, l, WWoken))
    case WWoken => Go(s, t, InAcquire(l, ASpl, Wait(c)))
    case WSplx => Go(s, t, Idle).(inside := s.inside + {(t, l)})
  }

  /** x is the sleeper that thread_wakeup_one finds. */
  function ExecSignal(s: State, t: Tid, x: Tid, c: nat, l: nat, g: SPc, all: bool): State
    requires l < |s.holder|
  {
    match g
    case SSpl => if s.holder[l] != Some(t) then Fail(s) else Go(s, t, InSignal(c, l, SWake, all))
    case SWake =>
      if all
      then Go(s, t, InSignal(c, l, SSplx, all)).(asleep := Wakeup(s.asleep, CvAddr(c)), waiting := Unwait(s.waiting, c))
      else if x in s.asleep && s.asleep[x] == CvAddr(c) then
        Go(s, t, InSignal(c, l, SSplx, all)).(asleep := s.asleep - {x}, waiting := s.waiting - {x})
      else Go(s, t, InSignal(c, l, SSplx, all))
    case SSplx => Go(s, t, Idle)
  }

  /** One step of the running thread inside a primitive. */
  function Exec(s: State, t: Tid, x: Tid): State
    requires t in s.pc && InRange(s, s.pc[t])
  {
    match s.pc[t]
    case Idle => s
    case InP(n, p) => ExecP(s, t, n, p)
    case InV(n, v) => ExecV(s, t, n, v)
    case InAcquire(l, q, ret) => ExecAcquire(s, t, l, q, ret)
    case InRelease(l, r, ret) => ExecRelease(s, t, l, r, ret)
    case InWait(c, l, w) => ExecWait(s, t, c, l, w)
    case InSignal(c, l, g, all) => ExecSignal(s, t, x, c, l, g, all)
  }

  /** A client calls a primitive; it releases, waits and signals only with a lock it holds. */
  predicate MayCall(s: State, t: Tid, op: Op) {
    match op
    case P(n) => n < |s.count|
    case V(n) => n < |s.count|
    case Acquire(l) => l < |s.holder|
    case Release(l) => l < |s.holder| && s.holder[l] == Some(t)
    case CvWait(c, l) => l < |s.holder| && s.holder[l] == Some(t)
    case CvSignal(c, l, all) => l < |s.holder| && s.holder[l] == Some(t)
  }

  function Invoke(s: State, t: Tid, op: Op): State {
    match op
    case P(n) => Go(s, t, InP(n, PSpl))
    case V(n) => Go(s, t, InV(n, VSpl))
    case Acquire(l) => Go(s, t, InAcquire(l, ASpl, Client))
    case Release(l) => Go(s, t, InRelease(l, RSpl, Client)).(inside := s.inside - {(t, l)})
    case CvWait(c, l) => Go(s, t, InWait(c, l, WSpl)).(inside := s.inside - {(t, l)})
    case CvSignal(c, l, all) => Go(s, t, InSignal(c, l, SSpl, all))
  }

  datatype Step = Call(t: Tid, op: Op) | Micro(t: Tid, x: Tid) | Preempt | Dispatch(t: Tid)

  ghost predicate Enabled(s: State, step: Step) {
    && !s.panic
    && match step
       case Call(t, op) => s.cur == Some(t) && t in s.pc && s.pc[t] == Idle && MayCall(s, t, op)
       case Micro(t, x) =>
         && s.cur == Some(t) && t in s.pc && s.pc[t] != Idle && InRange(s, s.pc[t])
         && ((exists y :: y in s.asleep && s.pc[t].InSignal? && s.asleep[y] == CvAddr(s.pc[t].c)) ==>
              x in s.asleep && s.asleep[x] == CvAddr(s.pc[t].c))
       case Preempt => s.cur.Some? && s.cur.value in s.pc && !Off(s.pc[s.cur.value])
       case Dispatch(t) => s.cur == None && t in s.pc && t !in s.asleep
  }

  ghost function Apply(s: State, step: Step): State
    requires Enabled(s, step)
  {
    match step
    case Call(t, op) => Invoke(s, t, op)
    case Micro(t, x) => Exec(s, t, x)
    case Preempt => s.(cur := None)
    case Dispatch(t) => s.(cur := Some(t))
  }

  /** Threads all idle, no lock held, each semaphore at its initial count. */
  predicate Initial(s: State, init: seq<int>) {
    && s.cur == None && (forall t :: t in s.pc ==> s.pc[t] == Idle)
    && s.asleep == map[] && s.waiting == map[] && s.inside == {}
    && s.count == init && (forall n :: 0 <= n < |init| ==> init[n] >= 0)
    && (forall l :: 0 <= l < |s.holder| ==> s.holder[l] == None)
    && |s.ps| == |init| && |s.vs| == |init| && (forall n :: 0 <= n < |init| ==> s.ps[n] == 0 && s.vs[n] == 0)
    && !s.panic
  }

  ghost predicate Run(run: seq<State>, steps: seq<Step>) {
    && |run| == |steps| + 1
    && forall i :: 0 <= i < |steps| ==> Enabled(run[i], steps[i]) && run[i + 1] == Apply(run[i], steps[i])
  }
}
