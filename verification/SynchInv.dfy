/** What every step of the synchronization primitives keeps. */
module SynchInv {
  import opened Options
  import opened Synch

  /** A thread may sleep on a only at the statement that tests again, or in cv_wait. */
  predicate SleepsAt(pc: Pc, a: Addr) {
    match a
    case SemAddr(n) => pc == InP(n, PTest)
    case LockAddr(n) => pc.InAcquire? && pc.l == n && pc.q == ATest
    case CvAddr(n) => pc.InWait? && pc.c == n && pc.w == WWoken
  }

  /** Where a thread that was asleep goes on. */
  predicate Resumes(pc: Pc) {
    || (pc.InP? && pc.p == PTest)
    || (pc.InAcquire? && pc.q == ATest)
    || (pc.InWait? && pc.w == WWoken)
  }

  /** The thread is between letting go of its lock in cv_wait and falling asleep. */
  predicate Leaving(pc: Pc) {
    || (pc.InRelease? && pc.ret.Wait? && (pc.r == RWake || pc.r == RSplx))
    || (pc.InWait? && pc.w == WSleep)
  }

  function LeavingFor(pc: Pc): nat
    requires Leaving(pc)
  {
    if pc.InRelease? then pc.ret.c else pc.c
  }

  /** The primitive at pc works on a lock the thread holds. */
  predicate NeedsLock(pc: Pc) {
    || (pc.InRelease? && (pc.r == RSpl || pc.r == RClear))
    || (pc.InWait? && (pc.w == WSpl || pc.w == WSplx))
    || pc.InSignal?
    || (pc.InAcquire? && pc.q == ASplx)
  }

  function LockOf(pc: Pc): nat
    requires NeedsLock(pc)
  {
    match pc
    case InRelease(l, r, ret) => l
    case InWait(c, l, w) => l
    case InSignal(c, l, g, all) => l
    case InAcquire(l, q, ret) => l
  }

  /** A release under way is outside the client's critical section. */
  predicate GivesUp(pc: Pc) {
    || (pc.InRelease? && (pc.r == RSpl || pc.r == RClear))
    || (pc.InWait? && pc.w == WSpl)
  }

  predicate LocksRight(s: State, t: Tid, pc: Pc) {
    && InRange(s, pc)
    && (NeedsLock(pc) ==> s.holder[LockOf(pc)] == Some(t))
    && (GivesUp(pc) ==> (t, LockOf(pc)) !in s.inside)
  }

  /** A thread that does not run was preempted with interrupts on, sleeps, or was woken. */
  predicate ModeRight(s: State, t: Tid, pc: Pc) {
    if t in s.asleep then s.cur != Some(t) && SleepsAt(pc, s.asleep[t])
    else s.cur == Some(t) || !Off(pc) || Resumes(pc)
  }

  predicate WaitRight(s: State, t: Tid, pc: Pc) {
    && (t in s.waiting <==> (t in s.asleep && s.asleep[t].CvAddr?) || Leaving(pc))
    && (t in s.waiting && Leaving(pc) ==> s.waiting[t] == LeavingFor(pc))
    && (t in s.waiting && t in s.asleep && s.asleep[t].CvAddr? ==> s.waiting[t] == s.asleep[t].n)
  }

  /** The assertion at pc, if there is one, will hold. */
  predicate TestRight(s: State, pc: Pc) {
    && (pc.InP? && pc.p == PTake ==> pc.s < |s.count| && s.count[pc.s] > 0)
    && (pc.InV? && pc.v == VWake ==> pc.s < |s.count| && s.count[pc.s] > 0)
    && (pc.InAcquire? && pc.q == ATake ==> pc.l < |s.holder| && s.holder[pc.l] == None)
  }

  predicate ThreadOk(s: State, t: Tid)
    requires t in s.pc
  {
    LocksRight(s, t, s.pc[t]) && ModeRight(s, t, s.pc[t]) && WaitRight(s, t, s.pc[t])
  }

  ghost predicate Shape(s: State, init: seq<int>) {
    && |s.count| == |s.ps| == |s.vs| == |init|
    && (s.cur.Some? ==> s.cur.value in s.pc && TestRight(s, s.pc[s.cur.value]))
    && (forall t :: t in s.asleep ==> t in s.pc) && (forall t :: t in s.waiting ==> t in s.pc)
    && (forall l :: 0 <= l < |s.holder| && s.holder[l].Some? ==> s.holder[l].value in s.pc)
    && (forall t, l :: (t, l) in s.inside ==> l < |s.holder| && s.holder[l] == Some(t))
  }

  ghost predicate Sleeper(s: State, a: Addr) {
    exists t :: t in s.asleep && s.asleep[t] == a
  }

  predicate CurAt(s: State, pc: Pc) {
    s.cur.Some? && s.cur.value in s.pc && s.pc[s.cur.value] == pc
  }

  /** A semaphore's count is its initial value plus Vs minus Ps, and nobody sleeps on a positive count except
      while the V that raised it is about to wake them. */
  ghost predicate SemOk(s: State, init: seq<int>, n: nat)
    requires n < |s.count| && n < |s.ps| && n < |s.vs| && n < |init|
  {
    && s.count[n] == init[n] + s.vs[n] - s.ps[n] && s.count[n] >= 0
    && (s.count[n] > 0 && Sleeper(s, SemAddr(n)) ==> CurAt(s, InV(n, VWake)))
  }

  predicate CurReleasing(s: State, l: nat) {
    && s.cur.Some? && s.cur.value in s.pc && s.pc[s.cur.value].InRelease?
    && s.pc[s.cur.value].l == l && s.pc[s.cur.value].r == RWake
  }

  /** Nobody sleeps on a lock without a holder except while its release is about to wake them. */
  ghost predicate LockOk(s: State, l: nat)
    requires l < |s.holder|
  {
    s.holder[l] == None && Sleeper(s, LockAddr(l)) ==> CurReleasing(s, l)
  }

  ghost predicate Inv(s: State, init: seq<int>) {
    && !s.panic && Shape(s, init)
    && (forall t :: t in s.pc ==> ThreadOk(s, t))
    && (forall n: nat :: n < |s.count| ==> SemOk(s, init, n))
    && (forall l: nat :: l < |s.holder| ==> LockOk(s, l))
  }

  // ------------------------------------------------------ one step, in general

  /** How a step of t may change what concerns another thread x. */
  ghost predicate Aside(s: State, s': State, x: Tid) {
    && x in s.pc && x in s'.pc && s'.pc[x] == s.pc[x]
    && (x in s'.asleep ==> x in s.asleep && s'.asleep[x] == s.asleep[x])
    && (x in s.asleep && x !in s'.asleep && s.asleep[x].CvAddr? ==> x !in s'.waiting)
    && (x !in s.asleep || x in s'.asleep || !s.asleep[x].CvAddr? ==>
         (x in s'.waiting <==> x in s.waiting) && (x in s.waiting ==> s'.waiting[x] == s.waiting[x]))
    && |s'.count| == |s.count| && |s'.ps| == |s.ps| && |s'.vs| == |s.vs| && |s'.holder| == |s.holder|
    && (forall l :: 0 <= l < |s.holder| && s.holder[l] == Some(x) ==> s'.holder[l] == Some(x))
    && (forall l :: (x, l) in s'.inside ==> (x, l) in s.inside)
  }

  lemma OthersOk(s: State, s': State, x: Tid)
    requires x in s.pc && Aside(s, s', x) && ThreadOk(s, x)
    requires s.cur != Some(x) && s'.cur != Some(x)
    ensures ThreadOk(s', x)
  {
    var pc := s.pc[x];
    assert NeedsLock(pc) ==> LockOf(pc) < |s.holder|;
  }

  /** Everything about the other threads, for a step of t. */
  ghost predicate AllAside(s: State, s': State, t: Tid) {
    && t in s.pc && s'.pc.Keys == s.pc.Keys
    && forall x :: x in s.pc && x != t ==> Aside(s, s', x)
  }

  lemma ThreadsOk(s: State, s': State, t: Tid)
    requires (forall x :: x in s.pc ==> ThreadOk(s, x)) && AllAside(s, s', t)
    requires s.cur == Some(t) && (s'.cur == Some(t) || s'.cur == None) && ThreadOk(s', t)
    ensures forall x :: x in s'.pc ==> ThreadOk(s', x)
  {
    hide ThreadOk;
    hide Aside;
    forall x | x in s'.pc && x != t
      ensures ThreadOk(s', x)
    {
      OthersOk(s, s', x);
    }
  }

  /** The parts of the invariant that do not speak of single threads. */
  ghost predicate Rest(s: State, init: seq<int>) {
    && !s.panic && Shape(s, init)
    && (forall n: nat :: n < |s.count| ==> SemOk(s, init, n))
    && (forall l: nat :: l < |s.holder| ==> LockOk(s, l))
  }

  lemma Kept(s: State, s': State, init: seq<int>, t: Tid)
    requires Inv(s, init) && s.cur == Some(t) && AllAside(s, s', t) && (s'.cur == Some(t) || s'.cur == None)
    requires ThreadOk(s', t) && Rest(s', init)
    ensures Inv(s', init)
  {
    hide ThreadOk;
    hide Shape;
    hide SemOk;
    hide LockOk;
    hide AllAside;
    ThreadsOk(s, s', t);
  }

  /** What the invariant says of the running thread. */
  lemma Own(s: State, init: seq<int>, t: Tid)
    requires Inv(s, init) && s.cur == Some(t)
    ensures t in s.pc && ThreadOk(s, t) && TestRight(s, s.pc[t]) && t !in s.asleep && !s.panic
    ensures |s.count| == |s.ps| == |s.vs| == |init|
    ensures s.pc[t].InP? || s.pc[t].InV? ==> s.pc[t].s < |s.count| && s.count[s.pc[t].s] >= 0
    ensures t in s.waiting <==> Leaving(s.pc[t])
  {
    assert ThreadOk(s, t);
    hide ThreadOk;
    hide LockOk;
    hide TestRight;
    if s.pc[t].InP? || s.pc[t].InV? {
      assert SemOk(s, init, s.pc[t].s);
    }
  }

  // ------------------------------------------------------------- plain steps

  ghost predicate Waking(pc: Pc) {
    (pc.InV? && pc.v == VWake) || (pc.InRelease? && pc.r == RWake)
  }

  /** A step that only moves on, or enters or leaves a client's critical section. */
  lemma PlainKept(s: State, s': State, init: seq<int>, t: Tid)
    requires s.cur == Some(t) && t in s.pc && t in s'.pc && s' == Go(s, t, s'.pc[t]).(inside := s'.inside)
    requires !Waking(s.pc[t]) && TestRight(s', s'.pc[t])
    requires LocksRight(s', t, s'.pc[t]) && (Leaving(s'.pc[t]) <==> Leaving(s.pc[t]))
    requires Leaving(s'.pc[t]) ==> LeavingFor(s'.pc[t]) == LeavingFor(s.pc[t])
    requires forall x, l :: (x, l) in s'.inside ==>
      (x, l) in s.inside || (x == t && l < |s.holder| && s.holder[l] == Some(t))
    requires Inv(s, init)
    ensures Inv(s', init)
  {
    Own(s, init, t);
    PlainAside(s, s', t);
    PlainRest(s, s', init, t);
    Kept(s, s', init, t);
  }

  lemma PlainAside(s: State, s': State, t: Tid)
    requires t in s.pc && t in s'.pc && s' == Go(s, t, s'.pc[t]).(inside := s'.inside)
    requires forall x, l :: (x, l) in s'.inside ==>
      (x, l) in s.inside || (x == t && l < |s.holder| && s.holder[l] == Some(t))
    ensures AllAside(s, s', t)
  {
  }

  lemma PlainRest(s: State, s': State, init: seq<int>, t: Tid)
    requires s.cur == Some(t) && t in s.pc && t in s'.pc && s' == Go(s, t, s'.pc[t]).(inside := s'.inside)
    requires !Waking(s.pc[t]) && TestRight(s', s'.pc[t])
    requires forall x, l :: (x, l) in s'.inside ==>
      (x, l) in s.inside || (x == t && l < |s.holder| && s.holder[l] == Some(t))
    requires Rest(s, init)
    ensures Rest(s', init)
  {
    hide TestRight;
    forall n: nat | n < |s'.count|
      ensures SemOk(s', init, n)
    {
      assert SemOk(s, init, n);
      assert Sleeper(s', SemAddr(n)) ==> Sleeper(s, SemAddr(n));
    }
    forall l: nat | l < |s'.holder|
      ensures LockOk(s', l)
    {
      assert LockOk(s, l);
      assert Sleeper(s', LockAddr(l)) ==> Sleeper(s, LockAddr(l));
    }
  }

  // ---------------------------------------------------------- going to sleep

  /** thread_sleep, from P, from lock_acquire or from cv_wait. */
  lemma SleepKept(s: State, init: seq<int>, t: Tid, a: Addr, pc: Pc)
    requires s.cur == Some(t) && t in s.pc && !Waking(s.pc[t]) && SleepsAt(pc, a) && InRange(s, pc)
    requires Leaving(s.pc[t]) <==> a.CvAddr?
    requires a.CvAddr? ==> LeavingFor(s.pc[t]) == a.n
    requires a.SemAddr? ==> a.n < |s.count| && s.count[a.n] == 0
    requires a.LockAddr? ==> a.n < |s.holder| && s.holder[a.n] != None
    requires Inv(s, init)
    ensures Inv(Sleep(s, t, a, pc), init)
  {
    var s' := Sleep(s, t, a, pc);
    Own(s, init, t);
    SleepAside(s, t, a, pc);
    SleepRest(s, init, t, a, pc);
    SleepOk(s, t, a, pc);
    Kept(s, s', init, t);
  }

  lemma SleepOk(s: State, t: Tid, a: Addr, pc: Pc)
    requires t in s.pc && t !in s.asleep && SleepsAt(pc, a) && InRange(s, pc) && ThreadOk(s, t)
    requires Leaving(s.pc[t]) <==> a.CvAddr?
    requires a.CvAddr? ==> LeavingFor(s.pc[t]) == a.n
    ensures ThreadOk(Sleep(s, t, a, pc), t)
  {
  }

  lemma SleepAside(s: State, t: Tid, a: Addr, pc: Pc)
    requires t in s.pc
    ensures AllAside(s, Sleep(s, t, a, pc), t)
  {
  }

  lemma SleepRest(s: State, init: seq<int>, t: Tid, a: Addr, pc: Pc)
    requires s.cur == Some(t) && t in s.pc && !Waking(s.pc[t])
    requires a.SemAddr? ==> a.n < |s.count| && s.count[a.n] == 0
    requires a.LockAddr? ==> a.n < |s.holder| && s.holder[a.n] != None
    requires Rest(s, init)
    ensures Rest(Sleep(s, t, a, pc), init)
  {
    var s' := Sleep(s, t, a, pc);
    hide TestRight;
    forall b: Addr | b != a
      ensures Sleeper(s', b) ==> Sleeper(s, b)
    {
    }
    forall n: nat | n < |s'.count|
      ensures SemOk(s', init, n)
    {
      assert SemOk(s, init, n);
    }
    forall l: nat | l < |s'.holder|
      ensures LockOk(s', l)
    {
      assert LockOk(s, l);
    }
  }

  // -------------------------------------------------------------- semaphores

  /** The end of P: the assertion holds and the count goes down. */
  lemma TakeKept(s: State, init: seq<int>, t: Tid, n: nat)
    requires s.cur == Some(t) && t in s.pc && s.pc[t] == InP(n, PTake)
    requires Inv(s, init)
    ensures n < |s.count| && n < |s.ps| && s.count[n] > 0
    ensures Inv(Go(s, t, InP(n, PSplx)).(count := s.count[n := s.count[n] - 1], ps := s.ps[n := s.ps[n] + 1]), init)
  {
    hide Inv;
    hide Rest;
    hide AllAside;
    Split(s, init);
    Own(s, init, t);
    var s' := Go(s, t, InP(n, PSplx)).(count := s.count[n := s.count[n] - 1], ps := s.ps[n := s.ps[n] + 1]);
    CountAside(s, s', t);
    CountRest(s, s', init, t, n, -1);
    Kept(s, s', init, t);
  }

  /** V raises the count. */
  lemma IncKept(s: State, init: seq<int>, t: Tid, n: nat)
    requires s.cur == Some(t) && t in s.pc && s.pc[t] == InV(n, VInc)
    requires Inv(s, init)
    ensures n < |s.count| && n < |s.vs|
    ensures Inv(Go(s, t, InV(n, VWake)).(count := s.count[n := s.count[n] + 1], vs := s.vs[n := s.vs[n] + 1]), init)
  {
    hide Inv;
    hide Rest;
    hide AllAside;
    Split(s, init);
    Own(s, init, t);
    var s' := Go(s, t, InV(n, VWake)).(count := s.count[n := s.count[n] + 1], vs := s.vs[n := s.vs[n] + 1]);
    CountAside(s, s', t);
    CountRest(s, s', init, t, n, 1);
    Kept(s, s', init, t);
  }

  lemma CountAside(s: State, s': State, t: Tid)
    requires t in s.pc && t in s'.pc && s' == Go(s, t, s'.pc[t]).(count := s'.count, ps := s'.ps, vs := s'.vs)
    requires |s'.count| == |s.count| && |s'.ps| == |s.ps| && |s'.vs| == |s.vs|
    ensures AllAside(s, s', t)
  {
  }

  lemma CountRest(s: State, s': State, init: seq<int>, t: Tid, n: nat, d: int)
    requires s.cur == Some(t) && t in s.pc && !Waking(s.pc[t])
    requires n < |s.count| && n < |s.ps| && n < |s.vs| && t in s'.pc
    requires s' == Go(s, t, s'.pc[t]).(count := s.count[n := s.count[n] + d], ps := s'.ps, vs := s'.vs)
    requires d == 1 || d == -1
    requires d == 1 ==> s'.ps == s.ps && s'.vs == s.vs[n := s.vs[n] + 1] && s'.pc[t] == InV(n, VWake)
    requires d == -1 ==> s'.vs == s.vs && s'.ps == s.ps[n := s.ps[n] + 1] && s.count[n] > 0 && s'.pc[t] == InP(n, PSplx)
    requires Rest(s, init)
    ensures Rest(s', init)
  {
    assert SemOk(s, init, n);
    forall m: nat | m < |s'.count|
      ensures SemOk(s', init, m)
    {
      assert SemOk(s, init, m);
      assert Sleeper(s', SemAddr(m)) ==> Sleeper(s, SemAddr(m));
    }
    forall l: nat | l < |s'.holder|
      ensures LockOk(s', l)
    {
      assert LockOk(s, l);
      assert Sleeper(s', LockAddr(l)) ==> Sleeper(s, LockAddr(l));
    }
  }

  // ------------------------------------------------------------------ waking

  /** thread_wakeup at the end of V or of lock_release. */
  lemma WakeKept(s: State, init: seq<int>, t: Tid, a: Addr, pc: Pc)
    requires s.cur == Some(t) && t in s.pc
    requires
      || (s.pc[t].InV? && s.pc[t].v == VWake && a == SemAddr(s.pc[t].s) && pc == InV(s.pc[t].s, VSplx))
      || (s.pc[t].InRelease? && s.pc[t].r == RWake && a == LockAddr(s.pc[t].l)
          && pc == InRelease(s.pc[t].l, RSplx, s.pc[t].ret))
    requires Inv(s, init)
    ensures Inv(Go(s, t, pc).(asleep := Wakeup(s.asleep, a)), init)
  {
    hide Inv;
    hide Rest;
    hide AllAside;
    hide ThreadOk;
    hide Wakeup;
    var s' := Go(s, t, pc).(asleep := Wakeup(s.asleep, a));
    Own(s, init, t);
    WakeAside(s, t, a, pc);
    Split(s, init);
    WakeRest(s, init, t, a, pc);
    WakeOwn(s, t, a, pc);
    Kept(s, s', init, t);
  }

  lemma Split(s: State, init: seq<int>)
    requires Inv(s, init)
    ensures Rest(s, init)
  {
  }

  lemma WakeOwn(s: State, t: Tid, a: Addr, pc: Pc)
    requires t in s.pc && t !in s.asleep && s.cur == Some(t) && ThreadOk(s, t)
    requires
      || (s.pc[t].InV? && s.pc[t].v == VWake && pc == InV(s.pc[t].s, VSplx))
      || (s.pc[t].InRelease? && s.pc[t].r == RWake && pc == InRelease(s.pc[t].l, RSplx, s.pc[t].ret))
    ensures ThreadOk(Go(s, t, pc).(asleep := Wakeup(s.asleep, a)), t)
  {
    var asleep := Wakeup(s.asleep, a);
    assert t !in asleep;
    hide Wakeup;
  }

  lemma WakeAside(s: State, t: Tid, a: Addr, pc: Pc)
    requires t in s.pc && !a.CvAddr?
    ensures AllAside(s, Go(s, t, pc).(asleep := Wakeup(s.asleep, a)), t)
  {
  }

  lemma WakeRest(s: State, init: seq<int>, t: Tid, a: Addr, pc: Pc)
    requires s.cur == Some(t) && t in s.pc && TestRight(s, pc)
    requires
      || (s.pc[t].InV? && s.pc[t].v == VWake && a == SemAddr(s.pc[t].s))
      || (s.pc[t].InRelease? && s.pc[t].r == RWake && a == LockAddr(s.pc[t].l))
    requires Rest(s, init)
    ensures Rest(Go(s, t, pc).(asleep := Wakeup(s.asleep, a)), init)
  {
    var s' := Go(s, t, pc).(asleep := Wakeup(s.asleep, a));
    hide TestRight;
    assert !Sleeper(s', a);
    forall b: Addr
      ensures Sleeper(s', b) ==> Sleeper(s, b)
    {
    }
    forall n: nat | n < |s'.count|
      ensures SemOk(s', init, n)
    {
      assert SemOk(s, init, n);
    }
    forall l: nat | l < |s'.holder|
      ensures LockOk(s', l)
    {
      assert LockOk(s, l);
    }
    assert TestRight(s', pc) by {
      TestSame(s, s', pc);
    }
  }

  lemma TestSame(s: State, s': State, pc: Pc)
    requires TestRight(s, pc) && s'.count == s.count && s'.holder == s.holder
    ensures TestRight(s', pc)
  {
  }

  // ------------------------------------------------------------------- locks

  /** The end of lock_acquire: the assertion holds and the lock is taken. */
  lemma GetKept(s: State, init: seq<int>, t: Tid, l: nat, ret: Ret)
    requires s.cur == Some(t) && t in s.pc && s.pc[t] == InAcquire(l, ATake, ret)
    requires Inv(s, init)
    ensures l < |s.holder| && s.holder[l] == None
    ensures Inv(Go(s, t, InAcquire(l, ASplx, ret)).(holder := s.holder[l := Some(t)]), init)
  {
    hide Inv;
    hide Rest;
    hide AllAside;
    Own(s, init, t);
    var s' := Go(s, t, InAcquire(l, ASplx, ret)).(holder := s.holder[l := Some(t)]);
    HolderAside(s, s', t, l);
    Split(s, init);
    HolderRest(s, s', init, t, l);
    Kept(s, s', init, t);
  }

  /** The middle of lock_release: the assertion holds and the lock is free. */
  lemma ClearKept(s: State, init: seq<int>, t: Tid, l: nat, ret: Ret)
    requires s.cur == Some(t) && t in s.pc && s.pc[t] == InRelease(l, RClear, ret)
    requires Inv(s, init)
    ensures l < |s.holder| && s.holder[l] == Some(t)
    ensures var waiting := if ret.Wait? then s.waiting[t := ret.c] else s.waiting;
      Inv(Go(s, t, InRelease(l, RWake, ret)).(holder := s.holder[l := None], waiting := waiting), init)
  {
    hide Inv;
    hide Rest;
    hide AllAside;
    Own(s, init, t);
    var s' := Go(s, t, InRelease(l, RWake, ret)).(holder := s.holder[l := None],
                                                 waiting := if ret.Wait? then s.waiting[t := ret.c] else s.waiting);
    HolderAside(s, s', t, l);
    Split(s, init);
    HolderRest(s, s', init, t, l);
    Kept(s, s', init, t);
  }

  lemma HolderAside(s: State, s': State, t: Tid, l: nat)
    requires t in s.pc && l < |s.holder| && t in s'.pc
    requires s' == Go(s, t, s'.pc[t]).(holder := s'.holder, waiting := s'.waiting)
    requires s'.waiting == s.waiting || (t in s'.waiting && s'.waiting == s.waiting[t := s'.waiting[t]])
    requires
      || (s'.holder == s.holder[l := Some(t)] && s.holder[l] == None)
      || (s'.holder == s.holder[l := None] && s.holder[l] == Some(t))
    ensures AllAside(s, s', t)
  {
  }

  lemma HolderRest(s: State, s': State, init: seq<int>, t: Tid, l: nat)
    requires s.cur == Some(t) && t in s.pc && !Waking(s.pc[t]) && l < |s.holder| && t in s'.pc
    requires s' == Go(s, t, s'.pc[t]).(holder := s'.holder, waiting := s'.waiting)
    requires s'.waiting.Keys <= s.waiting.Keys + {t}
    requires
      || (s'.holder == s.holder[l := Some(t)] && s.holder[l] == None)
      || (s'.holder == s.holder[l := None] && s.holder[l] == Some(t) && (t, l) !in s.inside && s'.pc[t].InRelease?
          && s'.pc[t].l == l && s'.pc[t].r == RWake)
    requires TestRight(s', s'.pc[t])
    requires Rest(s, init)
    ensures Rest(s', init)
  {
    hide TestRight;
    forall n: nat | n < |s'.count|
      ensures SemOk(s', init, n)
    {
      assert SemOk(s, init, n);
      assert Sleeper(s', SemAddr(n)) ==> Sleeper(s, SemAddr(n));
    }
    forall k: nat | k < |s'.holder|
      ensures LockOk(s', k)
    {
      assert LockOk(s, k);
      assert Sleeper(s', LockAddr(k)) ==> Sleeper(s, LockAddr(k));
    }
  }

  // ----------------------------------------------------- condition variables

  /** A thread that let go of its lock to wait, and does not run, is asleep: no signal can miss it. */
  lemma WaiterSleeps(s: State, init: seq<int>, x: Tid)
    requires Inv(s, init) && x in s.waiting && s.cur != Some(x)
    ensures x in s.asleep && s.asleep[x] == CvAddr(s.waiting[x])
  {
    assert x in s.pc;
    assert ThreadOk(s, x);
    LeavingOff(s.pc[x]);
    hide Leaving;
    hide Off;
    hide Resumes;
    hide SemOk;
    hide LockOk;
  }

  lemma LeavingOff(pc: Pc)
    ensures Leaving(pc) ==> Off(pc) && !Resumes(pc) && forall a: Addr :: !SleepsAt(pc, a)
  {
  }

  lemma SignalKept(s: State, s': State, init: seq<int>, t: Tid, c: nat, l: nat, all: bool)
    requires s.cur == Some(t) && t in s.pc && s.pc[t] == InSignal(c, l, SWake, all)
    requires s' == Go(s, t, InSignal(c, l, SSplx, all)).(asleep := s'.asleep, waiting := s'.waiting)
    requires
      || (s'.asleep == Wakeup(s.asleep, CvAddr(c)) && s'.waiting == Unwait(s.waiting, c))
      || (exists x ::
            x in s.asleep && s.asleep[x] == CvAddr(c) && s'.asleep == s.asleep - {x} && s'.waiting == s.waiting - {x})
      || (s'.asleep == s.asleep && s'.waiting == s.waiting)
    requires Inv(s, init)
    ensures Inv(s', init)
  {
    hide Inv;
    hide Rest;
    hide AllAside;
    Own(s, init, t);
    Split(s, init);
    SignalAside(s, s', init, t, c);
    SignalRest(s, s', init, t);
    Kept(s, s', init, t);
  }

  lemma SignalAside(s: State, s': State, init: seq<int>, t: Tid, c: nat)
    requires s.cur == Some(t) && t in s.pc && t in s'.pc
    requires s' == Go(s, t, s'.pc[t]).(asleep := s'.asleep, waiting := s'.waiting)
    requires
      || (s'.asleep == Wakeup(s.asleep, CvAddr(c)) && s'.waiting == Unwait(s.waiting, c))
      || (exists x ::
            x in s.asleep && s.asleep[x] == CvAddr(c) && s'.asleep == s.asleep - {x} && s'.waiting == s.waiting - {x})
      || (s'.asleep == s.asleep && s'.waiting == s.waiting)
    requires Inv(s, init)
    ensures AllAside(s, s', t)
  {
    hide Inv;
    forall y | y in s.pc && y != t
      ensures Aside(s, s', y)
    {
      if y in s.waiting {
        WaiterSleeps(s, init, y);
      } else {
        SleeperWaits(s, init, y);
      }
    }
  }

  lemma SleeperWaits(s: State, init: seq<int>, y: Tid)
    requires Inv(s, init) && y in s.pc && y !in s.waiting
    ensures y in s.asleep ==> !s.asleep[y].CvAddr?
  {
    assert ThreadOk(s, y);
    hide SemOk;
    hide LockOk;
  }

  lemma SignalRest(s: State, s': State, init: seq<int>, t: Tid)
    requires s.cur == Some(t) && t in s.pc && t in s'.pc
    requires s' == Go(s, t, s'.pc[t]).(asleep := s'.asleep, waiting := s'.waiting)
    requires !Waking(s.pc[t]) && TestRight(s', s'.pc[t])
    requires forall x :: x in s'.asleep ==> x in s.asleep && s'.asleep[x] == s.asleep[x]
    requires forall x :: x in s'.waiting ==> x in s.waiting
    requires Rest(s, init)
    ensures Rest(s', init)
  {
    hide TestRight;
    forall b: Addr
      ensures Sleeper(s', b) ==> Sleeper(s, b)
    {
    }
    forall n: nat | n < |s'.count|
      ensures SemOk(s', init, n)
    {
      assert SemOk(s, init, n);
    }
    forall l: nat | l < |s'.holder|
      ensures LockOk(s', l)
    {
      assert LockOk(s, l);
    }
  }

  // --------------------------------------------------------------- switching

  lemma PreemptKept(s: State, init: seq<int>)
    requires Enabled(s, Preempt) && Inv(s, init)
    ensures Inv(s.(cur := None), init)
  {
    var s' := s.(cur := None);
    var t := s.cur.value;
    assert ThreadOk(s, t);
    forall x | x in s'.pc
      ensures ThreadOk(s', x)
    {
      assert ThreadOk(s, x);
    }
    SwitchRest(s, s', init);
  }

  lemma DispatchKept(s: State, init: seq<int>, t: Tid)
    requires Enabled(s, Dispatch(t)) && Inv(s, init)
    ensures Inv(s.(cur := Some(t)), init)
  {
    var s' := s.(cur := Some(t));
    forall x | x in s'.pc
      ensures ThreadOk(s', x)
    {
      assert ThreadOk(s, x);
    }
    ReadyTests(s, init, t);
    SwitchRest(s, s', init);
  }

  /** A thread that waits to be scheduled is at no assertion. */
  lemma ReadyTests(s: State, init: seq<int>, t: Tid)
    requires Inv(s, init) && s.cur == None && t in s.pc && t !in s.asleep
    ensures TestRight(s, s.pc[t]) && !Waking(s.pc[t])
  {
    assert ThreadOk(s, t);
    hide SemOk;
    hide LockOk;
  }

  lemma SwitchRest(s: State, s': State, init: seq<int>)
    requires s' == s.(cur := s'.cur) && Rest(s, init)
    requires s.cur.Some? ==> s.cur.value in s.pc && !Waking(s.pc[s.cur.value])
    requires s'.cur.Some? ==> s'.cur.value in s.pc && TestRight(s, s.pc[s'.cur.value])
    ensures Rest(s', init)
  {
    forall b: Addr
      ensures Sleeper(s', b) ==> Sleeper(s, b)
    {
    }
    forall n: nat | n < |s'.count|
      ensures SemOk(s', init, n)
    {
      assert SemOk(s, init, n);
    }
    forall l: nat | l < |s'.holder|
      ensures LockOk(s', l)
    {
      assert LockOk(s, l);
    }
  }
}
