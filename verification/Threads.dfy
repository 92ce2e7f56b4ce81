/** Threads and the scheduler (kern/thread/thread.c, kern/thread/scheduler.c), with the
    growable arrays of kern/lib/array.c. */
module Threads {
  import opened Options
  import opened Queues

  /** The room of an array of max after it was asked for n. */
  function Grown(max: nat, n: nat): nat
    decreases if n > max then n - max else 0
  {
    if n <= max then max else Grown((max + 1) * 2, n)
  }

  /** struct array. A NULL buffer is one of length 0. */
  class Arr {
    var num: nat
    var max: nat
    var v: seq<nat>

    ghost predicate Valid()
      reads this
    {
      num <= max == |v|
    }

    ghost function Contents(): seq<nat>
      requires Valid()
      reads this
    {
      v[..num]
    }

    /** array_create */
    constructor ()
      ensures Valid() && Contents() == [] && max == 0
    {
      v, num, max := [], 0, 0;
    }

    /** array_preallocate: always a new buffer, at least nguys long. */
    method Preallocate(nguys: nat, mem: bool) returns (res: Errno)
      requires Valid()
      modifies this
      ensures Valid() && Contents() == old(Contents()) && max >= old(max)
      ensures res == if mem then OK else ENOMEM
      ensures res == OK ==> max >= nguys && max == Grown(old(max), nguys)
    {
      var newmax := max;
      while nguys > newmax
        invariant newmax >= max && Grown(max, nguys) == Grown(newmax, nguys)
      {
        newmax := (newmax + 1) * 2;
      }
      if !mem {
        return ENOMEM;
      }
      var newv := seq(newmax, _ => 0);
      var i := 0;
      while i < num
        invariant 0 <= i <= num && |newv| == newmax && newv[..i] == v[..i]
      {
        newv := newv[i := v[i]];
        assert newv[..i + 1] == newv[..i] + [v[i]] && v[..i + 1] == v[..i] + [v[i]];
        i := i + 1;
      }
      max := newmax;
      v := newv;
      res := OK;
    }

    /** array_setsize; shrinking a large array to nothing frees its buffer. */
    method SetSize(nguys: nat, mem: bool) returns (res: Errno)
      requires Valid()
      modifies this
      ensures Valid() && res == if nguys <= old(max) || mem then OK else ENOMEM
      ensures res == OK ==> num == nguys && forall i :: 0 <= i < nguys && i < old(num) ==> v[i] == old(v[i])
      ensures res == ENOMEM ==> Contents() == old(Contents())
      ensures max >= old(max) || (nguys == 0 && old(max) > 16 && max == 0)
      ensures 0 < nguys <= old(max) ==> max == old(max)
    {
      if nguys > max {
        res := Preallocate(nguys, mem);
        if res != OK {
          return;
        }
        assert forall i :: 0 <= i < old(num) ==> v[i] == Contents()[i];
      } else if nguys == 0 && max > 16 {
        v := [];
        max := 0;
      }
      num := nguys;
      res := OK;
    }

    /** array_add */
    method Add(guy: nat, mem: bool) returns (res: Errno)
      requires Valid()
      modifies this
      ensures Valid() && res == if old(num < max) || mem then OK else ENOMEM
      ensures Contents() == if res == OK then old(Contents()) + [guy] else old(Contents())
      ensures max >= old(max)
    {
      var ix := num;
      res := SetSize(ix + 1, mem);
      if res != OK {
        return;
      }
      v := v[ix := guy];
      assert v[..num] == v[..ix] + [guy];
    }

    /** array_remove, with memmove. */
    method Remove(index: nat)
      requires Valid() && index < num
      modifies this
      ensures Valid() && max == old(max)
      ensures Contents() == old(Contents()[..index] + Contents()[index + 1..])
    {
      var nmove := num - (index + 1);
      v := v[..index] + v[index + 1..index + 1 + nmove] + v[index + nmove..];
      num := num - 1;
    }
  }

  // ---------------------------------------------------------- specification

  predicate On(addr: map<nat, nat>, t: nat, a: nat) {
    t in addr && addr[t] == a
  }

  /** The threads of list that sleep on a, and those that do not, in order. */
  function Matching(list: seq<nat>, addr: map<nat, nat>, a: nat): seq<nat> {
    if list == [] then []
    else if On(addr, list[0], a) then [list[0]] + Matching(list[1..], addr, a)
    else Matching(list[1..], addr, a)
  }

  function Others(list: seq<nat>, addr: map<nat, nat>, a: nat): seq<nat> {
    if list == [] then []
    else if On(addr, list[0], a) then Others(list[1..], addr, a)
    else [list[0]] + Others(list[1..], addr, a)
  }

  lemma FilterNone(addr: map<nat, nat>, a: nat)
    ensures Matching([], addr, a) == [] && Others([], addr, a) == []
  {
  }

  lemma {:induction false} MatchingAppend(list: seq<nat>, x: nat, addr: map<nat, nat>, a: nat)
    ensures Matching(list + [x], addr, a) == Matching(list, addr, a) + if On(addr, x, a) then [x] else []
  {
    hide On;
    if list == [] {
      assert ([] + [x])[1..] == [];
    } else {
      assert (list + [x])[1..] == list[1..] + [x];
      MatchingAppend(list[1..], x, addr, a);
    }
  }

  lemma {:induction false} OthersAppend(list: seq<nat>, x: nat, addr: map<nat, nat>, a: nat)
    ensures Others(list + [x], addr, a) == Others(list, addr, a) + if On(addr, x, a) then [] else [x]
  {
    hide On;
    if list == [] {
      assert ([] + [x])[1..] == [];
    } else {
      assert (list + [x])[1..] == list[1..] + [x];
      OthersAppend(list[1..], x, addr, a);
    }
  }

  /** Filtering splits a list without losing or inventing a thread. */
  lemma {:induction false} FilterParts(list: seq<nat>, addr: map<nat, nat>, a: nat)
    ensures multiset(list) == multiset(Matching(list, addr, a)) + multiset(Others(list, addr, a))
    ensures |Matching(list, addr, a)| + |Others(list, addr, a)| == |list|
  {
    hide On;
    if list != [] {
      assert list == [list[0]] + list[1..];
      FilterParts(list[1..], addr, a);
    }
  }

  /** What is filtered out is exactly what sleeps on a. */
  lemma {:induction false} FilterMeaning(list: seq<nat>, addr: map<nat, nat>, a: nat, t: nat)
    ensures t in Matching(list, addr, a) <==> t in list && On(addr, t, a)
    ensures t in Others(list, addr, a) <==> t in list && !On(addr, t, a)
  {
    hide On;
    if list != [] {
      assert list == [list[0]] + list[1..];
      FilterMeaning(list[1..], addr, a, t);
    }
  }

  function Seq(cur: Option<nat>): seq<nat> {
    if cur.Some? then [cur.value] else []
  }

  /** No thread is in two of the four states, or twice in one. */
  ghost predicate OneState(cur: Option<nat>, ready: seq<nat>, asleep: seq<nat>, dead: seq<nat>) {
    forall t :: Everyone(cur, ready, asleep, dead)[t] <= 1
  }

  ghost function Everyone(cur: Option<nat>, ready: seq<nat>, asleep: seq<nat>, dead: seq<nat>): multiset<nat> {
    multiset(Seq(cur)) + multiset(ready) + multiset(asleep) + multiset(dead)
  }

  lemma Reordered(cur: Option<nat>, ready: seq<nat>, asleep: seq<nat>, dead: seq<nat>,
                  cur': Option<nat>, ready': seq<nat>, asleep': seq<nat>, dead': seq<nat>)
    requires OneState(cur, ready, asleep, dead)
    requires Everyone(cur', ready', asleep', dead') <= Everyone(cur, ready, asleep, dead)
    ensures OneState(cur', ready', asleep', dead')
  {
  }

  lemma Forked(cur: Option<nat>, ready: seq<nat>, asleep: seq<nat>, dead: seq<nat>, x: nat)
    requires OneState(cur, ready, asleep, dead) && x !in Seq(cur) + ready + asleep + dead
    ensures OneState(cur, ready + [x], asleep, dead)
  {
    assert multiset(ready + [x]) == multiset(ready) + multiset{x};
    forall t
      ensures Everyone(cur, ready + [x], asleep, dead)[t] <= 1
    {
      assert Everyone(cur, ready, asleep, dead)[t] <= 1;
      assert x !in multiset(Seq(cur)) && x !in multiset(ready) && x !in multiset(asleep) && x !in multiset(dead);
    }
  }

  datatype Target = ToReady | ToSleep | ToZombie

  class ThreadSystem {
    /** curthread; None while the scheduler runs. */
    var cur: Option<nat>
    const runqueue: Queue
    const sleepers: Arr
    const zombies: Arr
    var numthreads: nat
    /** t_sleepaddr of each thread, 0 for NULL. */
    var sleepaddr: map<nat, nat>

    ghost function Ready(): seq<nat>
      requires runqueue.Valid()
      reads this, runqueue, runqueue.data
    {
      runqueue.Contents()
    }

    ghost function Asleep(): seq<nat>
      requires sleepers.Valid()
      reads this, sleepers
    {
      sleepers.Contents()
    }

    ghost function Dead(): seq<nat>
      requires zombies.Valid()
      reads this, zombies
    {
      zombies.Contents()
    }

    /** Every thread is in exactly one state, numthreads counts those that are not zombies, and the lists have
        room for that many. */
    ghost predicate Valid()
      reads this, runqueue, runqueue.data, sleepers, zombies
    {
      && runqueue.Valid() && sleepers.Valid() && zombies.Valid() && sleepers != zombies
      && OneState(cur, Ready(), Asleep(), Dead())
      && numthreads == |Seq(cur)| + |Ready()| + |Asleep()|
      && numthreads <= runqueue.size && (numthreads > 1 ==> numthreads <= sleepers.max)
    }

    /** thread_bootstrap and scheduler_bootstrap. */
    constructor (me: nat)
      ensures Valid() && cur == Some(me) && Ready() == [] && Asleep() == [] && Dead() == [] && numthreads == 1
      ensures runqueue.size == 32 && sleepaddr == map[me := 0]
      ensures fresh(runqueue) && fresh(runqueue.data) && fresh(sleepers) && fresh(zombies)
    {
      sleepers := new Arr();
      zombies := new Arr();
      runqueue := new Queue(32);
      cur := Some(me);
      numthreads := 1;
      sleepaddr := map[me := 0];
    }

    /** The part of thread_fork with interrupts off; each mem is the outcome of one kmalloc. */
    method Fork(newguy: nat, mem1: bool, mem2: bool, mem3: bool, mem4: bool) returns (res: Errno)
      requires Valid() && newguy !in Seq(cur) + Ready() + Asleep() + Dead()
      modifies this, runqueue, runqueue.data, sleepers, zombies
      ensures Valid() && cur == old(cur) && Asleep() == old(Asleep()) && Dead() == old(Dead())
      ensures runqueue.data == old(runqueue.data) || fresh(runqueue.data)
      ensures res == OK ==> Ready() == old(Ready()) + [newguy] && numthreads == old(numthreads) + 1
      ensures res != OK ==> Ready() == old(Ready()) && numthreads == old(numthreads)
      ensures sleepaddr == if res == OK then old(sleepaddr)[newguy := 0] else old(sleepaddr)
      ensures mem1 && mem2 && mem3 && mem4 ==> res == OK
      ensures res == OK ==> numthreads <= sleepers.max && numthreads <= zombies.max && numthreads <= runqueue.size
      ensures res == OK ==> sleepers.max == Grown(old(sleepers.max), numthreads)
      ensures res == OK ==> zombies.max == Grown(old(zombies.max), numthreads)
      ensures old(numthreads) < old(runqueue.size) && old(cur).Some? ==> runqueue.size == old(runqueue.size)
    {
      hide OneState;
      hide Grown;
      hide Ring;
      Forked(cur, Ready(), Asleep(), Dead(), newguy);
      res := sleepers.Preallocate(numthreads + 1, mem1);
      if res != OK {
        return;
      }
      res := zombies.Preallocate(numthreads + 1, mem2);
      if res != OK {
        return;
      }
      res := runqueue.Preallocate(numthreads + 1, mem3);
      if res != OK {
        return;
      }
      res := runqueue.AddTail(newguy, mem4);
      if res != OK {
        return;
      }
      sleepaddr := sleepaddr[newguy := 0];
      numthreads := numthreads + 1;
    }

    /** The list a switch puts the running thread on has no room left. */
    ghost predicate Cramped(next: Target)
      requires sleepers.Valid()
      reads this, runqueue, sleepers, zombies
    {
      match next
      case ToReady => numthreads == runqueue.size && Asleep() == []
      case ToSleep => sleepers.num == sleepers.max
      case ToZombie => zombies.num == zombies.max
    }

    /** The first half of mi_switch: the running thread goes on the list it is supposed to go on. !ok is a panic. */
    method Stash(next: Target, mem: bool) returns (ok: bool)
      requires Valid() && cur.Some?
      modifies this`cur, this`numthreads, runqueue, runqueue.data, sleepers, zombies
      ensures ok <==> mem || !old(Cramped(next))
      ensures ok ==> Valid() && cur == None
      ensures ok ==> numthreads == old(numthreads) - if next == ToZombie then 1 else 0
      ensures ok ==> Ready() == old(Ready()) + if next == ToReady then old(Seq(cur)) else []
      ensures ok ==> Asleep() == old(Asleep()) + if next == ToSleep then old(Seq(cur)) else []
      ensures ok ==> Dead() == old(Dead()) + if next == ToZombie then old(Seq(cur)) else []
      ensures runqueue.data == old(runqueue.data) || fresh(runqueue.data)
      ensures ok ==> (runqueue.size != old(runqueue.size) <==> next == ToReady && old(Cramped(next)))
    {
      hide OneState;
      hide Ring;
      ghost var ready, asleep, dead := Ready(), Asleep(), Dead();
      var me := cur.value;
      Stashed(me, ready, asleep, dead);
      cur := None;
      var result: Errno;
      if next == ToReady {
        result := runqueue.AddTail(me, mem);
      } else if next == ToSleep {
        result := sleepers.Add(me, mem);
      } else {
        numthreads := numthreads - 1;
        result := zombies.Add(me, mem);
      }
      ok := result == OK;
    }

    /** With more than one thread, going to sleep never fails. */
    lemma RoomToSleep()
      requires Valid() && cur.Some? && numthreads > 1
      ensures !Cramped(ToSleep)
    {
      assert |Asleep()| == sleepers.num;
    }

    /** The second half: scheduler() picks the next thread. */
    method Schedule()
      requires Valid() && cur == None && Ready() != []
      modifies this`cur, this`sleepaddr, runqueue
      ensures Valid() && cur == Some(old(Ready())[0]) && Ready() == old(Ready())[1..]
      ensures sleepaddr == old(sleepaddr)[cur.value := 0]
      ensures runqueue.size == old(runqueue.size) && runqueue.data == old(runqueue.data)
    {
      hide OneState;
      hide Ring;
      ghost var ready, asleep, dead := Ready(), Asleep(), Dead();
      var next := runqueue.RemHead();
      cur := Some(next);
      sleepaddr := sleepaddr[next := 0];
      assert ready == [next] + ready[1..];
      Reordered(None, ready, asleep, dead, cur, ready[1..], asleep, dead);
    }

    /** exorcise: buried are the threads that thread_destroy is called for. */
    method Exorcise() returns (buried: seq<nat>)
      requires Valid() && cur.Some?
      modifies zombies
      ensures Valid() && Dead() == [] && buried == old(Dead()) && cur.value !in buried
    {
      hide OneState;
      buried := [];
      var i := 0;
      while i < zombies.num
        invariant Valid() && zombies.Contents() == old(zombies.Contents()) && 0 <= i <= zombies.num
        invariant buried == old(zombies.Contents())[..i] && cur.value !in buried
      {
        assert zombies.v[i] != cur.value by {
          NotDead(cur, Ready(), Asleep(), Dead(), i);
        }
        buried := buried + [zombies.v[i]];
        i := i + 1;
      }
      ghost var ready, asleep, dead := Ready(), Asleep(), Dead();
      var result := zombies.SetSize(0, false);
      assert result == OK;
      Reordered(cur, ready, asleep, dead, cur, ready, asleep, []);
    }

    /** mi_switch. With nothing ready the processor idles and curthread stays NULL; called again meanwhile, it
        returns at once. The thread that runs next buries the zombies, unless it is a new one. */
    method MiSwitch(next: Target, mem: bool, newborn: bool) returns (ok: bool)
      requires Valid()
      modifies this, runqueue, runqueue.data, sleepers, zombies
      ensures ok <==> old(cur == None || mem || !Cramped(next))
      ensures ok ==> Valid()
      ensures ok ==> (runqueue.size != old(runqueue.size) <==> next == ToReady && old(cur.Some? && Cramped(next)))
      ensures old(cur) == None ==> cur == None && Ready() == old(Ready()) && numthreads == old(numthreads)
      ensures ok && old(cur).Some? ==>
        var ready := old(Ready()) + if next == ToReady then old(Seq(cur)) else [];
        if ready == [] then cur == None && Ready() == [] else cur == Some(ready[0]) && Ready() == ready[1..]
      ensures ok ==> Asleep() == old(Asleep()) + if next == ToSleep then old(Seq(cur)) else []
      ensures ok ==>
        Dead() == if cur.Some? && !newborn then [] else old(Dead()) + if next == ToZombie then old(Seq(cur)) else []
      ensures runqueue.data == old(runqueue.data) || fresh(runqueue.data)
      ensures forall t :: t in old(sleepaddr) && cur != Some(t) ==> t in sleepaddr && sleepaddr[t] == old(sleepaddr)[t]
    {
      hide OneState;
      hide Ring;
      ok := true;
      if cur == None {
        return;
      }
      ok := Stash(next, mem);
      if !ok {
        return;
      }
      var idle := runqueue.Empty();
      if !idle {
        Schedule();
        if !newborn {
          var buried := Exorcise();
        }
      }
    }

    /** thread_sleep, up to the switch. */
    method Sleep(addr: nat, mem: bool, newborn: bool) returns (ok: bool)
      requires Valid() && cur.Some?
      modifies this, runqueue, runqueue.data, sleepers, zombies
      ensures ok <==> mem || !old(Cramped(ToSleep))
      ensures ok ==> Valid() && Asleep() == old(Asleep()) + old(Seq(cur))
      ensures ok ==> old(Ready()) == Seq(cur) + Ready() && runqueue.size == old(runqueue.size)
      ensures ok ==> old(cur).value in sleepaddr && sleepaddr[old(cur).value] == addr
    {
      hide OneState;
      hide Ring;
      NotReady(cur.value, Ready(), Asleep(), Dead());
      sleepaddr := sleepaddr[cur.value := addr];
      ok := MiSwitch(ToSleep, mem, newborn);
    }

    /** The run queue has room for every thread but the last sleeper: the processor idles, and all others are ready. */
    ghost predicate Brimful()
      reads this, runqueue
    {
      cur == None && numthreads == runqueue.size
    }

    /** The body of the loop of thread_wakeup for a match at i; !ok is a panic. */
    method WakeAt(i: nat, mem: bool) returns (ok: bool)
      requires Valid() && i < sleepers.num
      modifies runqueue, runqueue.data, sleepers
      ensures ok <==> mem || !(old(Brimful()) && |old(Asleep())| == 1)
      ensures ok ==> Valid() && Ready() == old(Ready()) + [old(Asleep())[i]] && cur == old(cur)
      ensures ok ==> Asleep() == old(Asleep())[..i] + old(Asleep())[i + 1..]
      ensures runqueue.data == old(runqueue.data) || fresh(runqueue.data)
      ensures ok ==> (runqueue.size != old(runqueue.size) <==> old(Brimful()) && |old(Asleep())| == 1)
    {
      hide OneState;
      hide Ring;
      ghost var ready, asleep, dead := Ready(), Asleep(), Dead();
      Woken(cur, ready, asleep, dead, i);
      var t := sleepers.v[i];
      sleepers.Remove(i);
      var result := runqueue.AddTail(t, mem);
      ok := result == OK;
    }

    /** thread_wakeup: exactly the threads asleep on addr become ready, in the order in which they fell asleep. */
    method Wakeup(addr: nat, mem: bool) returns (ok: bool)
      requires Valid()
      modifies runqueue, runqueue.data, sleepers
      ensures ok <==>
        mem || !(old(Brimful()) && old(Asleep()) != [] && Others(old(Asleep()), sleepaddr, addr) == [])
      ensures ok ==> Valid() && cur == old(cur)
      ensures ok ==> Ready() == old(Ready()) + Matching(old(Asleep()), sleepaddr, addr)
      ensures ok ==> Asleep() == Others(old(Asleep()), sleepaddr, addr)
      ensures runqueue.data == old(runqueue.data) || fresh(runqueue.data)
    {
      hide OneState;
      hide Ring;
      hide On;
      hide Progress;
      ghost var list, ready := Asleep(), Ready();
      ghost var j := 0;
      WakeupStart(list, ready, sleepaddr, addr);
      var i := 0;
      while i < sleepers.num
        invariant Valid() && cur == old(cur) && numthreads == old(numthreads) && sleepaddr == old(sleepaddr)
        invariant runqueue.data == old(runqueue.data) || fresh(runqueue.data)
        invariant 0 <= j <= |list| && 0 <= i <= |Asleep()|
        invariant Progress(list, ready, sleepaddr, addr, j, Asleep(), i, Ready())
        invariant !mem ==> runqueue.size == old(runqueue.size)
        decreases |list| - j
      {
        WakeupStep(list, ready, sleepaddr, addr, j, Asleep(), i, Ready());
        var t := sleepers.v[i];
        if On(sleepaddr, t, addr) {
          LastOne(list, ready, sleepaddr, addr, j, Asleep(), i, Ready());
          ok := WakeAt(i, mem);
          if !ok {
            return;
          }
          i := i - 1;
        }
        i := i + 1;
        j := j + 1;
      }
      WakeupDone(list, ready, sleepaddr, addr, j, Asleep(), i, Ready());
      RingFull(runqueue.data[..], runqueue.nextread, runqueue.nextwrite);
      ok := true;
    }

    /** thread_wakeup_one: the first thread asleep on addr, if there is one. */
    method WakeupOne(addr: nat, mem: bool) returns (ok: bool)
      requires Valid()
      modifies runqueue, runqueue.data, sleepers
      ensures ok ==> Valid() && cur == old(cur)
      ensures ok <==>
        mem || !(old(Brimful()) && |old(Asleep())| == 1 && Matching(old(Asleep()), sleepaddr, addr) != [])
      ensures ok ==>
        var m := Matching(old(Asleep()), sleepaddr, addr);
        if m == [] then Ready() == old(Ready()) && Asleep() == old(Asleep())
        else Ready() == old(Ready()) + [m[0]] && exists i ::
          0 <= i < |old(Asleep())| && old(Asleep())[i] == m[0]
          && Asleep() == old(Asleep())[..i] + old(Asleep())[i + 1..]
      ensures runqueue.data == old(runqueue.data) || fresh(runqueue.data)
    {
      hide OneState;
      hide Ring;
      ghost var list := Asleep();
      var i := 0;
      while i < sleepers.num
        invariant Valid() && cur == old(cur) && Asleep() == list && Ready() == old(Ready()) && 0 <= i <= |list|
        invariant runqueue.data == old(runqueue.data) && runqueue.size == old(runqueue.size)
        invariant Matching(list, sleepaddr, addr) == Matching(list[i..], sleepaddr, addr)
        decreases |list| - i
      {
        assert list[i..] == [list[i]] + list[i + 1..];
        var t := sleepers.v[i];
        if On(sleepaddr, t, addr) {
          ok := WakeAt(i, mem);
          return;
        }
        i := i + 1;
      }
      assert list[i..] == [];
      ok := true;
    }
  }

  /** Preallocation in thread_fork is one short: with 32 threads, all of them ready, a thread that yields needs
      memory after all. */
  method YieldFails() returns (ok: bool)
    ensures !ok
  {
    hide Grown;
    hide OneState;
    hide Ring;
    var sys := new ThreadSystem(0);
    var i := 1;
    while i < 32
      invariant 1 <= i <= 32 && sys.Valid() && sys.numthreads == i && sys.cur == Some(0) && sys.runqueue.size == 32
      invariant sys.Asleep() == [] && sys.Dead() == [] && forall t :: t in sys.Ready() ==> t < i
      invariant fresh(sys) && fresh(sys.runqueue) && fresh(sys.runqueue.data)
      invariant fresh(sys.sleepers) && fresh(sys.zombies)
    {
      var res := sys.Fork(i, true, true, true, true);
      i := i + 1;
    }
    ok := sys.MiSwitch(ToReady, false, false);
  }

  lemma NotReady(me: nat, ready: seq<nat>, asleep: seq<nat>, dead: seq<nat>)
    requires OneState(Some(me), ready, asleep, dead)
    ensures me !in ready && me !in asleep
  {
    assert Everyone(Some(me), ready, asleep, dead)[me] <= 1;
    assert me in ready ==> multiset(ready)[me] >= 1;
    assert me in asleep ==> multiset(asleep)[me] >= 1;
  }

  lemma Woken(cur: Option<nat>, ready: seq<nat>, asleep: seq<nat>, dead: seq<nat>, i: nat)
    requires OneState(cur, ready, asleep, dead) && i < |asleep|
    ensures OneState(cur, ready + [asleep[i]], asleep[..i] + asleep[i + 1..], dead)
  {
    hide OneState;
    assert asleep == asleep[..i] + [asleep[i]] + asleep[i + 1..];
    Reordered(cur, ready, asleep, dead, cur, ready + [asleep[i]], asleep[..i] + asleep[i + 1..], dead);
  }

  /** After j turns of the loop of thread_wakeup: what is left of the sleepers before and from position i, and
      the run queue. */
  ghost predicate Progress(list: seq<nat>, ready0: seq<nat>, addr: map<nat, nat>, a: nat,
                           j: nat, left: seq<nat>, i: nat, ready: seq<nat>)
  {
    && j <= |list| && i <= |left| && left[..i] == Others(list[..j], addr, a) && left[i..] == list[j..]
    && ready == ready0 + Matching(list[..j], addr, a)
  }

  lemma WakeupStart(list: seq<nat>, ready: seq<nat>, addr: map<nat, nat>, a: nat)
    ensures Progress(list, ready, addr, a, 0, list, 0, ready)
  {
    FilterNone(addr, a);
  }

  /** One turn of the loop, whether or not sleeper i of what is left matches. */
  lemma WakeupStep(list: seq<nat>, ready0: seq<nat>, addr: map<nat, nat>, a: nat,
                   j: nat, left: seq<nat>, i: nat, ready: seq<nat>)
    requires Progress(list, ready0, addr, a, j, left, i, ready) && i < |left|
    ensures j < |list|
    ensures if On(addr, left[i], a)
            then Progress(list, ready0, addr, a, j + 1, left[..i] + left[i + 1..], i, ready + [left[i]])
            else Progress(list, ready0, addr, a, j + 1, left, i + 1, ready)
  {
    hide On;
    hide Matching;
    hide Others;
    assert left[i] == left[i..][0] == list[j..][0];
    assert list[..j + 1] == list[..j] + [list[j]];
    MatchingAppend(list[..j], list[j], addr, a);
    OthersAppend(list[..j], list[j], addr, a);
    assert left[i + 1..] == left[i..][1..] && list[j + 1..] == list[j..][1..];
    assert left[..i + 1] == left[..i] + [left[i]];
  }

  /** The last sleeper is woken only after all the others were. */
  lemma LastOne(list: seq<nat>, ready0: seq<nat>, addr: map<nat, nat>, a: nat,
                j: nat, left: seq<nat>, i: nat, ready: seq<nat>)
    requires Progress(list, ready0, addr, a, j, left, i, ready) && i < |left| && On(addr, left[i], a)
    ensures |left| == 1 ==> Others(list, addr, a) == [] && list != []
  {
    hide On;
    hide Matching;
    if |left| == 1 {
      assert left[..i] == [] && |left[i..]| == 1;
      assert left[i] == left[i..][0] == list[j..][0];
      assert list == list[..j] + [left[i]];
      OthersAppend(list[..j], left[i], addr, a);
    }
  }

  lemma WakeupDone(list: seq<nat>, ready0: seq<nat>, addr: map<nat, nat>, a: nat,
                   j: nat, left: seq<nat>, i: nat, ready: seq<nat>)
    requires Progress(list, ready0, addr, a, j, left, i, ready) && i >= |left|
    ensures left == Others(list, addr, a) && ready == ready0 + Matching(list, addr, a)
  {
    assert left[i..] == [] && left[..i] == left;
    assert list[..j] == list;
  }

  lemma Stashed(me: nat, ready: seq<nat>, asleep: seq<nat>, dead: seq<nat>)
    requires OneState(Some(me), ready, asleep, dead)
    ensures OneState(None, ready + [me], asleep, dead)
    ensures OneState(None, ready, asleep + [me], dead)
    ensures OneState(None, ready, asleep, dead + [me])
  {
    hide OneState;
    Reordered(Some(me), ready, asleep, dead, None, ready + [me], asleep, dead);
    Reordered(Some(me), ready, asleep, dead, None, ready, asleep + [me], dead);
    Reordered(Some(me), ready, asleep, dead, None, ready, asleep, dead + [me]);
  }

  lemma NotDead(cur: Option<nat>, ready: seq<nat>, asleep: seq<nat>, dead: seq<nat>, i: nat)
    requires OneState(cur, ready, asleep, dead) && cur.Some? && i < |dead|
    ensures dead[i] != cur.value
  {
    assert Everyone(cur, ready, asleep, dead)[dead[i]] <= 1;
    assert multiset(dead)[dead[i]] >= 1;
  }
}
