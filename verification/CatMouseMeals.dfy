/** What the cats and mice get out of the protocol, read off a run: every meal, and every call to those who wait. */
module CatMouseMeals {
  import opened Options
  import opened CatMouse
  import opened CatMouseInv
  import opened CatMouseSafe

  // ------------------------------------------------------------------------ meals

  function One(b: bool): nat {
    if b then 1 else 0
  }

  /** The step from s to s' ends a meal of a: cat_eat or mouse_eat returns. */
  predicate EndsMeal(s: State, s': State, a: Animal) {
    a in s.pc && a in s'.pc && Eats(s.pc[a]) && !Eats(s'.pc[a])
  }

  /** How many meals a has had in the first i steps. */
  function Meals(run: seq<State>, i: nat, a: Animal): nat
    requires i < |run|
  {
    if i == 0 then 0 else Meals(run, i - 1, a) + One(EndsMeal(run[i - 1], run[i], a))
  }

  /** The animal has eaten in the present round. */
  predicate Fed(pc: Pc) {
    pc.Returning? || pc.Leaving?
  }

  /** Meals keep pace with rounds. */
  ghost predicate Even(s: State, s': State, a: Animal) {
    && a in s.pc && a in s.rounds && a in s'.pc && a in s'.rounds
    && One(EndsMeal(s, s', a)) + s.rounds[a] + One(Fed(s.pc[a])) == s'.rounds[a] + One(Fed(s'.pc[a]))
  }

  /** What a step of a does to the animals and their rounds. */
  ghost predicate Acts(s: State, s': State, a: Animal) {
    && Moves(s.pc, s'.pc, a) && Even(s, s', a)
    && (s'.rounds == s.rounds || (a in s.rounds && s'.rounds == s.rounds[a := s.rounds[a] + 1]))
    && Sectioned(s, s', a)
  }

  /** What a step of a does to EatingMutex and Serving. */
  ghost predicate Sectioned(s: State, s': State, a: Animal) {
    && a in s.pc && a in s'.pc
    && (|| s'.serving == s.serving
        || (s.pc[a] == Entering(Serve) && s'.pc[a] == Entering(Call) && s'.serving > s.serving)
        || (s.pc[a] == Leaving(Reset) && s'.pc[a] == Leaving(CallOthers) && s'.serving <= s.serving))
    && (s'.serving != s.serving ==> s'.eatLock == s.eatLock)
    && (!HoldsEat(s.pc[a]) && !WantsEat(s.pc[a]) && !Asleep(s.pc[a]) ==>
          s'.eatLock == s.eatLock && s'.pc[a] != Entering(EnterWait))
  }

  lemma OtherEven(s: State, s': State, a: Animal, x: Animal)
    requires Acts(s, s', x) && a in s.pc && a in s.rounds && a != x
    ensures Even(s, s', a)
  {
  }

  lemma GoTo(s: State, s': State, a: Animal)
    requires a in s.pc && (s'.pc == s.pc || (a in s'.pc && s'.pc == s.pc[a := s'.pc[a]]))
    ensures Moves(s.pc, s'.pc, a)
  {
  }

  lemma EnterActs(s: State, a: Animal, e: EnterPc)
    requires a in s.pc && a in s.rounds && s.pc[a] == Entering(e)
    ensures Acts(s, ActEnter(s, a, e), a)
  {
    hide Moves;
    hide WakeEnter;
    var s' := ActEnter(s, a, e);
    if e == Call && s.eatLock == Some(a) {
      WakeMoves(s, a, a.sp, Entering(EnterDone));
    } else {
      GoTo(s, s', a);
    }
  }

  lemma ChooseActs(s: State, a: Animal, c: BowlPc)
    requires a in s.pc && a in s.rounds && s.pc[a] == Choosing(c)
    ensures Acts(s, ActChoose(s, a, c), a)
  {
    hide Moves;
    GoTo(s, ActChoose(s, a, c), a);
  }

  lemma DineActs(s: State, a: Animal, b: nat, eating: bool)
    requires a in s.pc && a in s.rounds && s.pc[a] == Dining(b, eating)
    ensures Acts(s, ActDine(s, a, b, eating), a)
  {
    hide Moves;
    GoTo(s, ActDine(s, a, b, eating), a);
  }

  lemma ReturnActs(s: State, a: Animal, w: Animal, r: ReturnPc)
    requires a in s.pc && a in s.rounds && s.pc[a] == Returning(r)
    ensures Acts(s, ActReturn(s, a, w, r), a)
  {
    hide Moves;
    if r == Signal && s.bowlLock == Some(a) && w in s.pc && s.pc[w] == Choosing(BowlWait) {
      SignalMoves(s, a, w, Returning(ReturnDone));
    } else {
      GoTo(s, ActReturn(s, a, w, r), a);
    }
  }

  lemma LeaveActs(s: State, p: Setup, a: Animal, l: LeavePc)
    requires a in s.pc && a in s.rounds && s.pc[a] == Leaving(l)
    ensures Acts(s, ActLeave(s, p, a, l), a)
  {
    hide Moves;
    hide WakeEnter;
    if l == CallOthers && s.eatLock == Some(a) {
      WakeMoves(s, a, Other(a.sp), Leaving(LeaveDone));
    } else {
      GoTo(s, ActLeave(s, p, a, l), a);
    }
  }

  lemma ActActs(s: State, p: Setup, a: Animal, w: Animal)
    requires a in s.pc && a in s.rounds && s.pc[a] != Unborn && s.pc[a] != Finished
    ensures Acts(s, Act(s, p, a, w), a)
  {
    hide ActEnter;
    hide ActChoose;
    hide ActDine;
    hide ActReturn;
    hide ActLeave;
    hide Moves;
    match s.pc[a]
    case Napping => GoMoves(s, a, Entering(EnterWant));
    case Entering(e) => EnterActs(s, a, e);
    case Choosing(c) => ChooseActs(s, a, c);
    case Dining(b, eating) => DineActs(s, a, b, eating);
    case Returning(r) => ReturnActs(s, a, w, r);
    case Leaving(l) => LeaveActs(s, p, a, l);
    case Finishing => GoMoves(s, a, Finished);
  }

  lemma DriveEven(s: State, p: Setup, a: Animal)
    requires Inv(s, p) && DriverEnabled(s, p) && a in s.pc
    ensures Even(s, Drive(s, p), a)
  {
    hide LocksOk;
    hide CountsOk;
    hide OneSpecies;
    hide OrderOk;
    hide BowlsOk;
    hide PlatesOk;
    hide SignalsOk;
    hide RoundsOk;
  }

  lemma NextEven(s: State, s': State, p: Setup, a: Animal)
    requires Inv(s, p) && Next(s, s', p) && a in s.pc
    ensures Even(s, s', a)
  {
    hide Act;
    hide Drive;
    hide DriverEnabled;
    hide Even;
    if x: Animal, w: Animal :| Enabled(s, x, w) && s' == Act(s, p, x, w) {
      ActActs(s, p, x, w);
      if x != a {
        OtherEven(s, s', a, x);
      }
    } else {
      DriveEven(s, p, a);
    }
  }

  /** An animal has had a meal in every round it has finished, and one in the present round once it is past eating. */
  lemma {:induction false} MealsEven(p: Setup, run: seq<State>, i: nat, a: Animal)
    requires p.loops > 0 && Run(p, run) && i < |run| && IsAnimal(p, a)
    ensures a in run[i].pc && a in run[i].rounds
    ensures Meals(run, i, a) == run[i].rounds[a] + One(Fed(run[i].pc[a]))
  {
    hide Inv;
    hide Next;
    RunInv(p, run, i);
    Shaped(run[i], p);
    if i > 0 {
      MealsEven(p, run, i - 1, a);
      RunInv(p, run, i - 1);
      assert Next(run[i - 1], run[i - 1 + 1], p);
      NextEven(run[i - 1], run[i], p, a);
    }
  }

  lemma Shaped(s: State, p: Setup)
    requires Inv(s, p)
    ensures Shape(s, p)
  {
  }

  /** The bowls are cleaned up only after every animal has had as many meals as asked. */
  lemma EveryoneFed(p: Setup, run: seq<State>, i: nat, a: Animal)
    requires p.loops > 0 && Run(p, run) && i < |run| && run[i].driver.CleanedUp? && IsAnimal(p, a)
    ensures Meals(run, i, a) == p.loops
  {
    hide Next;
    MealsEven(p, run, i, a);
    RunInv(p, run, i);
    AllOver(run[i], p);
  }

  // ------------------------------------------------------------------------ calls

  /** No animal of species sp is asleep waiting to enter. */
  ghost predicate NoneWaits(pc: map<Animal, Pc>, sp: Species) {
    forall x :: x in pc && x.sp == sp ==> pc[x] != Entering(EnterWait)
  }

  /** Animal a, in its section of EatingMutex, is about to call species sp or has called it. */
  ghost predicate OnCall(s: State, a: Animal, sp: Species) {
    && a in s.pc && s.eatLock == Some(a)
    && (|| (s.pc[a] == Entering(Call) && sp == a.sp)
        || (s.pc[a] == Leaving(CallOthers) && sp == Other(a.sp))
        || ((s.pc[a] == Entering(EnterDone) || s.pc[a] == Leaving(LeaveDone)) && NoneWaits(s.pc, sp)))
  }

  /** The animal holds EatingMutex until it has called. */
  lemma OnCallStep(s: State, s': State, p: Setup, a: Animal, sp: Species)
    requires Inv(s, p) && Next(s, s', p) && OnCall(s, a, sp)
    ensures if s'.eatLock == Some(a) then OnCall(s', a, sp) else NoneWaits(s'.pc, sp)
  {
    hide Act;
    hide Drive;
    hide DriverEnabled;
    LocksPart(s, p);
    hide Inv;
    if x: Animal, w: Animal :| Enabled(s, x, w) && s' == Act(s, p, x, w) {
      if x == a {
        OwnCall(s, p, a, w, sp);
      } else {
        ActActs(s, p, x, w);
        OtherCall(s, p, x, w, a, sp);
      }
    } else {
      DriveCall(s, p, a, sp);
    }
  }

  lemma LocksPart(s: State, p: Setup)
    requires Inv(s, p)
    ensures LocksOk(s) && !s.panic
  {
  }

  lemma OwnCall(s: State, p: Setup, a: Animal, w: Animal, sp: Species)
    requires Enabled(s, a, w) && OnCall(s, a, sp)
    ensures var s' := Act(s, p, a, w);
      if s'.eatLock == Some(a) then OnCall(s', a, sp) else NoneWaits(s'.pc, sp)
  {
  }

  lemma OtherCall(s: State, p: Setup, x: Animal, w: Animal, a: Animal, sp: Species)
    requires Enabled(s, x, w) && x != a && LocksOk(s) && OnCall(s, a, sp) && Acts(s, Act(s, p, x, w), x)
    ensures var s' := Act(s, p, x, w);
      s'.eatLock == Some(a) && OnCall(s', a, sp)
  {
    hide Even;
    hide Act;
    hide HoldsEat;
    hide HoldsBowl;
  }

  lemma DriveCall(s: State, p: Setup, a: Animal, sp: Species)
    requires Inv(s, p) && DriverEnabled(s, p) && OnCall(s, a, sp)
    ensures OnCall(Drive(s, p), a, sp)
  {
    hide LocksOk;
    hide CountsOk;
    hide OneSpecies;
    hide OrderOk;
    hide BowlsOk;
    hide PlatesOk;
    hide SignalsOk;
    hide RoundsOk;
  }

  /** Animal a holds EatingMutex from after step k until it is free at j. */
  ghost predicate Section(run: seq<State>, k: nat, j: nat, a: Animal) {
    k + 1 < j < |run| && (forall m :: k < m < j ==> run[m].eatLock == Some(a)) && run[j].eatLock == None
  }

  lemma {:induction false} Called(p: Setup, run: seq<State>, k: nat, j: nat, m: nat, a: Animal, sp: Species)
    requires p.loops > 0 && Run(p, run) && Section(run, k, j, a) && k < m <= j
    requires OnCall(run[k + 1], a, sp)
    ensures if m < j then OnCall(run[m], a, sp) else NoneWaits(run[m].pc, sp)
  {
    hide Inv;
    hide Next;
    hide OnCall;
    hide NoneWaits;
    if m > k + 1 {
      Called(p, run, k, j, m - 1, a, sp);
      RunInv(p, run, m - 1);
      assert Next(run[m - 1], run[m - 1 + 1], p);
      OnCallStep(run[m - 1], run[m], p, a, sp);
    }
  }

  /** An animal that lets the next number in has woken all of its own species before it gives up EatingMutex. */
  lemma NextIsCalled(p: Setup, run: seq<State>, k: nat, j: nat, a: Animal)
    requires p.loops > 0 && Run(p, run) && Section(run, k, j, a) && run[k].serving < run[k + 1].serving
    ensures NoneWaits(run[j].pc, a.sp)
  {
    hide Inv;
    assert Next(run[k], run[k + 1], p);
    RunInv(p, run, k);
    LocksPart(run[k], p);
    ServingRises(run[k], run[k + 1], p, a);
    Called(p, run, k, j, j, a, a.sp);
  }

  lemma ServingRises(s: State, s': State, p: Setup, a: Animal)
    requires Next(s, s', p) && LocksOk(s) && s.serving < s'.serving && s'.eatLock == Some(a)
    ensures OnCall(s', a, a.sp)
  {
    hide HoldsBowl;
    hide Act;
    hide Even;
    if x: Animal, w: Animal :| Enabled(s, x, w) && s' == Act(s, p, x, w) {
      ActActs(s, p, x, w);
      hide Moves;
    }
  }

  /** The last animal out, which sets Serving back, has woken all of the other species before it gives up
      EatingMutex. */
  lemma OthersAreCalled(p: Setup, run: seq<State>, k: nat, j: nat, a: Animal)
    requires p.loops > 0 && Run(p, run) && Section(run, k, j, a) && run[k].serving > run[k + 1].serving
    ensures NoneWaits(run[j].pc, Other(a.sp))
  {
    hide Inv;
    assert Next(run[k], run[k + 1], p);
    RunInv(p, run, k);
    LocksPart(run[k], p);
    ServingFalls(run[k], run[k + 1], p, a);
    Called(p, run, k, j, j, a, Other(a.sp));
  }

  lemma ServingFalls(s: State, s': State, p: Setup, a: Animal)
    requires Next(s, s', p) && LocksOk(s) && s.serving > s'.serving && s'.eatLock == Some(a)
    ensures OnCall(s', a, Other(a.sp))
  {
    hide HoldsBowl;
    hide Act;
    hide Even;
    if x: Animal, w: Animal :| Enabled(s, x, w) && s' == Act(s, p, x, w) {
      ActActs(s, p, x, w);
      hide Moves;
    }
  }
}
