/** Safety of the cat and mouse protocol over every interleaving. */
module CatMouseSafe {
  import opened Options
  import opened CatMouse
  import opened CatMouseInv

  /** What the invariant says of the animal that moves. */
  lemma Own(s: State, p: Setup, a: Animal)
    requires Inv(s, p) && a in s.pc
    ensures a in s.rounds && |s.plates| == |s.open| == p.bowls
    ensures HoldsEat(s.pc[a]) <==> s.eatLock == Some(a)
    ensures HoldsBowl(s.pc[a]) <==> s.bowlLock == Some(a)
    ensures s.numCats == 0 || s.numMice == 0
    ensures s.pc[a] == Entering(Enter) ==> Num(s, Other(a.sp)) == 0 && s.serving == a.n
    ensures OrderAt(s, a) && BowlAt(s.open, s.pc[a]) && s.serving == |s.order| && !s.panic
    ensures Inside(s.pc[a]) ==> Num(s, a.sp) > 0
    ensures Stale(s) && s.eatLock == Some(a) ==> AtLast(s.pc[a])
    ensures if s.pc[a] == Finishing || s.pc[a] == Finished then s.rounds[a] == p.loops else s.rounds[a] < p.loops
  {
    hide BowlAt;
    hide OrderAt;
    hide PlatesOk;
    hide SignalsOk;
    hide DriverOk;
    hide Unique;
    hide HasOwner;
    hide HoldsEat;
    hide HoldsBowl;
    hide Inside;
    assert Inside(s.pc[a]) ==> a in Entered(s.pc, a.sp);
  }

  lemma NoBowl(pc: Pc, open: seq<bool>)
    requires !HasBowl(pc)
    ensures Owned(pc) == 0 && !Eats(pc) && (!Scanning(pc) ==> BowlAt(open, pc))
  {
  }

  lemma PendingSame(s: State, s': State, a: Animal)
    requires Moves(s.pc, s'.pc, a) && s'.bowlLock == s.bowlLock
    requires s.pc[a] != Returning(Signal) && s'.pc[a] != Returning(Signal)
    ensures Pending(s') == Pending(s)
  {
  }

  /** The invariants that a step away from the bowls leaves alone. */
  lemma RestKept(s: State, s': State, p: Setup, a: Animal)
    requires Moves(s.pc, s'.pc, a) && s'.open == s.open && s'.plates == s.plates
    requires s'.driver == s.driver && s'.bowlLock == s.bowlLock
    requires !HasBowl(s.pc[a]) && !HasBowl(s'.pc[a]) && !Scanning(s'.pc[a])
    requires !Rechecks(s.pc[a]) && s'.pc[a] != Choosing(BowlWait) && !Rechecks(s'.pc[a])
    requires s.pc[a] != Returning(Signal) && s'.pc[a] != Returning(Signal)
    requires s.pc[a] != Unborn && s.pc[a] != Finished && s'.finished == s.finished + B(s'.pc[a] == Finished)
    requires s'.pc[a] == Finished ==> !s.driver.CleanedUp?
    requires a in s.rounds && a in s'.rounds && s'.rounds == s.rounds[a := s'.rounds[a]]
    requires if s'.pc[a] == Finishing || s'.pc[a] == Finished then s'.rounds[a] == p.loops else s'.rounds[a] < p.loops
    requires !s'.panic && LocksOk(s') && CountsOk(s') && OneSpecies(s') && OrderOk(s')
    requires Inv(s, p)
    ensures Inv(s', p)
  {
    hide LocksOk;
    hide CountsOk;
    hide OneSpecies;
    hide OrderOk;
    hide BowlsOk;
    hide PlatesOk;
    hide SignalsOk;
    hide DriverOk;
    hide RoundsOk;
    hide Moves;
    hide HasBowl;
    hide Owned;
    hide Eats;
    hide BowlAt;
    hide Rechecks;
    hide Scanning;
    SameKeys(s.pc, s'.pc, a);
    NoBowl(s.pc[a], s.open);
    NoBowl(s'.pc[a], s.open);
    BowlsFrame(s, s', a);
    PlatesFrame(s, s', a);
    PendingSame(s, s', a);
    SignalsStep(s, s', a);
    DriverStep(s, s', p, a);
    RoundsStep(s, s', p, a);
  }

  /** A step under EatingMutex leaves the rest alone. */
  lemma QuietKept(s: State, s': State, p: Setup, a: Animal)
    requires Moves(s.pc, s'.pc, a)
    requires s' == s.(pc := s'.pc, eatLock := s'.eatLock, serving := s'.serving, order := s'.order,
                      numCats := s'.numCats, numMice := s'.numMice)
    requires LocksOk(s') && CountsOk(s') && OneSpecies(s') && OrderOk(s')
    requires s.pc[a] == Napping || s.pc[a].Entering? || s.pc[a].Leaving?
    requires s'.pc[a] == Choosing(BowlWant) || s'.pc[a].Entering? || s'.pc[a].Leaving?
    requires Inv(s, p)
    ensures Inv(s', p)
  {
    hide LocksOk;
    hide CountsOk;
    hide OneSpecies;
    hide OrderOk;
    hide BowlAt;
    hide OrderAt;
    hide Inv;
    hide Moves;
    SameKeys(s.pc, s'.pc, a);
    Own(s, p, a);
    assert s.rounds == s.rounds[a := s.rounds[a]];
    RestKept(s, s', p, a);
  }

  lemma Parts(s: State, p: Setup)
    requires Inv(s, p)
    ensures LocksOk(s) && CountsOk(s) && OneSpecies(s) && OrderOk(s) && BowlsOk(s) && PlatesOk(s) && SignalsOk(s)
  {
  }

  // ------------------------------------------------------- under EatingMutex

  /** lock_acquire(EatingMutex) */
  lemma AcquireEat(s: State, p: Setup, a: Animal, pc: Pc)
    requires a in s.pc && s.eatLock == None && WantsEat(s.pc[a])
    requires pc == if s.pc[a] == Leaving(LeaveWant) then Leaving(Leave) else Entering(Test)
    requires Inv(s, p)
    ensures Inv(Go(s, a, pc).(eatLock := Some(a)), p)
  {
    hide LocksOk;
    hide CountsOk;
    hide OneSpecies;
    hide OrderOk;
    hide Inv;
    hide Moves;
    hide BowlAt;
    var s' := Go(s, a, pc).(eatLock := Some(a));
    Parts(s, p);
    Own(s, p, a);
    GoMoves(s, a, pc);
    LocksStep(s, s', a);
    CountsStep(s, s', a);
    OneStep(s, s', a);
    OrderFrame(s, s', a);
    QuietKept(s, s', p, a);
  }

  /** lock_release(EatingMutex) on the way in, by cv_wait or to go on. */
  lemma ReleaseIn(s: State, p: Setup, a: Animal, pc: Pc)
    requires a in s.pc
    requires
      || (s.pc[a] == Entering(Test) && pc == Entering(EnterWait))
      || (s.pc[a] == Entering(EnterDone) && pc == Choosing(BowlWant))
    requires Inv(s, p)
    ensures s.eatLock == Some(a) && Inv(Go(s, a, pc).(eatLock := None), p)
  {
    hide LocksOk;
    hide CountsOk;
    hide OneSpecies;
    hide OrderOk;
    hide Inv;
    hide Moves;
    hide BowlAt;
    var s' := Go(s, a, pc).(eatLock := None);
    Parts(s, p);
    Own(s, p, a);
    GoMoves(s, a, pc);
    LocksStep(s, s', a);
    CountsStep(s, s', a);
    OneStep(s, s', a);
    OrderFrame(s, s', a);
    QuietKept(s, s', p, a);
  }

  /** The loop test lets the animal through. */
  lemma TestPasses(s: State, p: Setup, a: Animal)
    requires a in s.pc && s.pc[a] == Entering(Test) && Num(s, Other(a.sp)) == 0 && s.serving == a.n
    requires Inv(s, p)
    ensures Inv(Go(s, a, Entering(Enter)), p)
  {
    hide LocksOk;
    hide CountsOk;
    hide OneSpecies;
    hide OrderOk;
    hide Inv;
    hide Moves;
    hide BowlAt;
    var s' := Go(s, a, Entering(Enter));
    Parts(s, p);
    Own(s, p, a);
    GoMoves(s, a, Entering(Enter));
    LocksStep(s, s', a);
    CountsStep(s, s', a);
    OneStep(s, s', a);
    OrderFrame(s, s', a);
    QuietKept(s, s', p, a);
  }

  /** The count goes up; both assertions before it hold. */
  lemma CountIn(s: State, p: Setup, a: Animal)
    requires a in s.pc && s.pc[a] == Entering(Enter)
    requires Inv(s, p)
    ensures Num(s, Other(a.sp)) == 0 && s.serving == a.n
    ensures Inv(Go(WithNum(s, a.sp, Num(s, a.sp) + 1), a, Entering(Serve)), p)
  {
    hide LocksOk;
    hide CountsOk;
    hide OneSpecies;
    hide OrderOk;
    hide Inv;
    hide Moves;
    hide BowlAt;
    var s' := Go(WithNum(s, a.sp, Num(s, a.sp) + 1), a, Entering(Serve));
    Parts(s, p);
    Own(s, p, a);
    GoMoves(s, a, Entering(Serve));
    LocksStep(s, s', a);
    CountsStep(s, s', a);
    OneStep(s, s', a);
    OrderHeld(s, s', a);
    QuietKept(s, s', p, a);
  }

  /** Serving goes up. */
  lemma ServeNext(s: State, p: Setup, a: Animal)
    requires a in s.pc && s.pc[a] == Entering(Serve)
    requires Inv(s, p)
    ensures Inv(Go(s, a, Entering(Call)).(serving := s.serving + 1, order := s.order + [a]), p)
  {
    hide LocksOk;
    hide CountsOk;
    hide OneSpecies;
    hide OrderOk;
    hide Inv;
    hide Moves;
    hide BowlAt;
    var s' := Go(s, a, Entering(Call)).(serving := s.serving + 1, order := s.order + [a]);
    Parts(s, p);
    Own(s, p, a);
    GoMoves(s, a, Entering(Call));
    LocksStep(s, s', a);
    CountsStep(s, s', a);
    OneStep(s, s', a);
    OrderHeld(s, s', a);
    QuietKept(s, s', p, a);
  }

  /** cv_broadcast, to the own species on the way in and to the other on the way out. */
  lemma Broadcast(s: State, p: Setup, a: Animal, sp: Species, pc: Pc)
    requires a in s.pc
    requires
      || (s.pc[a] == Entering(Call) && pc == Entering(EnterDone))
      || (s.pc[a] == Leaving(CallOthers) && pc == Leaving(LeaveDone))
    requires Inv(s, p)
    ensures s.eatLock == Some(a) && Inv(Go(s.(pc := WakeEnter(s.pc, sp)), a, pc), p)
  {
    hide LocksOk;
    hide CountsOk;
    hide OneSpecies;
    hide OrderOk;
    hide Inv;
    hide Moves;
    hide BowlAt;
    hide WakeEnter;
    var s' := Go(s.(pc := WakeEnter(s.pc, sp)), a, pc);
    Parts(s, p);
    Own(s, p, a);
    WakeMoves(s, a, sp, pc);
    SameKeys(s.pc, s'.pc, a);
    LocksStep(s, s', a);
    CountsStep(s, s', a);
    OneStep(s, s', a);
    OrderFrame(s, s', a);
    QuietKept(s, s', p, a);
  }

  lemma CountOut(s: State, p: Setup, a: Animal)
    requires a in s.pc && s.pc[a] == Leaving(Leave)
    requires Inv(s, p)
    ensures Inv(Go(WithNum(s, a.sp, Num(s, a.sp) - 1), a, Leaving(LastTest)), p)
  {
    hide LocksOk;
    hide CountsOk;
    hide OneSpecies;
    hide OrderOk;
    hide Inv;
    hide Moves;
    hide BowlAt;
    var s' := Go(WithNum(s, a.sp, Num(s, a.sp) - 1), a, Leaving(LastTest));
    Parts(s, p);
    Own(s, p, a);
    GoMoves(s, a, Leaving(LastTest));
    LocksStep(s, s', a);
    CountsStep(s, s', a);
    OneStep(s, s', a);
    OrderHeld(s, s', a);
    QuietKept(s, s', p, a);
  }

  lemma TestLast(s: State, p: Setup, a: Animal)
    requires a in s.pc && s.pc[a] == Leaving(LastTest)
    requires Inv(s, p)
    ensures Inv(Go(s, a, Leaving(if Num(s, a.sp) == 0 then Reset else LeaveDone)), p)
  {
    hide LocksOk;
    hide CountsOk;
    hide OneSpecies;
    hide OrderOk;
    hide Inv;
    hide Moves;
    hide BowlAt;
    var pc := Leaving(if Num(s, a.sp) == 0 then Reset else LeaveDone);
    var s' := Go(s, a, pc);
    Parts(s, p);
    Own(s, p, a);
    GoMoves(s, a, pc);
    LocksStep(s, s', a);
    CountsStep(s, s', a);
    OneStep(s, s', a);
    LastAlone(s, a);
    OrderHeld(s, s', a);
    QuietKept(s, s', p, a);
  }

  /** Whoever is inside is of the species that is leaving. */
  lemma LastAlone(s: State, a: Animal)
    requires a in s.pc && s.pc[a] == Leaving(LastTest) && s.eatLock == Some(a)
    requires LocksOk(s) && CountsOk(s) && OrderOk(s)
    ensures Num(s, Other(a.sp)) == 0
  {
    hide Inside;
    hide Numbered;
    hide AtBowls;
    var sp := Other(a.sp);
    forall x
      ensures x !in Entered(s.pc, sp)
    {
      if x in s.pc {
        InsideSpecies(s, a, x);
      }
    }
    assert Entered(s.pc, sp) == {};
  }

  lemma InsideSpecies(s: State, a: Animal, x: Animal)
    requires a in s.pc && s.pc[a] == Leaving(LastTest) && s.eatLock == Some(a) && LocksOk(s) && OrderOk(s) && x in s.pc
    ensures Inside(s.pc[x]) ==> x.sp == a.sp
  {
    hide Inside;
    hide Served;
    hide Numbered;
    hide HoldsEat;
    assert OrderAt(s, a) && OrderAt(s, x);
    ServedUnlessServing(s.pc[x]);
  }

  lemma ServedUnlessServing(pc: Pc)
    ensures Inside(pc) ==> Served(pc) || (pc == Entering(Serve) && HoldsEat(pc))
  {
  }

  lemma ResetServing(s: State, p: Setup, a: Animal)
    requires a in s.pc && s.pc[a] == Leaving(Reset)
    requires Inv(s, p)
    ensures Inv(Go(s, a, Leaving(CallOthers)).(serving := 0, order := []), p)
  {
    hide LocksOk;
    hide CountsOk;
    hide OneSpecies;
    hide OrderOk;
    hide Inv;
    hide Moves;
    hide BowlAt;
    var s' := Go(s, a, Leaving(CallOthers)).(serving := 0, order := []);
    Parts(s, p);
    Own(s, p, a);
    GoMoves(s, a, Leaving(CallOthers));
    LocksStep(s, s', a);
    CountsStep(s, s', a);
    OneStep(s, s', a);
    OrderHeld(s, s', a);
    QuietKept(s, s', p, a);
  }

  lemma GoToNap(s: State, p: Setup, a: Animal)
    requires a in s.pc && s.pc[a] == Napping
    requires Inv(s, p)
    ensures Inv(Go(s, a, Entering(EnterWant)), p)
  {
    hide LocksOk;
    hide CountsOk;
    hide OneSpecies;
    hide OrderOk;
    hide Inv;
    hide Moves;
    hide BowlAt;
    var s' := Go(s, a, Entering(EnterWant));
    Parts(s, p);
    Own(s, p, a);
    GoMoves(s, a, Entering(EnterWant));
    LocksStep(s, s', a);
    CountsStep(s, s', a);
    OneStep(s, s', a);
    OrderFrame(s, s', a);
    QuietKept(s, s', p, a);
  }

  /** The end of an iteration, which may be the last. */
  lemma ReleaseOut(s: State, p: Setup, a: Animal, pc: Pc)
    requires a in s.pc && a in s.rounds && s.pc[a] == Leaving(LeaveDone)
    requires pc == if s.rounds[a] + 1 < p.loops then Napping else Finishing
    requires Inv(s, p)
    ensures s.eatLock == Some(a) && Inv(Go(s, a, pc).(eatLock := None, rounds := s.rounds[a := s.rounds[a] + 1]), p)
  {
    hide LocksOk;
    hide CountsOk;
    hide OneSpecies;
    hide OrderOk;
    hide Inv;
    hide Moves;
    hide BowlAt;
    hide BowlsOk;
    hide PlatesOk;
    hide SignalsOk;
    hide DriverOk;
    hide RoundsOk;
    var s' := Go(s, a, pc).(eatLock := None, rounds := s.rounds[a := s.rounds[a] + 1]);
    Parts(s, p);
    Own(s, p, a);
    GoMoves(s, a, pc);
    LocksStep(s, s', a);
    CountsStep(s, s', a);
    OneStep(s, s', a);
    OrderFrame(s, s', a);
    RestKept(s, s', p, a);
  }

  /** V(CatMouseWait) */
  lemma FinishKept(s: State, p: Setup, a: Animal)
    requires a in s.pc && s.pc[a] == Finishing
    requires Inv(s, p)
    ensures Inv(Go(s, a, Finished).(finished := s.finished + 1), p)
  {
    hide LocksOk;
    hide CountsOk;
    hide OneSpecies;
    hide OrderOk;
    hide Inv;
    hide Moves;
    hide BowlAt;
    hide BowlsOk;
    hide PlatesOk;
    hide SignalsOk;
    hide DriverOk;
    hide RoundsOk;
    var s' := Go(s, a, Finished).(finished := s.finished + 1);
    Parts(s, p);
    Own(s, p, a);
    GoMoves(s, a, Finished);
    LocksStep(s, s', a);
    CountsStep(s, s', a);
    OneStep(s, s', a);
    OrderFrame(s, s', a);
    AllOver(s, p);
    assert s.rounds == s.rounds[a := s.rounds[a]];
    RestKept(s, s', p, a);
  }

  /** Once catmouse() has consumed every V, every animal has finished. */
  lemma AllOver(s: State, p: Setup)
    requires Inv(s, p)
    ensures s.driver.CleanedUp? ==> forall a :: a in s.pc ==> s.pc[a] == Finished
  {
    hide LocksOk;
    hide CountsOk;
    hide OneSpecies;
    hide OrderOk;
    hide BowlsOk;
    hide PlatesOk;
    hide SignalsOk;
    hide RoundsOk;
    hide Everyone;
    if s.driver.CleanedUp? {
      EveryoneSize(p);
      assert Over(s.pc) <= Everyone(p);
      FullSubset(Over(s.pc), Everyone(p));
      forall a | a in s.pc
        ensures s.pc[a] == Finished
      {
        assert a in Everyone(p);
      }
    }
  }

  lemma {:induction false} FullSubset(x: set<Animal>, y: set<Animal>)
    requires x <= y && |x| == |y|
    ensures x == y
  {
    if a :| a in y && a !in x {
      Subset(x, y - {a});
    }
  }

  lemma EveryoneSize(p: Setup)
    ensures |Everyone(p)| == p.cats + p.mice
  {
    var c, m := set n: nat | n < p.cats :: Animal(Cats, n), set n: nat | n < p.mice :: Animal(Mice, n);
    HerdSize(Cats, p.cats, c);
    HerdSize(Mice, p.mice, m);
    assert c * m == {};
    assert Everyone(p) == c + m;
  }

  lemma {:induction false} HerdSize(sp: Species, n: nat, herd: set<Animal>)
    requires forall a :: a in herd <==> a.sp == sp && a.n < n
    ensures |herd| == n
  {
    if n == 0 {
      assert herd == {};
    } else {
      HerdSize(sp, n - 1, herd - {Animal(sp, n - 1)});
    }
  }

  // -------------------------------------------------------- under BowlMutex

  /** A step of an animal that is inside leaves the entry protocol alone. */
  lemma EntryKept(s: State, s': State, p: Setup, a: Animal)
    requires Moves(s.pc, s'.pc, a)
    requires s' == s.(pc := s'.pc, bowlLock := s'.bowlLock, open := s'.open, plates := s'.plates,
                      eatingCats := s'.eatingCats, eatingMice := s'.eatingMice)
    requires (s.pc[a].Choosing? || s.pc[a].Dining? || s.pc[a].Returning?) && s.pc[a] != Choosing(BowlWait)
    requires s'.pc[a].Choosing? || s'.pc[a].Dining? || s'.pc[a].Returning? || s'.pc[a] == Leaving(LeaveWant)
    requires LockMove(s.bowlLock, s'.bowlLock, a, HoldsBowl(s.pc[a]), HoldsBowl(s'.pc[a]))
    requires Eaters(s', a.sp) == Eaters(s, a.sp) + B(Eats(s'.pc[a])) - B(Eats(s.pc[a]))
    requires Eaters(s', Other(a.sp)) == Eaters(s, Other(a.sp))
    requires |s'.open| == |s.open| && |s'.plates| == |s.plates|
    requires BowlsOk(s') && PlatesOk(s') && SignalsOk(s')
    requires Inv(s, p)
    ensures Inv(s', p)
  {
    hide LocksOk;
    hide CountsOk;
    hide OneSpecies;
    hide OrderOk;
    hide BowlsOk;
    hide PlatesOk;
    hide SignalsOk;
    hide DriverOk;
    hide RoundsOk;
    hide Moves;
    hide BowlAt;
    hide OrderAt;
    hide HoldsBowl;
    hide Eats;
    SameKeys(s.pc, s'.pc, a);
    Own(s, p, a);
    LocksStep(s, s', a);
    CountsStep(s, s', a);
    OneStep(s, s', a);
    OrderFrame(s, s', a);
    DriverStep(s, s', p, a);
    assert s.rounds == s.rounds[a := s.rounds[a]];
    RoundsStep(s, s', p, a);
  }

  /** lock_acquire(BowlMutex) */
  lemma AcquireBowl(s: State, p: Setup, a: Animal, pc: Pc)
    requires a in s.pc && s.bowlLock == None && WantsBowl(s.pc[a])
    requires pc == match s.pc[a]
                   case Returning(r) => (match r case ReturnWant(b) => Returning(Return(b)) case _ => s.pc[a])
                   case _ => Choosing(Scan(0, s.pc[a] == Choosing(Rescan)))
    requires Inv(s, p)
    ensures Inv(Go(s, a, pc).(bowlLock := Some(a)), p)
  {
    hide LocksOk;
    hide CountsOk;
    hide OneSpecies;
    hide OrderOk;
    hide BowlsOk;
    hide PlatesOk;
    hide SignalsOk;
    hide Inv;
    hide Moves;
    var s' := Go(s, a, pc).(bowlLock := Some(a));
    Parts(s, p);
    Own(s, p, a);
    GoMoves(s, a, pc);
    BowlsFrame(s, s', a);
    PlatesFrame(s, s', a);
    SignalsStep(s, s', a);
    EntryKept(s, s', p, a);
  }

  /** lock_release(BowlMutex), by cv_wait or to go on. */
  lemma ReleaseBowls(s: State, p: Setup, a: Animal, pc: Pc)
    requires a in s.pc
    requires
      || (s.pc[a].Choosing? && s.pc[a].c.Scan? && s.pc[a].c.i >= |s.open| && pc == Choosing(BowlWait))
      || (s.pc[a].Choosing? && s.pc[a].c.Taken? && pc == Dining(s.pc[a].c.b, false))
      || (s.pc[a] == Returning(ReturnDone) && pc == Leaving(LeaveWant))
    requires Inv(s, p)
    ensures s.bowlLock == Some(a) && Inv(Go(s, a, pc).(bowlLock := None), p)
  {
    hide LocksOk;
    hide CountsOk;
    hide OneSpecies;
    hide OrderOk;
    hide BowlsOk;
    hide PlatesOk;
    hide SignalsOk;
    hide Inv;
    hide Moves;
    hide CountOpen;
    var s' := Go(s, a, pc).(bowlLock := None);
    Parts(s, p);
    Own(s, p, a);
    GoMoves(s, a, pc);
    BowlsFrame(s, s', a);
    PlatesFrame(s, s', a);
    if pc == Choosing(BowlWait) {
      CountNone(s.open);
    }
    SignalsStep(s, s', a);
    EntryKept(s, s', p, a);
  }

  /** The scan goes past a bowl that is taken. */
  lemma ScanOn(s: State, p: Setup, a: Animal, i: nat, woken: bool)
    requires a in s.pc && s.pc[a] == Choosing(Scan(i, woken)) && i < |s.open| && !s.open[i]
    requires Inv(s, p)
    ensures Inv(Go(s, a, Choosing(Scan(i + 1, woken))), p)
  {
    hide LocksOk;
    hide CountsOk;
    hide OneSpecies;
    hide OrderOk;
    hide BowlsOk;
    hide PlatesOk;
    hide SignalsOk;
    hide Inv;
    hide Moves;
    var s' := Go(s, a, Choosing(Scan(i + 1, woken)));
    Parts(s, p);
    Own(s, p, a);
    GoMoves(s, a, Choosing(Scan(i + 1, woken)));
    BowlsFrame(s, s', a);
    PlatesFrame(s, s', a);
    SignalsStep(s, s', a);
    EntryKept(s, s', p, a);
  }

  /** The scan takes an open bowl. */
  lemma TakeBowl(s: State, p: Setup, a: Animal, i: nat, woken: bool)
    requires a in s.pc && s.pc[a] == Choosing(Scan(i, woken)) && i < |s.open| && s.open[i]
    requires Inv(s, p)
    ensures Inv(Go(s, a, Choosing(Taken(i + 1))).(open := s.open[i := false]), p)
  {
    hide LocksOk;
    hide CountsOk;
    hide OneSpecies;
    hide OrderOk;
    hide BowlsOk;
    hide PlatesOk;
    hide SignalsOk;
    hide Inv;
    hide Moves;
    hide CountOpen;
    var s' := Go(s, a, Choosing(Taken(i + 1))).(open := s.open[i := false]);
    Parts(s, p);
    Own(s, p, a);
    GoMoves(s, a, Choosing(Taken(i + 1)));
    BowlsTake(s, s', a, i);
    PlatesFrame(s, s', a);
    CountSet(s.open, i, false);
    SignalsStep(s, s', a);
    EntryKept(s, s', p, a);
  }

  lemma GiveBowl(s: State, p: Setup, a: Animal, b: nat)
    requires a in s.pc && s.pc[a] == Returning(Return(b))
    requires Inv(s, p)
    ensures 0 < b <= |s.open| && Inv(Go(s, a, Returning(Signal)).(open := s.open[b - 1 := true]), p)
  {
    hide LocksOk;
    hide CountsOk;
    hide OneSpecies;
    hide OrderOk;
    hide BowlsOk;
    hide PlatesOk;
    hide SignalsOk;
    hide Inv;
    hide Moves;
    hide CountOpen;
    Parts(s, p);
    Own(s, p, a);
    var s' := Go(s, a, Returning(Signal)).(open := s.open[b - 1 := true]);
    GoMoves(s, a, Returning(Signal));
    BowlsGive(s, s', a, b);
    PlatesFrame(s, s', a);
    CountSet(s.open, b - 1, true);
    SignalsStep(s, s', a);
    EntryKept(s, s', p, a);
  }

  /** cv_signal(BowlSignal) */
  lemma SendSignal(s: State, p: Setup, a: Animal, w: Animal)
    requires a in s.pc && s.pc[a] == Returning(Signal)
    requires BowlSleeper(s.pc) ==> w in s.pc && s.pc[w] == Choosing(BowlWait)
    requires Inv(s, p)
    ensures s.bowlLock == Some(a) && !s.panic
    ensures Inv(if w in s.pc && s.pc[w] == Choosing(BowlWait)
                then Go(Go(s, w, Choosing(Rescan)), a, Returning(ReturnDone))
                else Go(s, a, Returning(ReturnDone)), p)
  {
    hide LocksOk;
    hide CountsOk;
    hide OneSpecies;
    hide OrderOk;
    hide BowlsOk;
    hide PlatesOk;
    hide SignalsOk;
    hide Inv;
    hide Moves;
    hide BowlSleeper;
    hide BowlAt;
    var s' := if w in s.pc && s.pc[w] == Choosing(BowlWait)
              then Go(Go(s, w, Choosing(Rescan)), a, Returning(ReturnDone))
              else Go(s, a, Returning(ReturnDone));
    Parts(s, p);
    Own(s, p, a);
    if w in s.pc && s.pc[w] == Choosing(BowlWait) {
      SignalMoves(s, a, w, Returning(ReturnDone));
    } else {
      GoMoves(s, a, Returning(ReturnDone));
    }
    SameKeys(s.pc, s'.pc, a);
    NoBowl(s.pc[a], s.open);
    NoBowl(s'.pc[a], s.open);
    BowlsFrame(s, s', a);
    PlatesFrame(s, s', a);
    SignalsSent(s, s', a, w);
    EntryKept(s, s', p, a);
  }

  // -------------------------------------------------------------- eating

  /** No check at the start of cat_eat or mouse_eat fails. */
  lemma StartKept(s: State, p: Setup, a: Animal, b: nat)
    requires a in s.pc && s.pc[a] == Dining(b, false)
    requires Inv(s, p)
    ensures !ActDine(s, a, b, false).panic && Inv(ActDine(s, a, b, false), p)
  {
    hide LocksOk;
    hide CountsOk;
    hide OneSpecies;
    hide OrderOk;
    hide BowlsOk;
    hide PlatesOk;
    hide SignalsOk;
    hide Inv;
    hide Moves;
    hide BowlAt;
    Parts(s, p);
    Own(s, p, a);
    BowlFree(s, a, b);
    NoOtherEats(s, a);
    var s' := ActDine(s, a, b, false);
    GoMoves(s, a, Dining(b, true));
    BowlStays(s, a);
    BowlsFrame(s, s', a);
    PlatesStart(s, s', a, b);
    SignalsStep(s, s', a);
    EntryKept(s, s', p, a);
  }

  lemma BowlStays(s: State, a: Animal)
    requires a in s.pc && s.pc[a].Dining? && BowlAt(s.open, s.pc[a])
    ensures BowlAt(s.open, Dining(s.pc[a].b, true)) && BowlAt(s.open, Returning(ReturnWant(s.pc[a].b)))
  {
  }

  /** No check at the end of cat_eat or mouse_eat fails. */
  lemma StopKept(s: State, p: Setup, a: Animal, b: nat)
    requires a in s.pc && s.pc[a] == Dining(b, true)
    requires Inv(s, p)
    ensures !ActDine(s, a, b, true).panic && Inv(ActDine(s, a, b, true), p)
  {
    hide LocksOk;
    hide CountsOk;
    hide OneSpecies;
    hide OrderOk;
    hide BowlsOk;
    hide PlatesOk;
    hide SignalsOk;
    hide Inv;
    hide Moves;
    hide BowlAt;
    Parts(s, p);
    Own(s, p, a);
    MayFinish(s, a, b);
    var s' := ActDine(s, a, b, true);
    GoMoves(s, a, Returning(ReturnWant(b)));
    BowlStays(s, a);
    BowlsFrame(s, s', a);
    NoSharing(s);
    PlatesFinish(s, s', a, b);
    SignalsStep(s, s', a);
    EntryKept(s, s', p, a);
  }

  lemma NoSharing(s: State)
    requires BowlsOk(s)
    ensures Unique(s.pc)
  {
  }

  // ------------------------------------------------------------ every step

  lemma EnterKept(s: State, p: Setup, a: Animal, w: Animal, e: EnterPc)
    requires Enabled(s, a, w) && s.pc[a] == Entering(e) && Inv(s, p)
    ensures Inv(ActEnter(s, a, e), p)
  {
    hide Inv;
    hide WakeEnter;
    match e
    case EnterWant => AcquireEat(s, p, a, Entering(Test));
    case Test =>
      Own(s, p, a);
      if Num(s, Other(a.sp)) > 0 || s.serving != a.n {
        ReleaseIn(s, p, a, Entering(EnterWait));
      } else {
        CountsNatural(s, p, Other(a.sp));
        TestPasses(s, p, a);
      }
    case EnterWait =>
    case Retest => AcquireEat(s, p, a, Entering(Test));
    case Enter => CountIn(s, p, a);
    case Serve => ServeNext(s, p, a);
    case Call => Broadcast(s, p, a, a.sp, Entering(EnterDone));
    case EnterDone => ReleaseIn(s, p, a, Choosing(BowlWant));
  }

  lemma CountsNatural(s: State, p: Setup, sp: Species)
    requires Inv(s, p)
    ensures Num(s, sp) >= 0
  {
  }

  lemma ChooseKept(s: State, p: Setup, a: Animal, w: Animal, c: BowlPc)
    requires Enabled(s, a, w) && s.pc[a] == Choosing(c) && Inv(s, p)
    ensures Inv(ActChoose(s, a, c), p)
  {
    hide Inv;
    match c
    case BowlWant => AcquireBowl(s, p, a, Choosing(Scan(0, false)));
    case Scan(i, woken) =>
      if i >= |s.open| {
        ReleaseBowls(s, p, a, Choosing(BowlWait));
      } else if s.open[i] {
        TakeBowl(s, p, a, i, woken);
      } else {
        ScanOn(s, p, a, i, woken);
      }
    case BowlWait =>
    case Rescan => AcquireBowl(s, p, a, Choosing(Scan(0, true)));
    case Taken(b) => ReleaseBowls(s, p, a, Dining(b, false));
  }

  lemma ReturnKept(s: State, p: Setup, a: Animal, w: Animal, r: ReturnPc)
    requires Enabled(s, a, w) && s.pc[a] == Returning(r) && Inv(s, p)
    ensures Inv(ActReturn(s, a, w, r), p)
  {
    hide Inv;
    match r
    case ReturnWant(b) => AcquireBowl(s, p, a, Returning(Return(b)));
    case Return(b) => GiveBowl(s, p, a, b);
    case Signal => SendSignal(s, p, a, w);
    case ReturnDone => ReleaseBowls(s, p, a, Leaving(LeaveWant));
  }

  lemma LeaveKept(s: State, p: Setup, a: Animal, w: Animal, l: LeavePc)
    requires Enabled(s, a, w) && s.pc[a] == Leaving(l) && Inv(s, p)
    ensures Inv(ActLeave(s, p, a, l), p)
  {
    hide Inv;
    hide WakeEnter;
    match l
    case LeaveWant => AcquireEat(s, p, a, Leaving(Leave));
    case Leave => CountOut(s, p, a);
    case LastTest => TestLast(s, p, a);
    case Reset => ResetServing(s, p, a);
    case CallOthers => Broadcast(s, p, a, Other(a.sp), Leaving(LeaveDone));
    case LeaveDone => ReleaseOut(s, p, a, if s.rounds[a] + 1 < p.loops then Napping else Finishing);
  }

  lemma ActKept(s: State, p: Setup, a: Animal, w: Animal)
    requires Enabled(s, a, w) && Inv(s, p)
    ensures Inv(Act(s, p, a, w), p)
  {
    hide Inv;
    hide ActEnter;
    hide ActChoose;
    hide ActDine;
    hide ActReturn;
    hide ActLeave;
    match s.pc[a]
    case Unborn =>
    case Napping => GoToNap(s, p, a);
    case Entering(e) => EnterKept(s, p, a, w, e);
    case Choosing(c) => ChooseKept(s, p, a, w, c);
    case Dining(b, eating) =>
      if eating {
        StopKept(s, p, a, b);
      } else {
        StartKept(s, p, a, b);
      }
    case Returning(r) => ReturnKept(s, p, a, w, r);
    case Leaving(l) => LeaveKept(s, p, a, w, l);
    case Finishing => FinishKept(s, p, a);
    case Finished =>
  }

  lemma ForkKept(s: State, p: Setup, k: nat)
    requires s.driver == Forking(k) && k < p.cats + p.mice && Nth(p, k) in s.pc && Inv(s, p)
    ensures Inv(Go(s, Nth(p, k), Napping).(driver := Forking(k + 1)), p)
  {
    hide LocksOk;
    hide CountsOk;
    hide OneSpecies;
    hide OrderOk;
    hide BowlsOk;
    hide PlatesOk;
    hide SignalsOk;
    hide RoundsOk;
    hide Moves;
    hide Over;
    var a := Nth(p, k);
    var s' := Go(s, a, Napping).(driver := Forking(k + 1));
    Own(s, p, a);
    GoMoves(s, a, Napping);
    LocksStep(s, s', a);
    CountsStep(s, s', a);
    OneStep(s, s', a);
    OrderFrame(s, s', a);
    BowlsFrame(s, s', a);
    PlatesFrame(s, s', a);
    PendingSame(s, s', a);
    SignalsStep(s, s', a);
    assert s.rounds == s.rounds[a := s.rounds[a]];
    RoundsStep(s, s', p, a);
    OverStep(s.pc, s'.pc, a);
  }

  lemma DriveKept(s: State, p: Setup)
    requires DriverEnabled(s, p) && Inv(s, p)
    ensures Inv(Drive(s, p), p)
  {
    hide LocksOk;
    hide CountsOk;
    hide OneSpecies;
    hide OrderOk;
    hide BowlsOk;
    hide PlatesOk;
    hide SignalsOk;
    hide RoundsOk;
    hide Everyone;
    match s.driver
    case Forking(k) =>
      if k < p.cats + p.mice {
        ForkKept(s, p, k);
      } else {
        SameButDriver(s, s.(driver := Joining(0)), p);
      }
    case Joining(k) =>
      var s' := Drive(s, p);
      SameButDriver(s, s', p);
      EveryoneSize(p);
      Subset(Over(s.pc), Everyone(p));
    case CleanedUp =>
  }

  lemma SameButDriver(s: State, s': State, p: Setup)
    requires s' == s.(driver := s'.driver, finished := s'.finished)
    ensures LocksOk(s) ==> LocksOk(s')
    ensures CountsOk(s) ==> CountsOk(s')
    ensures OneSpecies(s) ==> OneSpecies(s')
    ensures OrderOk(s) ==> OrderOk(s')
    ensures BowlsOk(s) ==> BowlsOk(s')
    ensures PlatesOk(s) ==> PlatesOk(s')
    ensures SignalsOk(s) ==> SignalsOk(s')
    ensures RoundsOk(s, p) ==> RoundsOk(s', p)
  {
    hide Inside;
    hide Served;
    hide HasBowl;
    hide Owned;
    hide BowlAt;
    hide HasOwner;
    hide EatsThere;
    hide HasEater;
    hide HoldsEat;
    hide HoldsBowl;
    if OrderOk(s) {
      forall a | a in s'.pc
        ensures OrderAt(s', a)
      {
        assert OrderAt(s, a);
      }
    }
    assert forall sp :: Num(s', sp) == Num(s, sp) && Eaters(s', sp) == Eaters(s, sp);
  }

  lemma InitInv(p: Setup)
    requires p.loops > 0
    ensures Inv(Init(p), p)
  {
    hide Everyone;
    var s := Init(p);
    assert forall a :: a in s.pc ==> s.pc[a] == Unborn;
    assert Entered(s.pc, Cats) == {} && Entered(s.pc, Mice) == {};
    assert AtBowls(s.pc, Cats) == {} && AtBowls(s.pc, Mice) == {};
    assert Over(s.pc) == {};
  }

  // -------------------------------------------------------------- theorems

  /** What the protocol is for, and what the rest of the kernel may rely on. */
  ghost predicate Safe(s: State, p: Setup) {
    // no panic was called and no assertion failed
    && !s.panic
    // cats and mice never eat at the same time, and no bowl has two eaters
    && (forall a, c :: a in s.pc && c in s.pc && Eats(s.pc[a]) && Eats(s.pc[c]) ==>
         a.sp == c.sp && (a != c ==> s.pc[a].b != s.pc[c].b))
    // bowls.c records who eats where, bowlstate who has which bowl, and the counters who is inside
    && PlatesOk(s) && BowlsOk(s) && CountsOk(s)
    // each lock has at most one animal in its section
    && (forall a, c :: a in s.pc && c in s.pc && HoldsEat(s.pc[a]) && HoldsEat(s.pc[c]) ==> a == c)
    && (forall a, c :: a in s.pc && c in s.pc && HoldsBowl(s.pc[a]) && HoldsBowl(s.pc[c]) ==> a == c)
    // since the last reset one species came in, by number and without a gap
    && s.serving == |s.order| && Numbered(s.order)
    // no open bowl is forgotten while an animal sleeps
    && SignalsOk(s)
    // the bowls are cleaned up only after every animal has eaten as often as asked
    && (s.driver.CleanedUp? ==>
         forall a :: a in s.pc ==> s.pc[a] == Finished && a in s.rounds && s.rounds[a] == p.loops)
  }

  lemma InvSafe(s: State, p: Setup)
    requires Inv(s, p)
    ensures Safe(s, p)
  {
    AllOver(s, p);
    EatersAgree(s, p);
    hide Numbered;
    hide CountsOk;
    hide BowlsOk;
    hide PlatesOk;
    hide SignalsOk;
    hide DriverOk;
    hide OrderAt;
    hide Eats;
  }

  lemma EatersAgree(s: State, p: Setup)
    requires Inv(s, p)
    ensures forall a, c :: a in s.pc && c in s.pc && Eats(s.pc[a]) && Eats(s.pc[c]) ==>
      a.sp == c.sp && (a != c ==> s.pc[a].b != s.pc[c].b)
  {
    hide LocksOk;
    hide OrderOk;
    hide PlatesOk;
    hide SignalsOk;
    hide DriverOk;
    hide RoundsOk;
    hide BowlAt;
    hide HasOwner;
    hide CountsOk;
    forall a, c | a in s.pc && c in s.pc && Eats(s.pc[a]) && Eats(s.pc[c])
      ensures a.sp == c.sp && (a != c ==> s.pc[a].b != s.pc[c].b)
    {
      NoOtherEats(s, a);
      assert c.sp == Other(a.sp) ==> c in AtBowls(s.pc, Other(a.sp));
    }
  }

  lemma {:induction false} RunInv(p: Setup, run: seq<State>, n: nat)
    requires p.loops > 0 && Run(p, run) && n < |run|
    ensures Inv(run[n], p)
  {
    hide Inv;
    hide Init;
    hide Next;
    if n == 0 {
      InitInv(p);
    } else {
      RunInv(p, run, n - 1);
      assert Next(run[n - 1], run[n - 1 + 1], p);
      NextKept(run[n - 1], run[n], p);
    }
  }

  /** Every state of every run, for any number of cats, mice and bowls, is safe. */
  lemma EveryRunSafe(p: Setup, run: seq<State>)
    requires p.loops > 0 && Run(p, run)
    ensures forall i :: 0 <= i < |run| ==> Safe(run[i], p)
  {
    hide Inv;
    hide Safe;
    hide Run;
    forall i | 0 <= i < |run|
      ensures Safe(run[i], p)
    {
      RunInv(p, run, i);
      InvSafe(run[i], p);
    }
  }

  lemma NextKept(s: State, s': State, p: Setup)
    requires Inv(s, p) && Next(s, s', p)
    ensures Inv(s', p)
  {
    hide Inv;
    hide Act;
    hide DriverEnabled;
    hide Drive;
    if a: Animal, w: Animal :| Enabled(s, a, w) && s' == Act(s, p, a, w) {
      ActKept(s, p, a, w);
    } else {
      DriveKept(s, p);
    }
  }
}
