/** What every step of the cat and mouse protocol keeps. */
module CatMouseInv {
  import opened Options
  import opened CatMouse

  /** Inside the section of EatingMutex, of BowlMutex. */
  predicate HoldsEat(pc: Pc) {
    || (pc.Entering? && !pc.e.EnterWant? && !pc.e.EnterWait? && !pc.e.Retest?)
    || (pc.Leaving? && !pc.l.LeaveWant?)
  }

  predicate HoldsBowl(pc: Pc) {
    || (pc.Choosing? && (pc.c.Scan? || pc.c.Taken?))
    || (pc.Returning? && !pc.r.ReturnWant?)
  }

  /** Counted in NumCatsEating or NumMiceEating. */
  predicate Inside(pc: Pc) {
    || (pc.Entering? && (pc.e.Serve? || pc.e.Call? || pc.e.EnterDone?))
    || pc.Choosing? || pc.Dining? || pc.Returning?
    || (pc.Leaving? && (pc.l.LeaveWant? || pc.l.Leave?))
  }

  /** Inside, and counted in Serving. */
  predicate Served(pc: Pc) {
    Inside(pc) && pc != Entering(Serve)
  }

  predicate AtLast(pc: Pc) {
    pc == Leaving(LastTest) || pc == Leaving(Reset)
  }

  /** The bowl an animal has taken, 0 for none. */
  function Owned(pc: Pc): nat {
    if pc.Choosing? && pc.c.Taken? then pc.c.b
    else if pc.Dining? then pc.b
    else if pc.Returning? && pc.r.ReturnWant? then pc.r.b
    else if pc.Returning? && pc.r.Return? then pc.r.b
    else 0
  }

  /** An animal that must have a bowl has one. */
  predicate HasBowl(pc: Pc) {
    || (pc.Choosing? && pc.c.Taken?) || pc.Dining?
    || (pc.Returning? && (pc.r.ReturnWant? || pc.r.Return?))
  }

  predicate Eats(pc: Pc) {
    pc.Dining? && pc.eating
  }

  predicate Scanning(pc: Pc) {
    pc.Choosing? && pc.c.Scan?
  }

  predicate Rechecks(pc: Pc) {
    pc.Choosing? && (pc.c.Rescan? || (pc.c.Scan? && pc.c.woken))
  }

  // ----------------------------------------------------------------- counting

  function Entered(pc: map<Animal, Pc>, sp: Species): set<Animal> {
    set a | a in pc && a.sp == sp && Inside(pc[a])
  }

  function AtBowls(pc: map<Animal, Pc>, sp: Species): set<Animal> {
    set a | a in pc && a.sp == sp && Eats(pc[a])
  }

  function Rechecking(pc: map<Animal, Pc>): set<Animal> {
    set a | a in pc && Rechecks(pc[a])
  }

  function Over(pc: map<Animal, Pc>): set<Animal> {
    set a | a in pc && pc[a] == Finished
  }

  function CountOpen(open: seq<bool>): nat {
    if open == [] then 0 else (if open[0] then 1 else 0) + CountOpen(open[1..])
  }

  lemma {:induction false} CountSet(open: seq<bool>, i: nat, v: bool)
    requires i < |open|
    ensures CountOpen(open[i := v]) == CountOpen(open) + (if v then 1 else 0) - (if open[i] then 1 else 0)
  {
    if i == 0 {
      assert open[0 := v][1..] == open[1..];
    } else {
      assert open[i := v][1..] == open[1..][i - 1 := v];
      CountSet(open[1..], i - 1, v);
    }
  }

  lemma {:induction false} CountNone(open: seq<bool>)
    requires forall i :: 0 <= i < |open| ==> !open[i]
    ensures CountOpen(open) == 0
  {
    if open != [] {
      CountNone(open[1..]);
    }
  }

  // --------------------------------------------------------------- invariants

  ghost predicate Shape(s: State, p: Setup) {
    && (forall a :: a in s.pc <==> IsAnimal(p, a)) && s.rounds.Keys == s.pc.Keys
    && |s.open| == p.bowls && |s.plates| == p.bowls
  }

  /** An animal inside a critical section holds the lock, and only such an animal. */
  ghost predicate LocksOk(s: State) {
    && (forall a :: a in s.pc ==> (HoldsEat(s.pc[a]) <==> s.eatLock == Some(a)))
    && (forall a :: a in s.pc ==> (HoldsBowl(s.pc[a]) <==> s.bowlLock == Some(a)))
    && (s.eatLock.Some? ==> s.eatLock.value in s.pc) && (s.bowlLock.Some? ==> s.bowlLock.value in s.pc)
  }

  ghost predicate CountsOk(s: State) {
    && (forall sp :: Num(s, sp) == |Entered(s.pc, sp)|)
    && (forall sp :: Eaters(s, sp) == |AtBowls(s.pc, sp)|)
  }

  /** Only one species is inside. */
  ghost predicate OneSpecies(s: State) {
    && (s.numCats == 0 || s.numMice == 0)
    && forall a :: a in s.pc && s.pc[a] == Entering(Enter) ==> Num(s, Other(a.sp)) == 0 && s.serving == a.n
  }

  /** The animals of one species, by number. */
  ghost predicate Numbered(order: seq<Animal>) {
    forall i :: 0 <= i < |order| ==> order[i].n == i && order[i].sp == order[0].sp
  }

  predicate OrderAt(s: State, a: Animal)
    requires a in s.pc
  {
    && (Served(s.pc[a]) || AtLast(s.pc[a]) ==> s.order != [] && s.order[0].sp == a.sp)
    && (s.pc[a] == Entering(Serve) ==> s.serving == a.n && (s.order != [] ==> s.order[0].sp == a.sp))
    && (s.pc[a] == Leaving(Reset) ==> s.numCats == 0 && s.numMice == 0)
  }

  /** Animals have come in since the last reset but none is inside any more. */
  predicate Stale(s: State) {
    s.order != [] && Num(s, s.order[0].sp) == 0
  }

  /** Serving counts the animals of one species that came in since the last reset, by number. */
  ghost predicate OrderOk(s: State) {
    && s.serving == |s.order| && Numbered(s.order)
    && (forall a :: a in s.pc ==> OrderAt(s, a))
    && (Stale(s) ==> s.eatLock.Some? && s.eatLock.value in s.pc && AtLast(s.pc[s.eatLock.value]))
  }

  predicate BowlAt(open: seq<bool>, pc: Pc) {
    && (HasBowl(pc) ==> 0 < Owned(pc) <= |open| && !open[Owned(pc) - 1])
    && (Scanning(pc) ==> pc.c.i <= |open| && forall j :: 0 <= j < pc.c.i ==> !open[j])
  }

  ghost predicate Unique(pc: map<Animal, Pc>) {
    forall a, c :: a in pc && c in pc && a != c && HasBowl(pc[a]) && HasBowl(pc[c]) ==> Owned(pc[a]) != Owned(pc[c])
  }

  ghost predicate HasOwner(pc: map<Animal, Pc>, b: nat) {
    exists a :: a in pc && HasBowl(pc[a]) && Owned(pc[a]) == b
  }

  /** A bowl is flagged full exactly when an animal has it, and no two have the same. */
  ghost predicate BowlsOk(s: State) {
    && (forall a :: a in s.pc ==> BowlAt(s.open, s.pc[a]))
    && Unique(s.pc)
    && (forall j :: 0 <= j < |s.open| && !s.open[j] ==> HasOwner(s.pc, j + 1))
  }

  predicate EatsThere(plates: seq<Plate>, a: Animal, pc: Pc) {
    Eats(pc) ==> 0 < pc.b <= |plates| && plates[pc.b - 1] == At(a.sp)
  }

  ghost predicate HasEater(pc: map<Animal, Pc>, b: nat, plate: Plate) {
    exists a :: a in pc && pc[a] == Dining(b, true) && plate == At(a.sp)
  }

  /** What bowls.c records is who is eating where. */
  ghost predicate PlatesOk(s: State) {
    && |s.plates| == |s.open|
    && (forall a :: a in s.pc ==> EatsThere(s.plates, a, s.pc[a]))
    && (forall j :: 0 <= j < |s.plates| && s.plates[j] != Nobody ==> HasEater(s.pc, j + 1, s.plates[j]))
  }

  predicate Pending(s: State) {
    s.bowlLock.Some? && s.bowlLock.value in s.pc && s.pc[s.bowlLock.value] == Returning(Signal)
  }

  ghost predicate BowlSleeper(pc: map<Animal, Pc>) {
    exists a :: a in pc && pc[a] == Choosing(BowlWait)
  }

  /** While an animal sleeps on BowlSignal, every open bowl has a woken animal on its way to it,
      or a signal about to be sent. */
  ghost predicate SignalsOk(s: State) {
    BowlSleeper(s.pc) ==> CountOpen(s.open) <= |Rechecking(s.pc)| + if Pending(s) then 1 else 0
  }

  /** How many animals are forked, and how many Vs the driver has consumed. */
  ghost predicate DriverOk(s: State, p: Setup) {
    && (s.driver.Forking? ==> s.driver.k <= p.cats + p.mice && s.finished == |Over(s.pc)|)
    && (s.driver.Forking? ==>
         forall k: nat :: s.driver.k <= k < p.cats + p.mice ==> Nth(p, k) in s.pc && s.pc[Nth(p, k)] == Unborn)
    && (s.driver.Joining? ==> s.driver.k <= p.cats + p.mice && s.finished + s.driver.k == |Over(s.pc)|)
    && (s.driver.CleanedUp? ==> |Over(s.pc)| == p.cats + p.mice)
  }

  ghost predicate RoundsOk(s: State, p: Setup) {
    forall a :: a in s.pc && a in s.rounds ==>
      if s.pc[a] == Finishing || s.pc[a] == Finished then s.rounds[a] == p.loops else s.rounds[a] < p.loops
  }

  ghost predicate Inv(s: State, p: Setup) {
    && !s.panic && Shape(s, p) && LocksOk(s) && CountsOk(s) && OneSpecies(s) && OrderOk(s)
    && BowlsOk(s) && PlatesOk(s) && SignalsOk(s) && DriverOk(s, p) && RoundsOk(s, p)
  }

  // ------------------------------------------------------ one step, in general

  /** Only a moves of its own accord; others are at most woken. */
  ghost predicate Moves(pc: map<Animal, Pc>, pc': map<Animal, Pc>, a: Animal) {
    && a in pc && pc'.Keys == pc.Keys
    && forall x :: x in pc && x != a ==>
         || pc'[x] == pc[x]
         || (pc[x] == Entering(EnterWait) && pc'[x] == Entering(Retest))
         || (pc[x] == Choosing(BowlWait) && pc'[x] == Choosing(Rescan))
  }

  lemma GoMoves(s: State, a: Animal, pc: Pc)
    requires a in s.pc
    ensures Moves(s.pc, Go(s, a, pc).pc, a)
  {
  }

  lemma WakeMoves(s: State, a: Animal, sp: Species, pc: Pc)
    requires a in s.pc
    ensures Moves(s.pc, Go(s.(pc := WakeEnter(s.pc, sp)), a, pc).pc, a)
  {
  }

  lemma SignalMoves(s: State, a: Animal, w: Animal, pc: Pc)
    requires a in s.pc && w in s.pc && s.pc[w] == Choosing(BowlWait)
    ensures Moves(s.pc, Go(Go(s, w, Choosing(Rescan)), a, pc).pc, a)
  {
  }

  ghost predicate LockMove(lock: Option<Animal>, lock': Option<Animal>, a: Animal, held: bool, holds: bool) {
    || (lock' == lock && holds == held)
    || (lock == None && lock' == Some(a) && holds)
    || (lock == Some(a) && lock' == None && !holds)
  }

  lemma LocksStep(s: State, s': State, a: Animal)
    requires LocksOk(s) && Moves(s.pc, s'.pc, a)
    requires LockMove(s.eatLock, s'.eatLock, a, HoldsEat(s.pc[a]), HoldsEat(s'.pc[a]))
    requires LockMove(s.bowlLock, s'.bowlLock, a, HoldsBowl(s.pc[a]), HoldsBowl(s'.pc[a]))
    ensures LocksOk(s')
  {
    forall x | x in s'.pc && x != a
      ensures HoldsEat(s'.pc[x]) == HoldsEat(s.pc[x]) && HoldsBowl(s'.pc[x]) == HoldsBowl(s.pc[x])
    {
    }
  }

  /** A woken animal stays where it is as far as the invariants can tell. */
  lemma OthersStay(pc: map<Animal, Pc>, pc': map<Animal, Pc>, a: Animal, x: Animal)
    requires Moves(pc, pc', a) && x in pc && x != a
    ensures x in pc' && HoldsEat(pc'[x]) == HoldsEat(pc[x]) && HoldsBowl(pc'[x]) == HoldsBowl(pc[x])
    ensures Inside(pc'[x]) == Inside(pc[x]) && Served(pc'[x]) == Served(pc[x]) && AtLast(pc'[x]) == AtLast(pc[x])
    ensures HasBowl(pc'[x]) == HasBowl(pc[x]) && Owned(pc'[x]) == Owned(pc[x])
    ensures HoldsEat(pc[x]) || HoldsBowl(pc[x]) || Eats(pc[x]) || Scanning(pc'[x]) || pc[x] == Unborn ==>
      pc'[x] == pc[x]
    ensures Eats(pc'[x]) == Eats(pc[x]) && Scanning(pc'[x]) == Scanning(pc[x])
    ensures (pc'[x] == Finished) == (pc[x] == Finished) && (pc'[x] == Finishing) == (pc[x] == Finishing)
    ensures pc'[x] == Choosing(BowlWait) ==> pc[x] == Choosing(BowlWait)
    ensures Rechecks(pc[x]) ==> Rechecks(pc'[x])
    ensures Rechecks(pc'[x]) ==> Rechecks(pc[x]) || pc[x] == Choosing(BowlWait)
  {
  }

  lemma SameKeys(pc: map<Animal, Pc>, pc': map<Animal, Pc>, a: Animal)
    requires Moves(pc, pc', a)
    ensures a in pc && pc'.Keys == pc.Keys && forall x :: x in pc' <==> x in pc
  {
  }

  lemma RescanRechecks(pc: Pc, pc': Pc)
    requires pc == Choosing(BowlWait) && pc' == Choosing(Rescan)
    ensures !Rechecks(pc) && Rechecks(pc')
  {
  }

  function B(b: bool): int {
    if b then 1 else 0
  }

  lemma EnteredStep(pc: map<Animal, Pc>, pc': map<Animal, Pc>, a: Animal, sp: Species)
    requires Moves(pc, pc', a)
    ensures |Entered(pc', sp)| == |Entered(pc, sp)| + if sp == a.sp then B(Inside(pc'[a])) - B(Inside(pc[a])) else 0
  {
    hide Inside;
    hide Moves;
    SameKeys(pc, pc', a);
    var e, e' := Entered(pc, sp), Entered(pc', sp);
    forall x | x in pc && x != a
      ensures x in e' <==> x in e
    {
      OthersStay(pc, pc', a, x);
    }
    assert e' - {a} == e - {a};
    Less(e, a);
    Less(e', a);
  }

  lemma AtBowlsStep(pc: map<Animal, Pc>, pc': map<Animal, Pc>, a: Animal, sp: Species)
    requires Moves(pc, pc', a)
    ensures |AtBowls(pc', sp)| == |AtBowls(pc, sp)| + if sp == a.sp then B(Eats(pc'[a])) - B(Eats(pc[a])) else 0
  {
    hide Eats;
    hide Moves;
    SameKeys(pc, pc', a);
    var e, e' := AtBowls(pc, sp), AtBowls(pc', sp);
    forall x | x in pc && x != a
      ensures x in e' <==> x in e
    {
      OthersStay(pc, pc', a, x);
    }
    assert e' - {a} == e - {a};
    Less(e, a);
    Less(e', a);
  }

  lemma OverStep(pc: map<Animal, Pc>, pc': map<Animal, Pc>, a: Animal)
    requires Moves(pc, pc', a) && pc[a] != Finished
    ensures |Over(pc')| == |Over(pc)| + B(pc'[a] == Finished)
  {
    hide Moves;
    SameKeys(pc, pc', a);
    var e, e' := Over(pc), Over(pc');
    forall x | x in pc && x != a
      ensures x in e' <==> x in e
    {
      OthersStay(pc, pc', a, x);
    }
    assert e' - {a} == e - {a};
    Less(e, a);
    Less(e', a);
  }

  /** Woken bowl waiters only add to those about to recheck. */
  lemma RecheckStep(pc: map<Animal, Pc>, pc': map<Animal, Pc>, a: Animal)
    requires Moves(pc, pc', a)
    ensures |Rechecking(pc')| >= |Rechecking(pc)| + B(Rechecks(pc'[a])) - B(Rechecks(pc[a]))
    ensures forall w :: w in pc && w != a && pc[w] == Choosing(BowlWait) && pc'[w] == Choosing(Rescan) ==>
      |Rechecking(pc')| >= |Rechecking(pc)| + B(Rechecks(pc'[a])) - B(Rechecks(pc[a])) + 1
  {
    hide Moves;
    hide Rechecks;
    SameKeys(pc, pc', a);
    var e, e' := Rechecking(pc), Rechecking(pc');
    forall x | x in pc && x != a
      ensures x in e ==> x in e'
    {
      OthersStay(pc, pc', a, x);
    }
    assert a in e <==> Rechecks(pc[a]);
    assert a in e' <==> Rechecks(pc'[a]);
    Cards(e, e', a);
    forall w | w in pc && w != a && pc[w] == Choosing(BowlWait) && pc'[w] == Choosing(Rescan)
      ensures |e'| >= |e| + B(a in e') - B(a in e) + 1
    {
      RescanRechecks(pc[w], pc'[w]);
      Cards(e + {w}, e', a);
    }
  }

  lemma Cards(e: set<Animal>, e': set<Animal>, a: Animal)
    requires e - {a} <= e' - {a}
    ensures |e'| >= |e| + B(a in e') - B(a in e)
  {
    Subset(e - {a}, e' - {a});
    Less(e, a);
    Less(e', a);
  }

  lemma Less(e: set<Animal>, a: Animal)
    ensures |e - {a}| == |e| - B(a in e)
  {
    assert a !in e ==> e - {a} == e;
  }

  lemma {:induction false} Subset(e: set<Animal>, e': set<Animal>)
    requires e <= e'
    ensures |e| <= |e'|
  {
    if x :| x in e {
      Subset(e - {x}, e' - {x});
    }
  }

  // -------------------------------------- each invariant, for any well-formed step

  lemma CountsStep(s: State, s': State, a: Animal)
    requires CountsOk(s) && Moves(s.pc, s'.pc, a)
    requires Num(s', a.sp) == Num(s, a.sp) + B(Inside(s'.pc[a])) - B(Inside(s.pc[a]))
    requires Num(s', Other(a.sp)) == Num(s, Other(a.sp))
    requires Eaters(s', a.sp) == Eaters(s, a.sp) + B(Eats(s'.pc[a])) - B(Eats(s.pc[a]))
    requires Eaters(s', Other(a.sp)) == Eaters(s, Other(a.sp))
    ensures CountsOk(s')
  {
    hide Inside;
    hide Eats;
    hide Entered;
    hide AtBowls;
    hide Moves;
    hide Num;
    hide Eaters;
    forall sp: Species
      ensures Num(s', sp) == |Entered(s'.pc, sp)| && Eaters(s', sp) == |AtBowls(s'.pc, sp)|
    {
      EnteredStep(s.pc, s'.pc, a, sp);
      AtBowlsStep(s.pc, s'.pc, a, sp);
      assert sp == a.sp || sp == Other(a.sp);
    }
  }

  lemma OneStep(s: State, s': State, a: Animal)
    requires OneSpecies(s) && LocksOk(s) && Moves(s.pc, s'.pc, a)
    requires s.eatLock == Some(a) || (s'.numCats == s.numCats && s'.numMice == s.numMice && s'.serving == s.serving)
    requires s'.numCats == 0 || s'.numMice == 0
    requires s'.pc[a] == Entering(Enter) ==> Num(s', Other(a.sp)) == 0 && s'.serving == a.n
    ensures OneSpecies(s')
  {
    forall x | x in s'.pc && x != a && s'.pc[x] == Entering(Enter)
      ensures Num(s', Other(x.sp)) == 0 && s'.serving == x.n
    {
      OthersStay(s.pc, s'.pc, a, x);
    }
  }

  /** A step that touches neither the counters nor the order. */
  lemma OrderFrame(s: State, s': State, a: Animal)
    requires OrderOk(s) && LocksOk(s) && Moves(s.pc, s'.pc, a)
    requires s'.order == s.order && s'.serving == s.serving && s'.numCats == s.numCats && s'.numMice == s.numMice
    requires Served(s'.pc[a]) == Served(s.pc[a])
    requires s'.pc[a] != Entering(Serve) && !AtLast(s.pc[a]) && !AtLast(s'.pc[a])
    requires s'.eatLock == s.eatLock || s.eatLock == None || s.eatLock == Some(a)
    ensures OrderOk(s')
  {
    hide Served;
    hide Moves;
    hide LocksOk;
    hide Numbered;
    SameKeys(s.pc, s'.pc, a);
    assert s.pc[a] != Leaving(Reset) && s'.pc[a] != Leaving(Reset);
    forall x | x in s'.pc
      ensures OrderAt(s', x)
    {
      assert OrderAt(s, x);
      if x != a {
        OthersStay(s.pc, s'.pc, a, x);
        SectionHolds(s.pc[x]);
        SectionHolds(s'.pc[x]);
      }
    }
    if Stale(s) && s.eatLock.value != a {
      OthersStay(s.pc, s'.pc, a, s.eatLock.value);
    }
  }

  lemma SectionHolds(pc: Pc)
    ensures AtLast(pc) || pc == Entering(Serve) || pc == Leaving(Reset) || pc == Entering(Enter) ==> HoldsEat(pc)
  {
  }

  /** A step under EatingMutex. */
  lemma OrderHeld(s: State, s': State, a: Animal)
    requires OrderOk(s) && LocksOk(s) && CountsOk(s') && Moves(s.pc, s'.pc, a)
    requires s.eatLock == Some(a) && s'.eatLock == Some(a)
    requires s'.serving == |s'.order|
    requires
      || s'.order == s.order
      || (s'.order == s.order + [a] && a.n == |s.order| && (s.order != [] ==> s.order[0].sp == a.sp))
      || (s'.order == [] && s'.numCats == 0 && s'.numMice == 0)
    requires OrderAt(s', a)
    requires Stale(s') ==> AtLast(s'.pc[a])
    ensures OrderOk(s')
  {
    hide Served;
    hide Moves;
    hide CountsOk;
    hide OrderAt;
    SameKeys(s.pc, s'.pc, a);
    forall x | x in s'.pc && x != a
      ensures OrderAt(s', x)
    {
      OthersOrder(s, s', a, x);
    }
  }

  lemma OthersOrder(s: State, s': State, a: Animal, x: Animal)
    requires x in s.pc && x in s'.pc && x != a && OrderAt(s, x) && LocksOk(s) && s.eatLock == Some(a)
    requires CountsOk(s') && Moves(s.pc, s'.pc, a)
    requires s.order <= s'.order || (s'.order == [] && s'.numCats == 0 && s'.numMice == 0)
    ensures OrderAt(s', x)
  {
    hide Served;
    hide Moves;
    hide CountsOk;
    OthersStay(s.pc, s'.pc, a, x);
    assert !HoldsEat(s.pc[x]);
    SectionHolds(s'.pc[x]);
    if Served(s'.pc[x]) {
      InsideCounted(s', x);
    }
  }

  lemma InsideCounted(s: State, x: Animal)
    requires CountsOk(s) && x in s.pc && Served(s.pc[x])
    ensures Num(s, x.sp) > 0
  {
    assert x in Entered(s.pc, x.sp);
  }

  // ------------------------------------------------------------------ bowls

  lemma BowlsFrame(s: State, s': State, a: Animal)
    requires BowlsOk(s) && Moves(s.pc, s'.pc, a) && s'.open == s.open
    requires HasBowl(s'.pc[a]) == HasBowl(s.pc[a]) && Owned(s'.pc[a]) == Owned(s.pc[a])
    requires BowlAt(s.open, s'.pc[a])
    ensures BowlsOk(s')
  {
    hide HasBowl;
    hide Owned;
    hide Moves;
    hide BowlAt;
    SameKeys(s.pc, s'.pc, a);
    forall x | x in s'.pc && x != a
      ensures HasBowl(s'.pc[x]) == HasBowl(s.pc[x]) && Owned(s'.pc[x]) == Owned(s.pc[x])
      ensures BowlAt(s.open, s'.pc[x])
    {
      OthersStay(s.pc, s'.pc, a, x);
      BowlAtStays(s.open, s.pc[x], s'.pc[x]);
    }
    forall j | 0 <= j < |s'.open| && !s'.open[j]
      ensures HasOwner(s'.pc, j + 1)
    {
      var x :| x in s.pc && HasBowl(s.pc[x]) && Owned(s.pc[x]) == j + 1;
      assert HasBowl(s'.pc[x]) && Owned(s'.pc[x]) == j + 1;
    }
  }

  lemma BowlAtStays(open: seq<bool>, pc: Pc, pc': Pc)
    requires BowlAt(open, pc) && HasBowl(pc') == HasBowl(pc) && Owned(pc') == Owned(pc)
    requires Scanning(pc') ==> pc' == pc
    ensures BowlAt(open, pc')
  {
  }

  lemma BowlsTake(s: State, s': State, a: Animal, i: nat)
    requires BowlsOk(s) && LocksOk(s) && Moves(s.pc, s'.pc, a) && s.bowlLock == Some(a)
    requires i < |s.open| && s.open[i] && s'.open == s.open[i := false]
    requires !HasBowl(s.pc[a]) && s'.pc[a] == Choosing(Taken(i + 1))
    ensures BowlsOk(s')
  {
    hide HasBowl;
    hide Owned;
    hide Moves;
    SameKeys(s.pc, s'.pc, a);
    TakenHas(s'.pc[a]);
    forall x | x in s'.pc && x != a
      ensures HasBowl(s'.pc[x]) == HasBowl(s.pc[x]) && Owned(s'.pc[x]) == Owned(s.pc[x]) && BowlAt(s'.open, s'.pc[x])
    {
      OthersStay(s.pc, s'.pc, a, x);
      assert BowlAt(s.open, s.pc[x]);
      ScanHolds(s'.pc[x]);
    }
    hide BowlAt;
    forall j | 0 <= j < |s'.open| && !s'.open[j]
      ensures HasOwner(s'.pc, j + 1)
    {
      if j != i {
        OwnerStays(s.pc, s'.pc, a, j + 1);
      }
    }
  }

  lemma OwnerStays(pc: map<Animal, Pc>, pc': map<Animal, Pc>, a: Animal, b: nat)
    requires a in pc && !HasBowl(pc[a]) && pc'.Keys == pc.Keys && HasOwner(pc, b)
    requires forall x :: x in pc' && x != a ==> HasBowl(pc'[x]) == HasBowl(pc[x]) && Owned(pc'[x]) == Owned(pc[x])
    ensures HasOwner(pc', b)
  {
    var x :| x in pc && HasBowl(pc[x]) && Owned(pc[x]) == b;
    assert HasBowl(pc'[x]) && Owned(pc'[x]) == b;
  }

  lemma TakenHas(pc: Pc)
    requires pc.Choosing? && pc.c.Taken?
    ensures HasBowl(pc) && Owned(pc) == pc.c.b && !Scanning(pc)
  {
  }

  lemma ScanHolds(pc: Pc)
    ensures Scanning(pc) ==> HoldsBowl(pc)
  {
  }

  lemma BowlsGive(s: State, s': State, a: Animal, b: nat)
    requires BowlsOk(s) && LocksOk(s) && Moves(s.pc, s'.pc, a) && s.bowlLock == Some(a)
    requires 0 < b <= |s.open| && s'.open == s.open[b - 1 := true]
    requires HasBowl(s.pc[a]) && Owned(s.pc[a]) == b && !HasBowl(s'.pc[a]) && !Scanning(s'.pc[a])
    ensures BowlsOk(s')
  {
    hide HasBowl;
    hide Owned;
    hide Moves;
    SameKeys(s.pc, s'.pc, a);
    forall x | x in s'.pc && x != a
      ensures HasBowl(s'.pc[x]) == HasBowl(s.pc[x]) && Owned(s'.pc[x]) == Owned(s.pc[x]) && BowlAt(s'.open, s'.pc[x])
    {
      OthersStay(s.pc, s'.pc, a, x);
      assert BowlAt(s.open, s.pc[x]);
      ScanHolds(s'.pc[x]);
    }
    hide BowlAt;
    forall j | 0 <= j < |s'.open| && !s'.open[j]
      ensures HasOwner(s'.pc, j + 1)
    {
      var x :| x in s.pc && HasBowl(s.pc[x]) && Owned(s.pc[x]) == j + 1;
      assert HasBowl(s'.pc[x]) && Owned(s'.pc[x]) == j + 1;
    }
  }

  // ----------------------------------------------------------------- plates

  lemma EaterStays(pc: map<Animal, Pc>, pc': map<Animal, Pc>, a: Animal, b: nat, plate: Plate)
    requires HasEater(pc, b, plate) && Moves(pc, pc', a) && (pc[a] == pc'[a] || pc[a] != Dining(b, true))
    ensures HasEater(pc', b, plate)
  {
    hide Moves;
    SameKeys(pc, pc', a);
    var x :| x in pc && pc[x] == Dining(b, true) && plate == At(x.sp);
    if x != a {
      OthersStay(pc, pc', a, x);
    }
    assert x in pc' && pc'[x] == Dining(b, true);
  }

  lemma PlatesFrame(s: State, s': State, a: Animal)
    requires PlatesOk(s) && Moves(s.pc, s'.pc, a) && s'.plates == s.plates && |s'.open| == |s.open|
    requires !Eats(s.pc[a]) && !Eats(s'.pc[a])
    ensures PlatesOk(s')
  {
    hide Moves;
    hide HasEater;
    SameKeys(s.pc, s'.pc, a);
    forall x | x in s'.pc
      ensures EatsThere(s'.plates, x, s'.pc[x])
    {
      assert EatsThere(s.plates, x, s.pc[x]);
      if x != a {
        OthersStay(s.pc, s'.pc, a, x);
      }
    }
    hide EatsThere;
    forall j | 0 <= j < |s'.plates| && s'.plates[j] != Nobody
      ensures HasEater(s'.pc, j + 1, s'.plates[j])
    {
      EaterStays(s.pc, s'.pc, a, j + 1, s.plates[j]);
    }
  }

  lemma PlatesStart(s: State, s': State, a: Animal, b: nat)
    requires PlatesOk(s) && Moves(s.pc, s'.pc, a) && |s'.open| == |s.open|
    requires 0 < b <= |s.plates| && s.plates[b - 1] == Nobody && s'.plates == s.plates[b - 1 := At(a.sp)]
    requires s.pc[a] == Dining(b, false) && s'.pc[a] == Dining(b, true)
    ensures PlatesOk(s')
  {
    hide Moves;
    SameKeys(s.pc, s'.pc, a);
    assert HasEater(s'.pc, b, At(a.sp));
    hide HasEater;
    forall x | x in s'.pc
      ensures EatsThere(s'.plates, x, s'.pc[x])
    {
      assert EatsThere(s.plates, x, s.pc[x]);
      if x != a {
        OthersStay(s.pc, s'.pc, a, x);
      }
    }
    hide EatsThere;
    forall j | 0 <= j < |s'.plates| && s'.plates[j] != Nobody
      ensures HasEater(s'.pc, j + 1, s'.plates[j])
    {
      if j != b - 1 {
        EaterStays(s.pc, s'.pc, a, j + 1, s.plates[j]);
      }
    }
  }

  lemma PlatesFinish(s: State, s': State, a: Animal, b: nat)
    requires PlatesOk(s) && Unique(s.pc) && Moves(s.pc, s'.pc, a) && |s'.open| == |s.open|
    requires 0 < b <= |s.plates| && s'.plates == s.plates[b - 1 := Nobody]
    requires s.pc[a] == Dining(b, true) && !Eats(s'.pc[a])
    ensures PlatesOk(s')
  {
    hide Moves;
    hide HasEater;
    SameKeys(s.pc, s'.pc, a);
    forall x | x in s'.pc
      ensures EatsThere(s'.plates, x, s'.pc[x])
    {
      assert EatsThere(s.plates, x, s.pc[x]);
      if x != a {
        OthersStay(s.pc, s'.pc, a, x);
      }
    }
    hide EatsThere;
    forall j | 0 <= j < |s'.plates| && s'.plates[j] != Nobody
      ensures HasEater(s'.pc, j + 1, s'.plates[j])
    {
      EaterStays(s.pc, s'.pc, a, j + 1, s.plates[j]);
    }
  }

  /** The bowl an animal is about to eat from has nobody at it. */
  lemma BowlFree(s: State, a: Animal, b: nat)
    requires BowlsOk(s) && PlatesOk(s) && a in s.pc && s.pc[a] == Dining(b, false)
    ensures 0 < b <= |s.plates| && s.plates[b - 1] == Nobody
  {
    hide EatsThere;
    hide HasOwner;
    assert BowlAt(s.open, s.pc[a]);
    hide BowlAt;
    assert s.plates[b - 1] != Nobody ==> HasEater(s.pc, b, s.plates[b - 1]);
  }

  /** While an animal is inside, no animal of the other species eats. */
  lemma NoOtherEats(s: State, a: Animal)
    requires CountsOk(s) && (s.numCats == 0 || s.numMice == 0) && a in s.pc && Inside(s.pc[a])
    ensures Eaters(s, Other(a.sp)) == 0 && AtBowls(s.pc, Other(a.sp)) == {}
  {
    hide Inside;
    hide Eats;
    assert a in Entered(s.pc, a.sp);
    var sp := Other(a.sp);
    assert Num(s, sp) == 0;
    forall x
      ensures x !in AtBowls(s.pc, sp)
    {
      if x in s.pc {
        EatsInside(s.pc[x]);
      }
      assert x !in Entered(s.pc, sp);
    }
  }

  lemma EatsInside(pc: Pc)
    ensures Eats(pc) ==> Inside(pc)
  {
  }

  /** The checks at the end of cat_eat and mouse_eat pass. */
  lemma MayFinish(s: State, a: Animal, b: nat)
    requires CountsOk(s) && PlatesOk(s) && a in s.pc && s.pc[a] == Dining(b, true)
    ensures 0 < b <= |s.plates| && s.plates[b - 1] == At(a.sp) && Eaters(s, a.sp) > 0
  {
    hide HasEater;
    hide Entered;
    assert EatsThere(s.plates, a, s.pc[a]);
    assert a in AtBowls(s.pc, a.sp);
  }

  // ---------------------------------------------------------------- signals

  lemma SignalsStep(s: State, s': State, a: Animal)
    requires SignalsOk(s) && Moves(s.pc, s'.pc, a)
    requires s'.pc[a] == Choosing(BowlWait) ==> CountOpen(s'.open) == 0
    requires CountOpen(s'.open) == 0 || CountOpen(s'.open) - CountOpen(s.open)
      <= B(Rechecks(s'.pc[a])) - B(Rechecks(s.pc[a])) + B(Pending(s')) - B(Pending(s))
    ensures SignalsOk(s')
  {
    hide Moves;
    hide CountOpen;
    hide Rechecks;
    hide Rechecking;
    hide Pending;
    SameKeys(s.pc, s'.pc, a);
    RecheckStep(s.pc, s'.pc, a);
    if x :| x in s'.pc && s'.pc[x] == Choosing(BowlWait) {
      if x != a {
        OthersStay(s.pc, s'.pc, a, x);
        assert BowlSleeper(s.pc);
      }
    }
  }

  /** cv_signal: a sleeper is woken, or there was none. */
  lemma SignalsSent(s: State, s': State, a: Animal, w: Animal)
    requires SignalsOk(s) && Moves(s.pc, s'.pc, a) && s'.open == s.open
    requires s.pc[a] == Returning(Signal) && s'.pc[a] == Returning(ReturnDone)
    requires BowlSleeper(s.pc) ==>
      w in s.pc && s.pc[w] == Choosing(BowlWait) && w in s'.pc && s'.pc[w] == Choosing(Rescan)
    ensures SignalsOk(s')
  {
    hide Moves;
    hide CountOpen;
    hide Rechecking;
    SameKeys(s.pc, s'.pc, a);
    RecheckStep(s.pc, s'.pc, a);
    if x :| x in s'.pc && s'.pc[x] == Choosing(BowlWait) {
      OthersStay(s.pc, s'.pc, a, x);
      assert BowlSleeper(s.pc);
    }
  }

  // ----------------------------------------------------------- the driver

  lemma DriverStep(s: State, s': State, p: Setup, a: Animal)
    requires DriverOk(s, p) && Moves(s.pc, s'.pc, a) && s'.driver == s.driver
    requires s.pc[a] != Unborn && s.pc[a] != Finished && (s'.pc[a] == Finished ==> !s.driver.CleanedUp?)
    requires s'.finished == s.finished + B(s'.pc[a] == Finished)
    ensures DriverOk(s', p)
  {
    hide Moves;
    hide Over;
    SameKeys(s.pc, s'.pc, a);
    OverStep(s.pc, s'.pc, a);
    forall x | x in s.pc && s.pc[x] == Unborn
      ensures s'.pc[x] == Unborn
    {
      OthersStay(s.pc, s'.pc, a, x);
    }
  }

  lemma RoundsStep(s: State, s': State, p: Setup, a: Animal)
    requires RoundsOk(s, p) && Moves(s.pc, s'.pc, a) && a in s.rounds && a in s'.rounds
    requires s'.rounds == s.rounds[a := s'.rounds[a]]
    requires if s'.pc[a] == Finishing || s'.pc[a] == Finished then s'.rounds[a] == p.loops else s'.rounds[a] < p.loops
    ensures RoundsOk(s', p)
  {
    hide Moves;
    SameKeys(s.pc, s'.pc, a);
    forall x | x in s.pc && x != a
      ensures (s'.pc[x] == Finishing) == (s.pc[x] == Finishing) && (s'.pc[x] == Finished) == (s.pc[x] == Finished)
    {
      OthersStay(s.pc, s'.pc, a, x);
    }
  }
}
