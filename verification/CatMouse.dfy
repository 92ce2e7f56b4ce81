/** The cat and mouse protocol (kern/asst1/catmouse.c) on the bowls of
    kern/asst1/bowls.c, as a transition system. Every statement on shared state is
    a step of its own, and any two steps of different animals may interleave;
    lock_acquire waits until the lock is free, cv_wait releases the lock and falls
    asleep in one step. cat_simulation and mouse_simulation are one program with
    the species exchanged. */
module CatMouse {
  import opened Options

  datatype Species = Cats | Mice

  datatype Animal = Animal(sp: Species, n: nat)

  /** The problem parameters: NumBowls, NumCats, NumMice and NumLoops. */
  datatype Setup = Setup(bowls: nat, cats: nat, mice: nat, loops: nat)

  function Other(sp: Species): Species {
    if sp == Cats then Mice else Cats
  }

  predicate IsAnimal(p: Setup, a: Animal) {
    a.n < if a.sp == Cats then p.cats else p.mice
  }

  /** Where an animal is in its loop. Bowl numbers start at 1, as in the source. */
  datatype Pc =
    | Unborn
    | Napping
    | Entering(e: EnterPc)
    | Choosing(c: BowlPc)
    | Dining(b: nat, eating: bool)
    | Returning(r: ReturnPc)
    | Leaving(l: LeavePc)
    | Finishing
    | Finished

  /** The section on EatingMutex that lets an animal in. */
  datatype EnterPc = EnterWant | Test | EnterWait | Retest | Enter | Serve | Call | EnterDone

  /** getOpenBowl */
  datatype BowlPc = BowlWant | Scan(i: nat, woken: bool) | BowlWait | Rescan | Taken(b: nat)

  /** The section on BowlMutex that gives the bowl back. */
  datatype ReturnPc = ReturnWant(b: nat) | Return(b: nat) | Signal | ReturnDone

  /** The section on EatingMutex that lets an animal out. */
  datatype LeavePc = LeaveWant | Leave | LastTest | Reset | CallOthers | LeaveDone

  datatype Plate = Nobody | At(sp: Species)

  /** The thread that runs catmouse(): forking animal k, waiting for the k-th V, done. */
  datatype Driver = Forking(k: nat) | Joining(k: nat) | CleanedUp

  datatype State = State(
    pc: map<Animal, Pc>,
    /** Completed iterations of each animal's loop. */
    rounds: map<Animal, nat>,
    /** The holders of EatingMutex and BowlMutex. */
    eatLock: Option<Animal>, bowlLock: Option<Animal>,
    numCats: int, numMice: int, serving: nat,
    /** bowlstate: true is 'o'. */
    open: seq<bool>,
    /** The state private to bowls.c. */
    plates: seq<Plate>, eatingCats: int, eatingMice: int,
    /** The count of CatMouseWait. */
    finished: nat,
    driver: Driver,
    /** The animals that entered since Serving was last reset. */
    order: seq<Animal>,
    /** A panic was called or an assertion failed. */
    panic: bool)

  function Num(s: State, sp: Species): int {
    if sp == Cats then s.numCats else s.numMice
  }

  function WithNum(s: State, sp: Species, n: int): State {
    if sp == Cats then s.(numCats := n) else s.(numMice := n)
  }

  function Eaters(s: State, sp: Species): int {
    if sp == Cats then s.eatingCats else s.eatingMice
  }

  function WithEaters(s: State, sp: Species, n: int): State {
    if sp == Cats then s.(eatingCats := n) else s.(eatingMice := n)
  }

  function Go(s: State, a: Animal, pc: Pc): State {
    s.(pc := s.pc[a := pc])
  }

  /** thread_wakeup on the condition variable animals of species sp wait on to enter. */
  function WakeEnter(pc: map<Animal, Pc>, sp: Species): map<Animal, Pc> {
    map a | a in pc :: if pc[a] == Entering(EnterWait) && a.sp == sp then Entering(Retest) else pc[a]
  }

  function ReleaseEat(s: State, a: Animal): State {
    if s.eatLock == Some(a) then s.(eatLock := None) else s.(panic := true)
  }

  function ReleaseBowl(s: State, a: Animal): State {
    if s.bowlLock == Some(a) then s.(bowlLock := None) else s.(panic := true)
  }

  function ActEnter(s: State, a: Animal, e: EnterPc): State {
    match e
    case EnterWant => Go(s, a, Entering(Test)).(eatLock := Some(a))
    case Test =>
      if Num(s, Other(a.sp)) > 0 || s.serving != a.n then Go(ReleaseEat(s, a), a, Entering(EnterWait))
      else Go(s, a, Entering(Enter))
    case EnterWait => s
    case Retest => Go(s, a, Entering(Test)).(eatLock := Some(a))
    case Enter =>
      if Num(s, Other(a.sp)) != 0 || s.serving != a.n then s.(panic := true)
      else Go(WithNum(s, a.sp, Num(s, a.sp) + 1), a, Entering(Serve))
    case Serve => Go(s, a, Entering(Call)).(serving := s.serving + 1, order := s.order + [a])
    case Call =>
      if s.eatLock != Some(a) then s.(panic := true)
      else Go(s.(pc := WakeEnter(s.pc, a.sp)), a, Entering(EnterDone))
    case EnterDone => Go(ReleaseEat(s, a), a, Choosing(BowlWant))
  }

  function ActChoose(s: State, a: Animal, c: BowlPc): State {
    match c
    case BowlWant => Go(s, a, Choosing(Scan(0, false))).(bowlLock := Some(a))
    case Scan(i, woken) =>
      if i >= |s.open| then Go(ReleaseBowl(s, a), a, Choosing(BowlWait))
      else if s.open[i] then Go(s, a, Choosing(Taken(i + 1))).(open := s.open[i := false])
      else Go(s, a, Choosing(Scan(i + 1, woken)))
    case BowlWait => s
    case Rescan => Go(s, a, Choosing(Scan(0, true))).(bowlLock := Some(a))
    case Taken(b) => Go(ReleaseBowl(s, a), a, Dining(b, false))
  }

  /** The critical sections at the start and at the end of cat_eat and mouse_eat. */
  function ActDine(s: State, a: Animal, b: nat, eating: bool): State {
    if b == 0 || b > |s.plates| then s.(panic := true)
    else if !eating then
      if s.plates[b - 1] != Nobody || Eaters(s, Other(a.sp)) != 0 then s.(panic := true)
      else Go(WithEaters(s, a.sp, Eaters(s, a.sp) + 1), a, Dining(b, true)).(plates := s.plates[b - 1 := At(a.sp)])
    else
      if Eaters(s, a.sp) <= 0 || s.plates[b - 1] != At(a.sp) then s.(panic := true)
      else
        var s' := Go(WithEaters(s, a.sp, Eaters(s, a.sp) - 1), a, Returning(ReturnWant(b)));
        s'.(plates := s.plates[b - 1 := Nobody])
  }

  /** w is the sleeper that cv_signal would wake. */
  function ActReturn(s: State, a: Animal, w: Animal, r: ReturnPc): State {
    match r
    case ReturnWant(b) => Go(s, a, Returning(Return(b))).(bowlLock := Some(a))
    case Return(b) =>
      if b == 0 || b > |s.open| then s.(panic := true)
      else Go(s, a, Returning(Signal)).(open := s.open[b - 1 := true])
    case Signal =>
      if s.bowlLock != Some(a) then s.(panic := true)
      else if w in s.pc && s.pc[w] == Choosing(BowlWait) then
        Go(Go(s, w, Choosing(Rescan)), a, Returning(ReturnDone))
      else Go(s, a, Returning(ReturnDone))
    case ReturnDone => Go(ReleaseBowl(s, a), a, Leaving(LeaveWant))
  }

  function ActLeave(s: State, p: Setup, a: Animal, l: LeavePc): State
    requires a in s.rounds
  {
    match l
    case LeaveWant => Go(s, a, Leaving(Leave)).(eatLock := Some(a))
    case Leave => Go(WithNum(s, a.sp, Num(s, a.sp) - 1), a, Leaving(LastTest))
    case LastTest => Go(s, a, Leaving(if Num(s, a.sp) == 0 then Reset else LeaveDone))
    case Reset => Go(s, a, Leaving(CallOthers)).(serving := 0, order := [])
    case CallOthers =>
      if s.eatLock != Some(a) then s.(panic := true)
      else Go(s.(pc := WakeEnter(s.pc, Other(a.sp))), a, Leaving(LeaveDone))
    case LeaveDone =>
      Go(ReleaseEat(s, a), a, if s.rounds[a] + 1 < p.loops then Napping else Finishing)
        .(rounds := s.rounds[a := s.rounds[a] + 1])
  }

  /** The animal at pc waits for a lock. */
  predicate WantsEat(pc: Pc) {
    pc == Entering(EnterWant) || pc == Entering(Retest) || pc == Leaving(LeaveWant)
  }

  predicate WantsBowl(pc: Pc) {
    pc == Choosing(BowlWant) || pc == Choosing(Rescan) || (pc.Returning? && pc.r.ReturnWant?)
  }

  predicate Asleep(pc: Pc) {
    pc == Entering(EnterWait) || pc == Choosing(BowlWait)
  }

  /** Animal a can take a step, waking w if it signals. */
  ghost predicate Enabled(s: State, a: Animal, w: Animal) {
    && a in s.pc && a in s.rounds && !s.panic
    && s.pc[a] != Unborn && s.pc[a] != Finished && !Asleep(s.pc[a])
    && (WantsEat(s.pc[a]) ==> s.eatLock == None)
    && (WantsBowl(s.pc[a]) ==> s.bowlLock == None)
    && (s.pc[a] == Returning(Signal) && (exists x :: x in s.pc && s.pc[x] == Choosing(BowlWait)) ==>
         w in s.pc && s.pc[w] == Choosing(BowlWait))
  }

  /** One step of animal a. */
  function Act(s: State, p: Setup, a: Animal, w: Animal): State
    requires a in s.pc && a in s.rounds
  {
    match s.pc[a]
    case Unborn => s
    case Napping => Go(s, a, Entering(EnterWant))
    case Entering(e) => ActEnter(s, a, e)
    case Choosing(c) => ActChoose(s, a, c)
    case Dining(b, eating) => ActDine(s, a, b, eating)
    case Returning(r) => ActReturn(s, a, w, r)
    case Leaving(l) => ActLeave(s, p, a, l)
    case Finishing => Go(s, a, Finished).(finished := s.finished + 1)
    case Finished => s
  }

  /** The k-th animal catmouse() forks. */
  function Nth(p: Setup, k: nat): Animal {
    if k < p.cats then Animal(Cats, k) else Animal(Mice, k - p.cats)
  }

  predicate DriverEnabled(s: State, p: Setup) {
    match s.driver
    case Forking(k) => !s.panic && (k < p.cats + p.mice ==> Nth(p, k) in s.pc)
    case Joining(k) => !s.panic && (k < p.cats + p.mice ==> s.finished > 0)
    case CleanedUp => false
  }

  /** One step of the thread that runs catmouse(). */
  function Drive(s: State, p: Setup): State
    requires DriverEnabled(s, p)
  {
    match s.driver
    case Forking(k) =>
      if k < p.cats + p.mice then Go(s, Nth(p, k), Napping).(driver := Forking(k + 1)) else s.(driver := Joining(0))
    case Joining(k) =>
      if k < p.cats + p.mice then s.(driver := Joining(k + 1), finished := s.finished - 1)
      else s.(driver := CleanedUp)
  }

  ghost predicate Next(s: State, s': State, p: Setup) {
    || (exists a: Animal, w: Animal :: Enabled(s, a, w) && s' == Act(s, p, a, w))
    || (DriverEnabled(s, p) && s' == Drive(s, p))
  }

  function Everyone(p: Setup): (all: set<Animal>)
    ensures forall a :: a in all <==> IsAnimal(p, a)
  {
    (set n: nat | n < p.cats :: Animal(Cats, n)) + (set n: nat | n < p.mice :: Animal(Mice, n))
  }

  function Init(p: Setup): State {
    State(map a | a in Everyone(p) :: Unborn, map a | a in Everyone(p) :: 0, None, None, 0, 0, 0,
          seq(p.bowls, _ => true), seq(p.bowls, _ => Nobody), 0, 0, 0, Forking(0), [], false)
  }

  ghost predicate Run(p: Setup, run: seq<State>) {
    && |run| > 0 && run[0] == Init(p)
    && forall i :: 0 <= i < |run| - 1 ==> Next(run[i], run[i + 1], p)
  }
}
