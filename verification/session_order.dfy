/**
 The lock-order check of debug builds: what it admits, what together with
 one-at-a-time acquisition excludes deadlock, and that the session satisfies both.
 */
module SessionOrder {
  import opened SessionModel
  import opened SessionLocks

  // ----- the check -----

  datatype LockId = ThreadStates | PerThread | ConfigId | ExceptionId

  function IdOf(m: Mutex): set<LockId> {
    match m
    case Registry => {ThreadStates}
    case State(_) => {PerThread}
    case Config => {ConfigId}
    case Fault => {ExceptionId}
    case Wire => {}
  }

  /** The assertion made before acquiring `id` with the ids in `held` recorded. */
  predicate ValidateOrder(held: set<LockId>, id: LockId) {
    match id
    case ThreadStates => held !! {PerThread, ConfigId, ExceptionId}
    case PerThread => held !! {ConfigId, ExceptionId}
    case ConfigId => held == {}
    case ExceptionId => held == {}
  }

  /** The thread-local record of held lock ids. */
  function IdsOf(held: set<Mutex>): set<LockId> {
    set m, id | m in held && id in IdOf(m) :: id
  }

  /** Acquiring `m` with the locks in `held` passes the check. */
  predicate Passes(held: set<Mutex>, m: Mutex) {
    forall id | id in IdOf(m) :: ValidateOrder(IdsOf(held), id)
  }

  // ----- what the check promises, whoever holds what -----

  /** Who holds what, and who waits for what. */
  datatype Standoff = Standoff(held: map<Actor, set<Mutex>>, wants: map<Actor, Mutex>)

  /** No lock has two holders, and whoever waits is known. */
  predicate Proper(c: Standoff) {
    && c.wants.Keys <= c.held.Keys
    && forall a, b | a in c.held && b in c.held && a != b :: c.held[a] !! c.held[b]
  }

  /** Every pending acquisition passes the lock-order check. */
  predicate Checked(c: Standoff) {
    forall a | a in c.wants && a in c.held :: Passes(c.held[a], c.wants[a])
  }

  /** Actor `a` waits for a lock that actor `b` holds. */
  predicate WaitsOn(c: Standoff, a: Actor, b: Actor) {
    a in c.wants && b in c.held && c.wants[a] in c.held[b]
  }

  /** Every member waits for a lock that a member holds. */
  predicate Stuck(c: Standoff, actors: set<Actor>) {
    actors != {} && forall a {:trigger WaitsWithin(c, a, actors)} | a in actors :: WaitsWithin(c, a, actors)
  }

  predicate WaitsWithin(c: Standoff, a: Actor, actors: set<Actor>) {
    exists b | b in actors :: WaitsOn(c, a, b)
  }

  /** Not for a thread state while holding one, not for a lock already held, and not
      for anything while sending. */
  predicate OneAtATime(held: set<Mutex>, m: Mutex) {
    Wire !in held && m !in held && (m.State? ==> forall x | x in held :: !x.State?)
  }

  predicate Disciplined(c: Standoff) {
    forall a | a in c.wants && a in c.held :: OneAtATime(c.held[a], c.wants[a])
  }

  lemma IdsOfOne(m: Mutex)
    ensures IdsOf({m}) == IdOf(m)
  {}

  /** The check alone admits a deadlock of two threads that hold their own states
      and wait for each other's. */
  lemma CheckAdmitsCrossedStates(a: Actor, b: Actor, t: Tid, u: Tid)
    requires a != b && t != u
    ensures var c := Standoff(map[a := {State(t)}, b := {State(u)}], map[a := State(u), b := State(t)]);
            Proper(c) && Checked(c) && Stuck(c, {a, b})
  {
    var c := Standoff(map[a := {State(t)}, b := {State(u)}], map[a := State(u), b := State(t)]);
    IdsOfOne(State(t));
    IdsOfOne(State(u));
    assert WaitsOn(c, a, b) && WaitsOn(c, b, a);
  }

  /** ... of one that takes the registry twice ... */
  lemma CheckAdmitsRegistryTwice(a: Actor)
    ensures var c := Standoff(map[a := {Registry}], map[a := Registry]);
            Proper(c) && Checked(c) && Stuck(c, {a})
  {
    var c := Standoff(map[a := {Registry}], map[a := Registry]);
    IdsOfOne(Registry);
    assert WaitsOn(c, a, a);
  }

  /** ... and of two that nest the registry and the send lock in opposite orders. */
  lemma CheckAdmitsCrossedSend(a: Actor, b: Actor)
    requires a != b
    ensures var c := Standoff(map[a := {Registry}, b := {Wire}], map[a := Wire, b := Registry]);
            Proper(c) && Checked(c) && Stuck(c, {a, b})
  {
    var c := Standoff(map[a := {Registry}, b := {Wire}], map[a := Wire, b := Registry]);
    IdsOfOne(Registry);
    IdsOfOne(Wire);
    assert WaitsOn(c, a, b) && WaitsOn(c, b, a);
  }

  /** With the check, whoever acquires a session lock one at a time holds at most the
      registry, and that only while waiting for a thread state. */
  lemma HoldsAtMostRegistry(held: set<Mutex>, m: Mutex, x: Mutex)
    requires Passes(held, m) && OneAtATime(held, m) && x in held && m != Wire
    ensures x == Registry && m.State?
  {
    var idX, idM := NamedId(x), NamedId(m);
    assert idX in IdOf(x) && idX in IdsOf(held);
    assert idM in IdOf(m) && ValidateOrder(IdsOf(held), idM);
  }

  function NamedId(m: Mutex): (id: LockId)
    ensures m != Wire ==> IdOf(m) == {id}
  {
    match m
    case Registry => ThreadStates
    case State(_) => PerThread
    case Config => ConfigId
    case _ => ExceptionId
  }

  /** A member of a deadlocked set holds nothing but the registry. */
  lemma StuckOnRegistry(c: Standoff, actors: set<Actor>, a: Actor, b: Actor)
    requires Proper(c) && Checked(c) && Disciplined(c) && Stuck(c, actors)
    requires a in actors && b in actors && WaitsOn(c, a, b)
    ensures c.wants[a] == Registry && b in c.wants && c.wants[b].State?
  {
    assert WaitsWithin(c, b, actors);
    var d :| d in actors && WaitsOn(c, b, d);
    assert WaitsWithin(c, d, actors);
    var e :| e in actors && WaitsOn(c, d, e);
    assert OneAtATime(c.held[b], c.wants[b]) && OneAtATime(c.held[d], c.wants[d]);
    HoldsAtMostRegistry(c.held[b], c.wants[b], c.wants[a]);
  }

  /** Together, the check and one-at-a-time acquisition exclude deadlock, whoever
      holds what. */
  lemma DisciplineExcludesDeadlock(c: Standoff, actors: set<Actor>)
    requires Proper(c) && Checked(c) && Disciplined(c)
    ensures !Stuck(c, actors)
  {
    if Stuck(c, actors) {
      var a :| a in actors;
      assert WaitsWithin(c, a, actors);
      var b :| b in actors && WaitsOn(c, a, b);
      StuckOnRegistry(c, actors, a, b);
      assert WaitsWithin(c, b, actors);
      var d :| d in actors && WaitsOn(c, b, d);
      StuckOnRegistry(c, actors, b, d);
    }
  }

  // ----- the session passes the check and acquires one at a time -----

  /** No lock-order assertion ever fires. */
  lemma OrderCheckPasses(s: Session, a: Actor, m: Mutex)
    requires Live(s, a) && Wants(s, a, m)
    ensures Passes(HeldBy(s, a), m) && OneAtATime(HeldBy(s, a), m)
  {
    WaitingHoldsLittle(s, a, m);
    LittlePasses(HeldBy(s, a), m);
  }

  lemma LittlePasses(held: set<Mutex>, m: Mutex)
    requires held == {} || (held == {Registry} && m.State?)
    ensures Passes(held, m) && OneAtATime(held, m)
  {
    IdsOfOne(Registry);
    assert held == {} ==> IdsOf(held) == {};
  }

  /** A lock that `a` waits for and a member of the set holds. */
  ghost function WaitsFor(s: Session, a: Actor, actors: set<Actor>): (m: Mutex)
    requires Blocked(s, a, actors)
    ensures Wants(s, a, m) && m in s.owner && s.owner[m] in actors
  {
    var m :| Wants(s, a, m) && m in s.owner && s.owner[m] in actors;
    m
  }

  ghost function HeldIn(s: Session, a: Actor): set<Mutex> {
    if Live(s, a) then HeldBy(s, a) else {}
  }

  ghost function StandoffOf(s: Session, actors: set<Actor>): (c: Standoff)
    requires forall a {:trigger Blocked(s, a, actors)} | a in actors :: Blocked(s, a, actors)
    ensures c.held.Keys == actors && c.wants.Keys == actors
    ensures forall a {:trigger c.held[a]} | a in actors :: c.held[a] == HeldIn(s, a)
    ensures forall a {:trigger c.wants[a]} | a in actors :: c.wants[a] == WaitsFor(s, a, actors)
  {
    Standoff(map a | a in actors :: HeldIn(s, a), map a | a in actors :: WaitsFor(s, a, actors))
  }

  lemma HoldingsApart(s: Session, a: Actor, b: Actor)
    requires LockInv(s) && a != b
    ensures HeldIn(s, a) !! HeldIn(s, b)
  {
    forall m | m in HeldIn(s, a)
      ensures m !in HeldIn(s, b)
    {
      assert Holds(s, a, m);
      assert !Holds(s, b, m);
    }
  }

  lemma SessionProper(s: Session, actors: set<Actor>)
    requires LockInv(s) && Deadlocked(s, actors)
    ensures Proper(StandoffOf(s, actors))
  {
    var c := StandoffOf(s, actors);
    forall a, b | a in c.held && b in c.held && a != b
      ensures c.held[a] !! c.held[b]
    {
      HoldingsApart(s, a, b);
    }
  }

  lemma SessionWaits(s: Session, actors: set<Actor>, a: Actor)
    requires LockInv(s) && Deadlocked(s, actors) && a in actors && Blocked(s, a, actors)
    ensures WaitsWithin(StandoffOf(s, actors), a, actors)
  {
    var c, m := StandoffOf(s, actors), WaitsFor(s, a, actors);
    OwnerHolds(s, m);
    assert c.wants[a] == m && c.held[s.owner[m]] == HeldIn(s, s.owner[m]);
    assert WaitsOn(c, a, s.owner[m]);
  }

  lemma SessionStuck(s: Session, actors: set<Actor>)
    requires LockInv(s) && Deadlocked(s, actors)
    ensures Stuck(StandoffOf(s, actors), actors)
  {
    forall a | a in actors
      ensures WaitsWithin(StandoffOf(s, actors), a, actors)
    {
      assert Blocked(s, a, actors);
      SessionWaits(s, actors, a);
    }
  }

  lemma OwnerHolds(s: Session, m: Mutex)
    requires LockInv(s) && m in s.owner
    ensures m in HeldIn(s, s.owner[m])
  {
    assert Holds(s, s.owner[m], m);
  }

  lemma SessionDisciplined(s: Session, actors: set<Actor>)
    requires LockInv(s) && Deadlocked(s, actors)
    ensures var c := StandoffOf(s, actors); Checked(c) && Disciplined(c)
  {
    var c := StandoffOf(s, actors);
    forall a | a in actors
      ensures Passes(c.held[a], c.wants[a]) && OneAtATime(c.held[a], c.wants[a])
    {
      assert Blocked(s, a, actors);
      OrderCheckPasses(s, a, WaitsFor(s, a, actors));
    }
  }

  /** No reachable state has a nonempty set of threads that all wait for locks
      held within the set. */
  lemma NoDeadlock(run: seq<Session>, i: nat, actors: set<Actor>)
    requires IsRun(run) && i < |run|
    ensures !Deadlocked(run[i], actors)
  {
    LockInvRun(run, i);
    if Deadlocked(run[i], actors) {
      SessionProper(run[i], actors);
      SessionStuck(run[i], actors);
      SessionDisciplined(run[i], actors);
      DisciplineExcludesDeadlock(StandoffOf(run[i], actors), actors);
    }
  }
}
