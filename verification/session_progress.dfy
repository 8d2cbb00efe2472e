/**
 Progress: every execution thread that is neither finished nor asleep has a next
 step that is enabled or takes a lock, and the protocol thread never waits in a
 join while no thread can move.
 */
module SessionProgress {
  import opened SessionModel
  import opened SessionLocks
  import opened SessionZones
  import opened SessionCounter
  import opened SessionWakeup

  // ----- the next step of a thread -----

  /** A step: what is done and where it leads. */
  datatype Stride = Stride(op: Op, pc: Pc)

  function SendStride(s: Session, e: Sending, msg: Message): (Op, Sending) {
    match e
    case Want => (Lock(Wire), Numbering)
    case Numbering => (Number(s.nextSeq), Writing(s.nextSeq))
    case Writing(n) => (if s.broken then Lose else Write(n, msg), Written)
    case Written => (Unlock(Wire), Written)
  }

  function CfgStride(s: Session, c: CfgPc): Stride {
    match c
    case CfgEnter => Stride(Lock(Config), Cfg(CfgTest))
    case CfgTest =>
      var b := s.configured || s.stop;
      Stride(SeeConfig(b), Cfg(if b then CfgTested else CfgCommit))
    case CfgCommit => Stride(Sleep(Config), Cfg(CfgAsleep))
    case CfgAsleep => Stride(Tau, Cfg(CfgEnter))
    case CfgTested => Stride(SeeStop(s.stop), Cfg(CfgLeave(!s.stop)))
    case CfgLeave(go) => Stride(Unlock(Config), if go then Run else Done)
  }

  function AddStride(t: Tid, a: AddPc): Stride {
    match a
    case AddEnter => Stride(Tau, Exit(ExitWant))
    case AddInsert => Stride(Insert(t), Add(AddLeave))
    case AddLeave => Stride(Unlock(Registry), Run)
  }

  function HookStride(s: Session, t: Tid, h: HookPc): Stride {
    match h
    case HookWant => Stride(Lock(Registry), Hook(HookLook))
    case HookLook => Stride(SeeMember(t, t in s.registry), Hook(HookFound(t in s.registry)))
    case HookFound(known) => Stride(Unlock(Registry), if known then Hook(HookLock) else Run)
    case HookLock => Stride(Lock(State(t)), Hook(HookHold))
    case HookHold => Stride(Unlock(State(t)), Run)
    case FaultEnter(fatal) => Stride(Lock(Fault), Hook(FaultRecord(fatal)))
    case FaultRecord(fatal) => Stride(Unlock(Fault), Hook(if fatal then FatalTest else HookWant))
    case FatalTest => Stride(Tau, Done)
  }

  function StopStride(s: Session, t: Tid, f: bool, k: StopPc): Stride {
    match k
    case StopWant => Stride(Lock(Registry), Stop(f, StopLook))
    case StopLook => Stride(SeeMember(t, t in s.registry), Stop(f, StopFound(t in s.registry)))
    case StopFound(known) => Stride(Unlock(Registry), if known then Stop(f, StopLock) else Run)
    case StopLock => Stride(Lock(State(t)), Stop(f, StopMark))
    case StopMark => Stride(Mark(t), Stop(f, StopCount))
    case StopCount => Stride(Inc, Stop(f, StopFlag))
    case StopFlag => Stride(if f then Flag(t) else Tau, Stop(f, StopRelease))
    case StopRelease => Stride(Unlock(State(t)), Ask(f, AskWant))
  }

  function AskStride(s: Session, f: bool, q: AskPc): Stride {
    match q
    case AskWant => Stride(Lock(Registry), Ask(f, AskRead))
    case AskRead =>
      var b := s.count >= |s.registry|;
      Stride(SeeAllStopped(b), Ask(f, AskLeave(b)))
    case AskLeave(_) => Stride(Unlock(Registry), Event(f, Want))
  }

  function WaitStride(s: Session, t: Tid, f: bool, w: WaitPc): Stride
    requires t in s.threads
  {
    match w
    case WaitLock => Stride(Lock(State(t)), Wait(f, WaitTest))
    case WaitTest =>
      var b := s.threads[t].paused && !s.stop;
      Stride(SeeGate(t, b), Wait(f, if b then WaitCommit else WaitLeave))
    case WaitCommit => Stride(Sleep(State(t)), Wait(f, Asleep))
    case Asleep => Stride(Tau, Wait(f, WaitLock))
    case WaitLeave => Stride(Unlock(State(t)), if f then Done else Run)
  }

  function ExitStride(s: Session, t: Tid, x: ExitPc): Stride
    requires t in s.threads
  {
    match x
    case ExitWant => Stride(Lock(Registry), Exit(ExitLook))
    case ExitLook => Stride(SeeMember(t, t in s.registry), Exit(if t in s.registry then ExitLock else ExitLeave))
    case ExitLock => Stride(Lock(State(t)), Exit(ExitTest))
    case ExitTest =>
      var b := s.threads[t].paused;
      Stride(SeePaused(t, b), Exit(if b then ExitDec else ExitRelease(false)))
    case ExitDec => Stride(Dec, Exit(ExitRelease(true)))
    case ExitRelease(d) => Stride(Unlock(State(t)), Exit(ExitErase(d)))
    case ExitErase(_) => Stride(Erase(t), Exit(ExitLeave))
    case ExitLeave => Stride(Unlock(Registry), Done)
  }

  /** One step that thread `t` can take next, lock permitting. */
  function Forward(s: Session, t: Tid): Stride
    requires t in s.threads && s.threads[t].pc != Done
  {
    match s.threads[t].pc
    case Cfg(c) => CfgStride(s, c)
    case Add(a) => AddStride(t, a)
    case Run => Stride(Tau, Hook(HookLock))
    case Hook(h) => HookStride(s, t, h)
    case Stop(f, k) => StopStride(s, t, f, k)
    case Ask(f, q) => AskStride(s, f, q)
    case Event(f, e) =>
      var (op, e') := SendStride(s, e, Stopped(t));
      Stride(op, if e == Written then Wait(f, WaitLock) else Event(f, e'))
    case Wait(f, w) => WaitStride(s, t, f, w)
    case Talk(o) =>
      var (op, o') := SendStride(s, o, Other);
      Stride(op, if o == Written then Run else Talk(o'))
    case Exit(x) => ExitStride(s, t, x)
  }

  lemma ForwardIsEdge(s: Session, t: Tid)
    requires t in s.threads && s.threads[t].pc != Done
    ensures Edge(t, s.threads[t].pc, Forward(s, t).op, Forward(s, t).pc)
  {}

  /** What a step needs besides its outcome: the locks it gives up. */
  predicate Releases(op: Op, m: Mutex) {
    op == Unlock(m) || op == Sleep(m)
  }

  lemma ForwardReleases(s: Session, t: Tid, m: Mutex)
    requires t in s.threads && s.threads[t].pc != Done && Releases(Forward(s, t).op, m)
    ensures m in Held(t, s.threads[t].pc)
  {
    ForwardIsEdge(s, t);
    EdgeMoves(t, s.threads[t].pc, Forward(s, t).op, Forward(s, t).pc);
  }

  lemma ForwardOutcome(s: Session, t: Tid)
    requires t in s.threads && s.threads[t].pc != Done
    ensures var op := Forward(s, t).op;
            op.Lock? || (op.Unlock? || op.Sleep?) || Enabled(s, Exec(t), op)
  {}

  /** The step is enabled, unless it takes a lock. */
  lemma ForwardEnabled(s: Session, t: Tid)
    requires LockInv(s) && t in s.threads && s.threads[t].pc != Done
    ensures Forward(s, t).op.Lock? || Enabled(s, Exec(t), Forward(s, t).op)
  {
    var op := Forward(s, t).op;
    ForwardOutcome(s, t);
    if op.Unlock? || op.Sleep? {
      ForwardReleases(s, t, op.m);
      assert Holds(s, Exec(t), op.m);
    }
  }

  // ----- nobody waits in vain -----

  /** Thread `t` has an enabled step; a sleeper's only step is a spurious wake-up, which
      does not count. */
  ghost predicate CanMove(s: Session, t: Tid) {
    && t in s.threads && !AsleepAt(s.threads[t].pc)
    && exists op, pc' :: Edge(t, s.threads[t].pc, op, pc') && Enabled(s, Exec(t), op)
  }

  lemma ForwardMoves(s: Session, t: Tid)
    requires LockInv(s) && t in s.threads && s.threads[t].pc != Done && !AsleepAt(s.threads[t].pc)
    requires Forward(s, t).op.Lock? ==> Forward(s, t).op.m !in s.owner
    ensures CanMove(s, t)
  {
    ForwardIsEdge(s, t);
    ForwardEnabled(s, t);
  }

  /** State locks are held and taken only by their own thread or the protocol thread. */
  lemma OwnStateOnly(t: Tid, pc: Pc, z: Tid)
    ensures State(z) in Held(t, pc) ==> z == t
  {}

  lemma LocksOwnState(t: Tid, pc: Pc, z: Tid, pc': Pc)
    requires Edge(t, pc, Lock(State(z)), pc')
    ensures z == t
  {}

  lemma OwnStateFree(s: Session, t: Tid)
    requires LockInv(s) && ProtoHeld(s.proto) == {} && t in s.threads && State(t) !in Held(t, s.threads[t].pc)
    ensures State(t) !in s.owner
  {
    if State(t) in s.owner && s.owner[State(t)].Exec? {
      var b := s.owner[State(t)];
      assert Holds(s, b, State(t));
      OwnStateOnly(b.tid, s.threads[b.tid].pc, t);
    }
  }

  /** A thread that holds a lock waits for none when the protocol thread holds none. */
  lemma HolderUnblocked(s: Session, t: Tid, m: Mutex)
    requires LockInv(s) && ProtoHeld(s.proto) == {} && Holds(s, Exec(t), m)
    ensures s.threads[t].pc != Done && !AsleepAt(s.threads[t].pc)
    ensures Forward(s, t).op.Lock? ==> Forward(s, t).op.m !in s.owner
  {
    var pc := s.threads[t].pc;
    SleepersHoldNothing(t, pc);
    ForwardIsEdge(s, t);
    var op := Forward(s, t).op;
    if op.Lock? {
      ExecWaiting(t, pc, op.m, Forward(s, t).pc);
      LocksOwnState(t, pc, op.m.tid, Forward(s, t).pc);
      OwnStateFree(s, t);
    }
  }

  lemma HolderMoves(s: Session, t: Tid, m: Mutex)
    requires LockInv(s) && ProtoHeld(s.proto) == {} && Holds(s, Exec(t), m)
    ensures CanMove(s, t)
  {
    HolderUnblocked(s, t, m);
    ForwardMoves(s, t);
  }

  lemma AwakeMoves(s: Session, t: Tid)
    requires LockInv(s) && ProtoHeld(s.proto) == {}
    requires t in s.threads && s.threads[t].pc != Done && !AsleepAt(s.threads[t].pc)
    ensures exists x :: CanMove(s, x)
  {
    var op := Forward(s, t).op;
    if op.Lock? && op.m in s.owner {
      var b := s.owner[op.m];
      assert Holds(s, b, op.m);
      HolderMoves(s, b.tid, op.m);
    } else {
      ForwardMoves(s, t);
    }
  }

  predicate Joining(p: ProtoPc) {
    p == JoinMain || p == Destroy
  }

  predicate JoinDone(s: Session)
    requires MAIN in s.threads
  {
    if s.proto == JoinMain then s.threads[MAIN].pc == Done else AllDone(s)
  }

  lemma AwakeInJoin(run: seq<Session>, i: nat, t: Tid)
    requires IsRun(run) && i < |run| && Joining(run[i].proto) && t in run[i].threads
    ensures !AsleepAt(run[i].threads[t].pc)
  {
    InvRun(run, i);
    PassedIsAwake(run, i, t);
    if run[i].threads[t].pc == Cfg(CfgAsleep) {
      NoLostConfiguration(run, i, t);
    }
  }

  /** In every reachable state in which terminate waits in a join, the join is over
      or some thread can move: locks, condition variables and joins together never
      leave it waiting for nobody. */
  lemma JoinProgress(run: seq<Session>, i: nat)
    requires IsRun(run) && i < |run| && Joining(run[i].proto)
    ensures MAIN in run[i].threads && (JoinDone(run[i]) || exists t :: CanMove(run[i], t))
  {
    var s := run[i];
    InvRun(run, i);
    if !JoinDone(s) {
      var t :| t in s.threads && s.threads[t].pc != Done;
      AwakeInJoin(run, i, t);
      AwakeMoves(s, t);
    }
  }
}
