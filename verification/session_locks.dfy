/**
 Mutual exclusion and deadlock freedom of the session locks, over every
 reachable state and any number of threads.
 */
module SessionLocks {
  import opened SessionModel

  // ----- which locks a program counter holds -----

  function HookHeld(t: Tid, h: HookPc): set<Mutex> {
    match h
    case HookLook | HookFound(_) => {Registry}
    case HookHold => {State(t)}
    case FaultRecord(_) => {Fault}
    case _ => {}
  }

  function StopHeld(t: Tid, k: StopPc): set<Mutex> {
    match k
    case StopLook | StopFound(_) => {Registry}
    case StopMark | StopCount | StopFlag | StopRelease => {State(t)}
    case _ => {}
  }

  function ExitHeld(t: Tid, x: ExitPc): set<Mutex> {
    match x
    case ExitWant => {}
    case ExitTest | ExitDec | ExitRelease(_) => {Registry, State(t)}
    case _ => {Registry}
  }

  function Held(t: Tid, pc: Pc): set<Mutex> {
    match pc
    case Cfg(c) => if c == CfgEnter || c == CfgAsleep then {} else {Config}
    case Add(a) => if a == AddEnter then {} else {Registry}
    case Hook(h) => HookHeld(t, h)
    case Stop(_, k) => StopHeld(t, k)
    case Ask(_, q) => if q == AskWant then {} else {Registry}
    case Event(_, e) => if e == Want then {} else {Wire}
    case Wait(_, w) => if w == WaitLock || w == Asleep then {} else {State(t)}
    case Talk(o) => if o == Want then {} else {Wire}
    case Exit(x) => ExitHeld(t, x)
    case _ => {}
  }

  function ProtoHeld(p: ProtoPc): set<Mutex> {
    match p
    case Check(_, l) => if l == LookWant then {} else {Registry}
    case Get(_, l) => if l == LookWant then {} else {Registry}
    case ForceEnter(l) => if l == LookWant then {} else {Registry}
    case ScanEnter(_, l) => if l == LookWant then {} else {Registry}
    case Send(_, e) => if e == Want then {} else {Wire}
    case Forget(_, _, locked) => if locked then {Fault} else {}
    case Visit(_, _, u, v) => if v == Owe then {} else {State(u)}
    case Signal(_, g) => if g == ConfigWant then {} else {Config}
    case ForcePick(_) | ScanPick(_, _) => {Registry}
    case Force(_, u, _) => {Registry, State(u)}
    case Scan(_, _, u) => {Registry, State(u)}
    case _ => {}
  }

  /** How an operation changes the set of locks held by its actor. */
  predicate Moves(op: Op, before: set<Mutex>, after: set<Mutex>) {
    match op
    case Lock(m) => after == before + {m}
    case Unlock(m) => m in before && after == before - {m}
    case Sleep(m) => m in before && after == before - {m}
    case _ => after == before
  }

  lemma HookMoves(t: Tid, h: HookPc, op: Op, pc': Pc)
    requires HookEdge(t, h, op, pc')
    ensures Moves(op, HookHeld(t, h), Held(t, pc'))
  {}

  lemma StopMoves(t: Tid, f: bool, k: StopPc, op: Op, pc': Pc)
    requires StopEdge(t, f, k, op, pc')
    ensures Moves(op, StopHeld(t, k), Held(t, pc'))
  {}

  lemma ExitMoves(t: Tid, x: ExitPc, op: Op, pc': Pc)
    requires ExitEdge(t, x, op, pc')
    ensures Moves(op, ExitHeld(t, x), Held(t, pc'))
  {}

  lemma MessageMoves(t: Tid, pc: Pc, op: Op, pc': Pc)
    requires pc.Ask? || pc.Event? || pc.Talk?
    requires Edge(t, pc, op, pc')
    ensures Moves(op, Held(t, pc), Held(t, pc'))
  {}

  lemma EdgeMoves(t: Tid, pc: Pc, op: Op, pc': Pc)
    requires Edge(t, pc, op, pc')
    ensures Moves(op, Held(t, pc), Held(t, pc'))
  {
    match pc
    case Hook(h) => HookMoves(t, h, op, pc');
    case Stop(f, k) => StopMoves(t, f, k, op, pc');
    case Exit(x) => ExitMoves(t, x, op, pc');
    case Ask(_, _) => MessageMoves(t, pc, op, pc');
    case Event(_, _) => MessageMoves(t, pc, op, pc');
    case Talk(_) => MessageMoves(t, pc, op, pc');
    case _ =>
  }

  lemma VisitMoves(r: Req, todo: set<Tid>, u: Tid, v: VisitPc, op: Op, p': ProtoPc)
    requires VisitEdge(r, todo, u, v, op, p')
    ensures Moves(op, ProtoHeld(Visit(r, todo, u, v)), ProtoHeld(p'))
  {}

  lemma TerminateMoves(p: ProtoPc, op: Op, p': ProtoPc)
    requires TerminateEdge(p, op, p') || ScanEdge(p, op, p')
    ensures Moves(op, ProtoHeld(p), ProtoHeld(p'))
  {}

  lemma LookMoves(p: ProtoPc, op: Op, p': ProtoPc)
    requires p.Check? || p.Get? || p.Send?
    requires ProtoEdge(p, op, p')
    ensures Moves(op, ProtoHeld(p), ProtoHeld(p'))
  {}

  lemma ProtoEdgeMoves(p: ProtoPc, op: Op, p': ProtoPc)
    requires ProtoEdge(p, op, p')
    ensures Moves(op, ProtoHeld(p), ProtoHeld(p'))
  {
    if p.Check? || p.Get? || p.Send? {
      LookMoves(p, op, p');
    } else if TerminateEdge(p, op, p') || ScanEdge(p, op, p') {
      TerminateMoves(p, op, p');
    } else if p.Visit? {
      VisitMoves(p.r, p.todo, p.u, p.v, op, p');
    }
  }

  // ----- ownership -----

  predicate Live(s: Session, a: Actor) {
    a.Exec? ==> a.tid in s.threads
  }

  function HeldBy(s: Session, a: Actor): set<Mutex>
    requires Live(s, a)
  {
    if a.Proto? then ProtoHeld(s.proto) else Held(a.tid, s.threads[a.tid].pc)
  }

  predicate Holds(s: Session, a: Actor, m: Mutex) {
    Live(s, a) && m in HeldBy(s, a)
  }

  /** A lock is owned by exactly the actor whose program counter holds it. */
  ghost predicate LockInv(s: Session) {
    && (forall m | m in s.owner :: Holds(s, s.owner[m], m))
    && (forall a, m | Holds(s, a, m) :: m in s.owner && s.owner[m] == a)
  }

  predicate OwnerMoves(op: Op, a: Actor, before: map<Mutex, Actor>, after: map<Mutex, Actor>) {
    match op
    case Lock(m) => m !in before && after == before[m := a]
    case Unlock(m) => m in before && after == before - {m}
    case Sleep(m) => m in before && after == before - {m}
    case _ => after == before
  }

  /** One step of actor `a`, seen only through the locks held, keeps ownership exact. */
  lemma OwnershipKept(s: Session, a: Actor, op: Op, s': Session)
    requires LockInv(s) && Live(s, a) && Live(s', a)
    requires OwnerMoves(op, a, s.owner, s'.owner)
    requires Moves(op, HeldBy(s, a), HeldBy(s', a))
    requires forall b: Actor | b != a :: Live(s', b) <==> Live(s, b)
    requires forall b: Actor | b != a && Live(s, b) :: HeldBy(s', b) == HeldBy(s, b)
    ensures LockInv(s')
  {
    forall b: Actor, m | Holds(s', b, m)
      ensures m in s'.owner && s'.owner[m] == b
    {
      assert b != a ==> Holds(s, b, m);
      assert op == Unlock(m) || op == Sleep(m) ==> Holds(s, a, m);
      assert b == a ==> Holds(s, b, m) || op == Lock(m);
    }
    forall m | m in s'.owner
      ensures Holds(s', s'.owner[m], m)
    {
      if op != Lock(m) {
        assert m in s.owner && Holds(s, s.owner[m], m);
      }
    }
  }

  lemma LockInvInit(s: Session)
    requires Init(s)
    ensures LockInv(s)
  {}

  /** An operation wakes at most sleepers, which hold nothing. */
  lemma EffectHeld(s: Session, a: Actor, op: Op, t: Tid)
    requires Enabled(s, a, op) && t in s.threads
    ensures Effect(s, a, op).threads.Keys == s.threads.Keys
    ensures Held(t, Effect(s, a, op).threads[t].pc) == Held(t, s.threads[t].pc)
  {
    EffectKeys(s, a, op);
    EffectPc(s, a, op, t);
    SleepersHoldNothing(t, s.threads[t].pc);
  }

  predicate AsleepAt(pc: Pc) {
    pc == Cfg(CfgAsleep) || (pc.Wait? && pc.w == Asleep)
  }

  function Woke(pc: Pc): Pc {
    if pc.Wait? then Wait(pc.fatal, WaitLock) else Cfg(CfgEnter)
  }

  lemma EffectKeys(s: Session, a: Actor, op: Op)
    requires Enabled(s, a, op)
    ensures Effect(s, a, op).threads.Keys == s.threads.Keys
  {}

  lemma EffectPc(s: Session, a: Actor, op: Op, t: Tid)
    requires Enabled(s, a, op) && t in s.threads && t in Effect(s, a, op).threads
    ensures var pc, pc' := s.threads[t].pc, Effect(s, a, op).threads[t].pc;
            pc' == pc || (AsleepAt(pc) && pc' == Woke(pc))
  {}

  lemma SleepersHoldNothing(t: Tid, pc: Pc)
    ensures AsleepAt(pc) ==> Held(t, pc) == {} && Held(t, Woke(pc)) == {}
  {}

  lemma EffectOwner(s: Session, a: Actor, op: Op)
    requires Enabled(s, a, op)
    ensures OwnerMoves(op, a, s.owner, Effect(s, a, op).owner)
    ensures Effect(s, a, op).proto == s.proto
  {}

  lemma LockInvExec(s: Session, t: Tid, op: Op, pc': Pc, s': Session)
    requires LockInv(s) && ExecStep(s, t, op, pc', s')
    ensures LockInv(s')
  {
    EdgeMoves(t, s.threads[t].pc, op, pc');
    EffectOwner(s, Exec(t), op);
    EffectHeld(s, Exec(t), op, t);
    forall b: Actor | b != Exec(t) && Live(s, b)
      ensures HeldBy(s', b) == HeldBy(s, b)
    {
      if b.Exec? {
        EffectHeld(s, Exec(t), op, b.tid);
      }
    }
    OwnershipKept(s, Exec(t), op, s');
  }

  lemma LockInvProto(s: Session, op: Op, p': ProtoPc, s': Session)
    requires LockInv(s) && ProtoStep(s, op, p', s')
    ensures LockInv(s')
  {
    ProtoEdgeMoves(s.proto, op, p');
    EffectOwner(s, Proto, op);
    forall b: Actor | b != Proto && Live(s, b)
      ensures Live(s', b) && HeldBy(s', b) == HeldBy(s, b)
    {
      EffectHeld(s, Proto, op, b.tid);
    }
    OwnershipKept(s, Proto, op, s');
  }

  lemma LockInvSpawn(s: Session, parent: Tid, t: Tid, s': Session)
    requires LockInv(s) && SpawnStep(s, parent, t, s')
    ensures LockInv(s')
  {
    forall a: Actor, m | Holds(s', a, m)
      ensures m in s'.owner && s'.owner[m] == a
    {
      assert Holds(s, a, m);
    }
    forall m | m in s'.owner
      ensures Holds(s', s'.owner[m], m)
    {
      assert Holds(s, s.owner[m], m);
    }
  }

  lemma LockInvNext(s: Session, s': Session)
    requires LockInv(s) && Next(s, s')
    ensures LockInv(s')
  {
    if t, op, pc' :| ExecStep(s, t, op, pc', s') {
      LockInvExec(s, t, op, pc', s');
    } else if op, p' :| ProtoStep(s, op, p', s') {
      LockInvProto(s, op, p', s');
    } else {
      var parent, t :| SpawnStep(s, parent, t, s');
      LockInvSpawn(s, parent, t, s');
    }
  }

  lemma {:induction false} LockInvRun(run: seq<Session>, i: nat)
    requires IsRun(run) && i < |run|
    ensures LockInv(run[i])
  {
    if i == 0 {
      LockInvInit(run[0]);
    } else {
      LockInvRun(run, i - 1);
      assert StepAt(run, i - 1);
      LockInvNext(run[i - 1], run[i]);
    }
  }

  /** What thread `t` holds, the protocol thread does not. */
  lemma HeldApart(s: Session, t: Tid)
    requires LockInv(s) && t in s.threads
    ensures Held(t, s.threads[t].pc) !! ProtoHeld(s.proto)
  {
    forall m | m in Held(t, s.threads[t].pc)
      ensures m !in ProtoHeld(s.proto)
    {
      assert Holds(s, Exec(t), m);
      assert !Holds(s, Proto, m);
    }
  }

  // ----- deadlock freedom -----

  /** Actor `a` is about to acquire `m`. */
  ghost predicate Wants(s: Session, a: Actor, m: Mutex)
    requires Live(s, a)
  {
    if a.Proto? then exists p': ProtoPc :: ProtoEdge(s.proto, Lock(m), p')
    else exists pc': Pc :: Edge(a.tid, s.threads[a.tid].pc, Lock(m), pc')
  }

  ghost predicate Blocked(s: Session, a: Actor, actors: set<Actor>)
  {
    Live(s, a) && exists m :: Wants(s, a, m) && m in s.owner && s.owner[m] in actors
  }

  /** Every member waits for a lock that a member of the set holds. */
  ghost predicate Deadlocked(s: Session, actors: set<Actor>) {
    actors != {} && forall a {:trigger Blocked(s, a, actors)} | a in actors :: Blocked(s, a, actors)
  }

  lemma ExecWaiting(t: Tid, pc: Pc, m: Mutex, pc': Pc)
    requires Edge(t, pc, Lock(m), pc')
    ensures Held(t, pc) == {} || (Held(t, pc) == {Registry} && m.State?)
  {}

  lemma ProtoWaiting(p: ProtoPc, m: Mutex, p': ProtoPc)
    requires ProtoEdge(p, Lock(m), p')
    ensures ProtoHeld(p) == {} || (ProtoHeld(p) == {Registry} && m.State?)
  {}

  /** A waiting actor holds nothing, or holds the registry and waits for a thread state. */
  lemma WaitingHoldsLittle(s: Session, a: Actor, m: Mutex)
    requires Live(s, a) && Wants(s, a, m)
    ensures HeldBy(s, a) == {} || (HeldBy(s, a) == {Registry} && m.State?)
  {
    if a.Proto? {
      var p' :| ProtoEdge(s.proto, Lock(m), p');
      ProtoWaiting(s.proto, m, p');
    } else {
      var pc' :| Edge(a.tid, s.threads[a.tid].pc, Lock(m), pc');
      ExecWaiting(a.tid, s.threads[a.tid].pc, m, pc');
    }
  }
}
