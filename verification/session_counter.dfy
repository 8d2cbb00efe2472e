/**
 The lock-free pause counter agrees with the pause marks in every reachable
 state, so the answer to "are all threads stopped?" is sound.
 */
module SessionCounter {
  import opened SessionModel
  import opened SessionLocks
  import opened SessionZones

  // ----- the invariant of one thread -----

  predicate Registered(z: Zone) {
    z != Fresh && z != Parting && z != Gone
  }

  predicate PauseOk(z: Zone, paused: bool, stop: bool) {
    match z
    case Fresh | Clean | Stopping | Settled => !paused
    case Free | Leaving | Parting | Removing | Gone => paused ==> stop
    case Marked | Committed => paused
    case Paying | Deducted => paused && stop
    case Halted | Sleeping => true
  }

  /** A thread of zone `z`: when it is registered and when it may be marked paused. */
  predicate ZoneInv(t: Tid, z: Zone, member: bool, paused: bool, stop: bool) {
    && (t == MAIN || Registered(z) ==> member)
    && (t != MAIN && (z == Fresh || z == Gone) ==> !member)
    && PauseOk(z, paused, stop)
  }

  predicate ThreadInv(s: Session, t: Tid)
    requires t in s.threads
  {
    var th := s.threads[t];
    Role(t, th.pc) && ZoneInv(t, ZoneOf(th.pc), t in s.registry, th.paused, s.stop)
  }

  // ----- the invariant of the protocol thread -----

  /** The threads it still works on. */
  function Work(p: ProtoPc): set<Tid> {
    match p
    case Forget(_, todo, _) => todo
    case Get(_, l) => if l.LookDone? then l.found else {}
    case Pick(_, todo) => todo
    case Visit(_, todo, u, _) => todo + {u}
    case ForceEnter(l) => if l.LookDone? then l.found else {}
    case ForcePick(todo) => todo
    case Force(todo, u, _) => todo + {u}
    case ScanEnter(_, l) => if l.LookDone? then l.found else {}
    case ScanPick(_, todo) => todo
    case Scan(_, todo, u) => todo + {u}
    case _ => {}
  }

  predicate Terminating(p: ProtoPc) {
    match p
    case Signal(term, _) => term
    case ForceEnter(_) | ForcePick(_) | Force(_, _, _) | JoinMain | Destroy => true
    case ScanEnter(nulling, _) => nulling
    case ScanPick(nulling, _) => nulling
    case Scan(nulling, _, _) => nulling
    case _ => false
  }

  /** The thread whose pause was deducted from the counter before its mark is cleared. */
  predicate Owed(p: ProtoPc, t: Tid) {
    p.Visit? && p.u == t && p.v == Unpause(true)
  }

  /** The thread whose mark was cleared before its pause is deducted. */
  predicate Overdue(p: ProtoPc, t: Tid) {
    p.Force? && p.u == t && p.f == ForceDec
  }

  /** What the protocol thread knows about the pause mark of the thread it holds. */
  predicate KnowsPaused(p: ProtoPc) {
    (p.Visit? && (p.v == Deduct || p.v == Unpause(true))) || (p.Force? && p.f == ForceClear)
  }

  predicate KnowsUnpaused(p: ProtoPc) {
    (p.Visit? && p.v == Unpause(false)) || (p.Force? && p.f == ForceDec)
  }

  predicate WorkInv(s: Session) {
    var p := s.proto;
    && Work(p) <= s.threads.Keys
    && (Registry in ProtoHeld(p) ==> Work(p) <= s.registry)
    && (s.stop && !Terminating(p) ==> AllDone(s) && Work(p) <= s.registry)
    && (Terminating(p) ==> s.stop)
  }

  predicate KnowInv(s: Session) {
    var p := s.proto;
    && (KnowsPaused(p) ==> p.u in s.threads && s.threads[p.u].paused)
    && (KnowsUnpaused(p) ==> p.u in s.threads && !s.threads[p.u].paused)
  }

  predicate ProtoInv(s: Session) {
    WorkInv(s) && KnowInv(s)
  }

  // ----- the counter -----

  predicate CountedIn(z: Zone, member: bool, paused: bool, owed: bool, overdue: bool) {
    (member && paused && z != Marked && z != Deducted && !owed) || overdue
  }

  /** Thread `t` is included in the counter right now. */
  predicate Counted(s: Session, t: Tid)
    requires t in s.threads
  {
    CountedIn(ZoneOf(s.threads[t].pc), t in s.registry, s.threads[t].paused, Owed(s.proto, t), Overdue(s.proto, t))
  }

  function CountedSet(s: Session): set<Tid> {
    set t | t in s.threads && Counted(s, t)
  }

  ghost predicate Inv(s: Session) {
    && LockInv(s)
    && s.registry <= s.threads.Keys
    && MAIN in s.threads
    && (forall t | t in s.threads :: ThreadInv(s, t))
    && ProtoInv(s)
    && s.count == |CountedSet(s)|
  }

  // ----- a step, seen through zones, marks, registry and counter -----

  predicate MarkAfter(op: Op, x: Tid, paused: bool) {
    op == Mark(x) || (paused && op != Clear(x))
  }

  predicate MemberAfter(op: Op, x: Tid, member: bool) {
    op == Insert(x) || (member && op != Erase(x))
  }

  function CountAfter(op: Op, count: int): int {
    if op.Inc? then count + 1 else if op.Dec? then count - 1 else count
  }

  /** Outcomes of tests agree with the state. */
  predicate Tested(s: Session, op: Op) {
    match op
    case SeeStop(b) => b == s.stop
    case SeeConfig(b) => b == (s.configured || s.stop)
    case SeeMember(t, b) => b == (t in s.registry)
    case SeePaused(t, b) => t in s.threads && b == s.threads[t].paused
    case SeeGate(t, b) => t in s.threads && b == (s.threads[t].paused && !s.stop)
    case SeeRegistry(ts) => ts == s.registry
    case SeeAllDone => AllDone(s)
    case _ => true
  }

  ghost predicate SharedAfter(s: Session, op: Op, s': Session) {
    && Tested(s, op)
    && s'.threads.Keys == s.threads.Keys
    && (forall x | x in s.threads :: s'.threads[x].paused == MarkAfter(op, x, s.threads[x].paused))
    && (forall x :: x in s'.registry <==> MemberAfter(op, x, x in s.registry))
    && s'.count == CountAfter(op, s.count)
    && s'.stop == (s.stop || op.RequestStop?)
    && s'.configured == (s.configured || op.SetConfig?)
  }

  /** The view that thread `t` has of its own step. */
  predicate OwnView(t: Tid, pc: Pc, op: Op, pc': Pc) {
    && pc != Done
    && ZoneEdge(t, ZoneOf(pc), op, ZoneOf(pc'))
    && (Role(t, pc) ==>
          && Role(t, pc')
          && (t != MAIN && ZoneOf(pc') == Gone ==> Departing(ZoneOf(pc)))
          && (t == MAIN ==> !op.Erase?))
    && (op.Insert? || op.Erase? ==> Registry in Held(t, pc))
    && (op.Mark? || op.Inc? || op.Dec? ==> State(t) in Held(t, pc))
  }

  /** The view that the others have of a step of thread `t`. */
  ghost predicate ExecView(s: Session, t: Tid, op: Op, s': Session) {
    && t in s.threads
    && SharedAfter(s, op, s')
    && !op.RequestStop? && !op.Clear? && !op.SetConfig?
    && s'.proto == s.proto
    && forall x | x in s.threads && x != t :: s'.threads[x].pc == s.threads[x].pc
  }

  /** The view of a step of the protocol thread: it moves no other thread, but wakes sleepers. */
  ghost predicate ProtoView(s: Session, op: Op, s': Session) {
    && SharedAfter(s, op, s')
    && forall x | x in s.threads :: Woken(s.threads[x].pc, op, x, s'.threads[x].pc)
  }

  predicate Woken(pc: Pc, op: Op, x: Tid, pc': Pc) {
    pc' == if op == Notify(x) && pc.Wait? && pc.w == Asleep then Wait(pc.fatal, WaitLock)
           else if op == NotifyConfig && pc == Cfg(CfgAsleep) then Cfg(CfgEnter)
           else pc
  }

  lemma EffectMarks(s: Session, a: Actor, op: Op, x: Tid)
    requires Enabled(s, a, op)
    ensures Effect(s, a, op).threads.Keys == s.threads.Keys
    ensures x in s.threads ==> Effect(s, a, op).threads[x].paused == MarkAfter(op, x, s.threads[x].paused)
  {
    EffectKeys(s, a, op);
    if x in s.threads {
      EffectMark(s, a, op, x);
    }
  }

  lemma EffectMark(s: Session, a: Actor, op: Op, x: Tid)
    requires Enabled(s, a, op) && x in s.threads && x in Effect(s, a, op).threads
    ensures Effect(s, a, op).threads[x].paused == MarkAfter(op, x, s.threads[x].paused)
  {}

  lemma EffectScalars(s: Session, a: Actor, op: Op)
    requires Enabled(s, a, op)
    ensures var e := Effect(s, a, op);
            && (forall x :: x in e.registry <==> MemberAfter(op, x, x in s.registry))
            && e.count == CountAfter(op, s.count)
            && e.stop == (s.stop || op.RequestStop?)
            && e.configured == (s.configured || op.SetConfig?)
            && e.proto == s.proto
  {}

  lemma EffectShared(s: Session, a: Actor, op: Op)
    requires Enabled(s, a, op)
    ensures SharedAfter(s, op, Effect(s, a, op)) && Effect(s, a, op).proto == s.proto
  {
    EffectScalars(s, a, op);
    EffectMarks(s, a, op, 0);
    forall x | x in s.threads
      ensures Effect(s, a, op).threads[x].paused == MarkAfter(op, x, s.threads[x].paused)
    {
      EffectMarks(s, a, op, x);
    }
  }

  lemma EffectWakes(s: Session, a: Actor, op: Op, x: Tid)
    requires Enabled(s, a, op) && x in s.threads
    ensures x in Effect(s, a, op).threads
    ensures Woken(s.threads[x].pc, op, x, Effect(s, a, op).threads[x].pc)
  {}

  lemma EdgeOwn(t: Tid, pc: Pc, op: Op, pc': Pc)
    requires Edge(t, pc, op, pc')
    ensures OwnView(t, pc, op, pc')
  {
    EdgeZones(t, pc, op, pc');
    EdgeLocks(t, pc, op, pc');
    if Role(t, pc) {
      EdgeRole(t, pc, op, pc');
    }
  }

  lemma OwnQuiet(t: Tid, z: Zone, op: Op, z': Zone)
    requires ZoneEdge(t, z, op, z')
    ensures !op.RequestStop? && !op.Notify? && !op.NotifyConfig? && !op.Clear? && !op.SetConfig?
    ensures (op.Mark? || op.Insert? || op.Erase?) ==> op.t == t
  {}

  lemma ExecSeen(s: Session, t: Tid, op: Op, pc': Pc, s': Session)
    requires t in s.threads && Enabled(s, Exec(t), op)
    requires t in Effect(s, Exec(t), op).threads && s' == SetPc(Effect(s, Exec(t), op), t, pc')
    requires !op.RequestStop? && !op.Notify? && !op.NotifyConfig? && !op.Clear? && !op.SetConfig?
    ensures ExecView(s, t, op, s') && s'.threads[t].pc == pc'
  {
    EffectShared(s, Exec(t), op);
    forall x | x in s.threads && x != t
      ensures s'.threads[x].pc == s.threads[x].pc
    {
      EffectWakes(s, Exec(t), op, x);
    }
  }

  lemma ProtoSeen(s: Session, op: Op, p': ProtoPc, s': Session)
    requires Enabled(s, Proto, op) && s' == Effect(s, Proto, op).(proto := p')
    ensures ProtoView(s, op, s')
  {
    EffectShared(s, Proto, op);
    forall x | x in s.threads
      ensures Woken(s.threads[x].pc, op, x, s'.threads[x].pc)
    {
      EffectWakes(s, Proto, op, x);
    }
  }

  // ----- steps of execution threads -----

  lemma InvInit(s: Session)
    requires Init(s)
    ensures Inv(s)
  {
    LockInvInit(s);
    assert CountedSet(s) == {};
  }

  lemma ZoneInvKept(t: Tid, z: Zone, op: Op, z': Zone, member: bool, paused: bool, stop: bool)
    requires ZoneInv(t, z, member, paused, stop) && ZoneEdge(t, z, op, z')
    requires t != MAIN && z' == Gone ==> Departing(z)
    requires t == MAIN ==> !op.Erase?
    requires op.SeeStop? ==> op.b == stop
    requires op.SeeMember? && op.t == t ==> op.b == member
    requires op.SeePaused? && op.t == t ==> op.b == paused
    requires op.SeeGate? && op.t == t ==> op.b == (paused && !stop)
    ensures ZoneInv(t, z', MemberAfter(op, t, member), MarkAfter(op, t, paused), stop)
  {}

  lemma ThreadInvSelf(s: Session, t: Tid, op: Op, s': Session)
    requires ExecView(s, t, op, s') && ThreadInv(s, t)
    requires OwnView(t, s.threads[t].pc, op, s'.threads[t].pc)
    ensures ThreadInv(s', t)
  {
    ZoneInvKept(t, ZoneOf(s.threads[t].pc), op, ZoneOf(s'.threads[t].pc), t in s.registry, s.threads[t].paused, s.stop);
  }

  lemma ThreadInvOther(s: Session, t: Tid, op: Op, s': Session, x: Tid)
    requires ExecView(s, t, op, s') && x in s.threads && x != t && ThreadInv(s, x)
    requires (op.Mark? || op.Insert? || op.Erase?) ==> op.t == t
    ensures ThreadInv(s', x)
  {
    assert ZoneOf(s'.threads[x].pc) == ZoneOf(s.threads[x].pc);
  }

  /** Only Inc and Dec change whether a thread is counted, and both always do. */
  lemma CountedKept(
      t: Tid, z: Zone, op: Op, z': Zone, member: bool, paused: bool, stop: bool, owed: bool, overdue: bool)
    requires ZoneInv(t, z, member, paused, stop) && ZoneEdge(t, z, op, z')
    requires op.Mark? || op.Inc? || op.Dec? ==> !owed && !overdue
    ensures var before := CountedIn(z, member, paused, owed, overdue);
            var after := CountedIn(z', MemberAfter(op, t, member), MarkAfter(op, t, paused), owed, overdue);
            if op.Inc? then !before && after else if op.Dec? then before && !after else before == after
  {}

  lemma CountedExec(s: Session, t: Tid, op: Op, s': Session)
    requires ExecView(s, t, op, s') && LockInv(s) && ThreadInv(s, t)
    requires OwnView(t, s.threads[t].pc, op, s'.threads[t].pc)
    ensures if op.Inc? then !Counted(s, t) && Counted(s', t)
            else if op.Dec? then Counted(s, t) && !Counted(s', t)
            else Counted(s', t) == Counted(s, t)
  {
    HeldApart(s, t);
    CountedKept(t, ZoneOf(s.threads[t].pc), op, ZoneOf(s'.threads[t].pc), t in s.registry, s.threads[t].paused, s.stop,
                Owed(s.proto, t), Overdue(s.proto, t));
  }

  lemma CountExec(s: Session, t: Tid, op: Op, s': Session)
    requires ExecView(s, t, op, s') && LockInv(s) && ThreadInv(s, t) && s.count == |CountedSet(s)|
    requires OwnView(t, s.threads[t].pc, op, s'.threads[t].pc)
    requires (op.Mark? || op.Insert? || op.Erase?) ==> op.t == t
    ensures s'.count == |CountedSet(s')|
  {
    CountedExec(s, t, op, s');
    forall x | x in s.threads && x != t
      ensures Counted(s', x) == Counted(s, x)
    {
      CountedOther(s, t, op, s', x);
    }
    CountedSetMoves(s, t, op, s');
  }

  lemma CountedOther(s: Session, t: Tid, op: Op, s': Session, x: Tid)
    requires ExecView(s, t, op, s') && x in s.threads && x != t
    requires (op.Mark? || op.Insert? || op.Erase?) ==> op.t == t
    ensures Counted(s', x) == Counted(s, x)
  {}

  lemma CountedSetMoves(s: Session, t: Tid, op: Op, s': Session)
    requires t in s.threads && s'.threads.Keys == s.threads.Keys
    requires forall x | x in s.threads && x != t :: Counted(s', x) == Counted(s, x)
    requires if op.Inc? then !Counted(s, t) && Counted(s', t)
             else if op.Dec? then Counted(s, t) && !Counted(s', t)
             else Counted(s', t) == Counted(s, t)
    ensures |CountedSet(s')| == CountAfter(op, |CountedSet(s)|)
  {
    var before, after := CountedSet(s), CountedSet(s');
    if op.Inc? {
      assert after == before + {t};
    } else if op.Dec? {
      assert before == after + {t};
    } else {
      assert after == before;
    }
  }

  lemma ProtoInvExec(s: Session, t: Tid, op: Op, s': Session)
    requires ExecView(s, t, op, s') && LockInv(s) && ProtoInv(s)
    requires OwnView(t, s.threads[t].pc, op, s'.threads[t].pc)
    requires (op.Mark? || op.Insert? || op.Erase?) ==> op.t == t
    ensures ProtoInv(s')
  {
    HeldApart(s, t);
    WorkInvExec(s, t, op, s');
    KnowInvExec(s, t, op, s');
  }

  lemma WorkInvExec(s: Session, t: Tid, op: Op, s': Session)
    requires ExecView(s, t, op, s') && WorkInv(s) && (op.Insert? || op.Erase? ==> op.t == t)
    requires OwnView(t, s.threads[t].pc, op, s'.threads[t].pc)
    requires op.Erase? ==> Registry !in ProtoHeld(s.proto)
    ensures WorkInv(s')
  {
    assert Work(s.proto) <= s.registry && !op.Erase? ==> Work(s.proto) <= s'.registry;
  }

  lemma KnowInvExec(s: Session, t: Tid, op: Op, s': Session)
    requires ExecView(s, t, op, s') && KnowInv(s)
    requires OwnView(t, s.threads[t].pc, op, s'.threads[t].pc)
    requires op.Mark? ==> op.t == t && State(t) !in ProtoHeld(s.proto)
    ensures KnowInv(s')
  {}

  // ----- steps of the protocol thread -----

  /** Everything the protocol thread does to pause marks and to the counter. */
  predicate PauseEdge(p: ProtoPc, op: Op, p': ProtoPc) {
    if p.Visit? && p.v == Deduct then op == Dec && p' == p.(v := Unpause(true))
    else if p.Visit? && p.v.Unpause? then op == Clear(p.u) && p' == p.(v := Unpaused)
    else if p.Force? && p.f == ForceClear then op == Clear(p.u) && p' == p.(f := ForceDec)
    else if p.Force? && p.f == ForceDec then op == Dec && p' == p.(f := ForceNotify)
    else
      && !(op.Insert? || op.Erase? || op.Mark? || op.Clear? || op.Inc? || op.Dec?)
      && !(p'.Visit? && p'.v == Unpause(true)) && !(p'.Force? && p'.f == ForceDec)
      && (KnowsPaused(p') ==> op == SeePaused(p'.u, true))
      && (KnowsUnpaused(p') ==> op == SeePaused(p'.u, false))
  }

  /** How its list of threads to work on, and the termination it is in, evolve. */
  predicate WorkEdge(p: ProtoPc, op: Op, p': ProtoPc) {
    && (Work(p') <= Work(p) || (op.SeeRegistry? && Work(p') <= op.ts)
        || (op.SeeMember? && op.b && Work(p') == {op.t}))
    && (op.SeeRegistry? || op.SeeMember? ==> Registry in ProtoHeld(p'))
    && (Registry in ProtoHeld(p') && Work(p') != {} ==> Registry in ProtoHeld(p))
    && (op.RequestStop? <==> p == StopRequest)
    && (Terminating(p') ==> Terminating(p) || op.RequestStop?)
    && (op.RequestStop? ==> Terminating(p') && Work(p') == {})
    && (Terminating(p) && !Terminating(p') ==> op == SeeAllDone && Work(p') == {})
  }

  lemma VisitPauses(r: Req, todo: set<Tid>, u: Tid, v: VisitPc, op: Op, p': ProtoPc)
    requires VisitEdge(r, todo, u, v, op, p')
    ensures PauseEdge(Visit(r, todo, u, v), op, p')
    ensures WorkEdge(Visit(r, todo, u, v), op, p')
  {}

  lemma ForcePauses(todo: set<Tid>, u: Tid, f: ForcePc, op: Op, p': ProtoPc)
    requires ForceEdge(todo, u, f, op, p')
    ensures PauseEdge(Force(todo, u, f), op, p')
    ensures WorkEdge(Force(todo, u, f), op, p')
  {}

  lemma ScanPauses(p: ProtoPc, op: Op, p': ProtoPc)
    requires ScanEdge(p, op, p') || TerminateEdge(p, op, p')
    ensures PauseEdge(p, op, p') && WorkEdge(p, op, p')
  {}

  lemma LookPauses(p: ProtoPc, op: Op, p': ProtoPc)
    requires p.Check? || p.Get? || p.Send? || p.Forget?
    requires ProtoEdge(p, op, p')
    ensures PauseEdge(p, op, p') && WorkEdge(p, op, p')
  {}

  lemma ProtoPauses(p: ProtoPc, op: Op, p': ProtoPc)
    requires ProtoEdge(p, op, p')
    ensures PauseEdge(p, op, p') && WorkEdge(p, op, p')
  {
    if p.Visit? {
      VisitPauses(p.r, p.todo, p.u, p.v, op, p');
    } else if p.Force? {
      ForcePauses(p.todo, p.u, p.f, op, p');
    } else if ScanEdge(p, op, p') || TerminateEdge(p, op, p') {
      ScanPauses(p, op, p');
    } else if p.Check? || p.Get? || p.Send? || p.Forget? {
      LookPauses(p, op, p');
    }
  }

  lemma WorkInvProto(s: Session, op: Op, s': Session)
    requires ProtoView(s, op, s') && WorkInv(s) && s.registry <= s.threads.Keys
    requires !op.Insert? && !op.Erase? && WorkEdge(s.proto, op, s'.proto)
    ensures WorkInv(s')
  {
    assert s'.registry == s.registry;
    assert AllDone(s) ==> AllDone(s');
  }

  lemma KnowInvProto(s: Session, op: Op, s': Session)
    requires SharedAfter(s, op, s') && KnowInv(s) && PauseEdge(s.proto, op, s'.proto)
    ensures KnowInv(s')
  {}

  /** A thread whose state the protocol thread is about to unpause is in none of
      the zones that rely on the pause mark. */
  lemma Pinned(s: Session)
    requires LockInv(s) && ProtoInv(s)
    requires (s.proto.Visit? && s.proto.v != Owe) || s.proto.Force?
    requires s.proto.u in s.threads && ThreadInv(s, s.proto.u)
    ensures RelaxedZone(ZoneOf(s.threads[s.proto.u].pc))
  {
    HeldApart(s, s.proto.u);
    ZoneHolds(s.proto.u, s.threads[s.proto.u].pc);
  }

  lemma ZoneHolds(t: Tid, pc: Pc)
    ensures var z := ZoneOf(pc); z == Marked || z == Committed || z == Paying ==> State(t) in Held(t, pc)
    ensures ZoneOf(pc) == Deducted ==> Registry in Held(t, pc) && pc != Done
  {}

  lemma ThreadInvProto(s: Session, op: Op, s': Session, x: Tid)
    requires ProtoView(s, op, s') && x in s.threads && ThreadInv(s, x)
    requires !(op.Insert? || op.Erase? || op.Mark?)
    requires op == Clear(x) ==> RelaxedZone(ZoneOf(s.threads[x].pc))
    ensures ThreadInv(s', x)
  {
    WokenZone(x, s.threads[x].pc, op, s'.threads[x].pc);
  }

  lemma WokenZone(x: Tid, pc: Pc, op: Op, pc': Pc)
    requires Woken(pc, op, x, pc')
    ensures ZoneOf(pc') == ZoneOf(pc) || (ZoneOf(pc) == Sleeping && ZoneOf(pc') == Halted)
    ensures Role(x, pc) ==> Role(x, pc')
  {}

  /** Debts change only on the thread being worked on. */
  lemma DebtMoves(p: ProtoPc, op: Op, p': ProtoPc, x: Tid)
    requires PauseEdge(p, op, p')
    ensures !(op.Inc? || op.Mark? || op.Insert? || op.Erase?)
    ensures op.Dec? || op.Clear? ==> ((p.Visit? && p.v != Owe) || p.Force?) && p.u in Work(p)
    ensures !(op.Dec? || op.Clear?) || p.u != x ==> !Owed(p, x) && !Owed(p', x) && !Overdue(p, x) && !Overdue(p', x)
    ensures op.Clear? ==> op.t == p.u
    ensures op.Dec? ==> KnowsPaused(p) || KnowsUnpaused(p)
    ensures op.Dec? && KnowsPaused(p) ==> Owed(p', p.u) && !Overdue(p', p.u) && !Owed(p, p.u)
    ensures op.Dec? && KnowsUnpaused(p) ==> Overdue(p, p.u) && !Overdue(p', p.u)
    ensures op.Clear? && KnowsUnpaused(p) ==> !Overdue(p, p.u) && !Overdue(p', p.u)
    ensures op.Clear? && KnowsPaused(p) ==>
              Owed(p, p.u) != Overdue(p', p.u) && !Overdue(p, p.u) && (Overdue(p', p.u) ==> p.Force?)
    ensures op.Clear? ==> KnowsPaused(p) || KnowsUnpaused(p)
  {}

  lemma CountedProto(s: Session, op: Op, s': Session, x: Tid)
    requires ProtoView(s, op, s') && x in s.threads
    requires !(op.Mark? || op.Insert? || op.Erase?) && op != Clear(x)
    requires Owed(s'.proto, x) == Owed(s.proto, x) && Overdue(s'.proto, x) == Overdue(s.proto, x)
    ensures Counted(s', x) == Counted(s, x)
  {
    WokenZone(x, s.threads[x].pc, op, s'.threads[x].pc);
    assert x in s'.registry <==> x in s.registry;
  }

  /** A paused thread that the protocol thread holds is registered. */
  lemma PausedRegistered(s: Session)
    requires LockInv(s) && ProtoInv(s) && KnowsPaused(s.proto) && ThreadInv(s, s.proto.u)
    ensures s.proto.u in s.registry
  {
    Pinned(s);
    assert s.proto.u in Work(s.proto);
  }

  lemma CountedHeld(s: Session, op: Op, s': Session)
    requires SharedAfter(s, op, s') && PauseEdge(s.proto, op, s'.proto)
    requires LockInv(s) && ProtoInv(s) && (op.Dec? || op.Clear?)
    requires s.proto.u in s.threads && ThreadInv(s, s.proto.u)
    requires s'.threads[s.proto.u].pc == s.threads[s.proto.u].pc
    ensures if op.Dec? then Counted(s, s.proto.u) && !Counted(s', s.proto.u)
            else Counted(s', s.proto.u) == Counted(s, s.proto.u)
  {
    DebtMoves(s.proto, op, s'.proto, s.proto.u);
    Pinned(s);
    if KnowsPaused(s.proto) {
      PausedRegistered(s);
    }
  }

  // ----- every step keeps the invariant -----

  lemma InvExec(s: Session, t: Tid, op: Op, pc': Pc, s': Session)
    requires Inv(s) && ExecStep(s, t, op, pc', s')
    ensures Inv(s')
  {
    LockInvExec(s, t, op, pc', s');
    EdgeOwn(t, s.threads[t].pc, op, pc');
    OwnQuiet(t, ZoneOf(s.threads[t].pc), op, ZoneOf(pc'));
    ExecSeen(s, t, op, pc', s');
    ExecKeeps(s, t, op, s');
  }

  lemma ExecKeeps(s: Session, t: Tid, op: Op, s': Session)
    requires Inv(s) && ExecView(s, t, op, s') && LockInv(s')
    requires OwnView(t, s.threads[t].pc, op, s'.threads[t].pc)
    requires (op.Mark? || op.Insert? || op.Erase?) ==> op.t == t
    ensures Inv(s')
  {
    assert ThreadInv(s, t);
    forall x | x in s'.threads
      ensures ThreadInv(s', x)
    {
      if x == t {
        ThreadInvSelf(s, t, op, s');
      } else {
        ThreadInvOther(s, t, op, s', x);
      }
    }
    ProtoInvExec(s, t, op, s');
    CountExec(s, t, op, s');
  }

  lemma InvProto(s: Session, op: Op, p': ProtoPc, s': Session)
    requires Inv(s) && ProtoStep(s, op, p', s')
    ensures Inv(s')
  {
    LockInvProto(s, op, p', s');
    ProtoPauses(s.proto, op, p');
    ProtoSeen(s, op, p', s');
    ProtoKeeps(s, op, s');
  }

  lemma ProtoKeeps(s: Session, op: Op, s': Session)
    requires Inv(s) && ProtoView(s, op, s') && LockInv(s')
    requires PauseEdge(s.proto, op, s'.proto) && WorkEdge(s.proto, op, s'.proto)
    ensures Inv(s')
  {
    DebtMoves(s.proto, op, s'.proto, 0);
    if op.Clear? {
      ClearedIsPinned(s, op, s'.proto);
    }
    ThreadsKept(s, op, s');
    WorkInvProto(s, op, s');
    KnowInvProto(s, op, s');
    CountProto(s, op, s');
  }

  predicate RelaxedZone(z: Zone) {
    z != Marked && z != Committed && z != Paying && z != Deducted
  }

  lemma ClearedIsPinned(s: Session, op: Op, p': ProtoPc)
    requires Inv(s) && PauseEdge(s.proto, op, p') && op.Clear?
    ensures op.t in s.threads && RelaxedZone(ZoneOf(s.threads[op.t].pc))
  {
    DebtMoves(s.proto, op, p', 0);
    assert ThreadInv(s, s.proto.u);
    Pinned(s);
  }

  lemma ThreadsKept(s: Session, op: Op, s': Session)
    requires ProtoView(s, op, s')
    requires forall x | x in s.threads :: ThreadInv(s, x)
    requires !(op.Insert? || op.Erase? || op.Mark?)
    requires op.Clear? ==> op.t in s.threads && RelaxedZone(ZoneOf(s.threads[op.t].pc))
    ensures forall x | x in s'.threads :: ThreadInv(s', x)
    ensures s'.registry == s.registry
  {
    forall x | x in s'.threads
      ensures ThreadInv(s', x)
    {
      ThreadInvProto(s, op, s', x);
    }
  }

  lemma CountProto(s: Session, op: Op, s': Session)
    requires Inv(s) && ProtoView(s, op, s') && PauseEdge(s.proto, op, s'.proto)
    ensures s'.count == |CountedSet(s')|
  {
    DebtMoves(s.proto, op, s'.proto, 0);
    if op.Dec? || op.Clear? {
      CountWorked(s, op, s');
    } else {
      forall x | x in s.threads
        ensures Counted(s', x) == Counted(s, x)
      {
        CountedUnworked(s, op, s', x);
      }
      CountedSetMoves(s, MAIN, op, s');
    }
  }

  lemma CountedUnworked(s: Session, op: Op, s': Session, x: Tid)
    requires ProtoView(s, op, s') && PauseEdge(s.proto, op, s'.proto) && x in s.threads
    requires op.Dec? || op.Clear? ==> s.proto.u != x
    ensures Counted(s', x) == Counted(s, x)
  {
    DebtMoves(s.proto, op, s'.proto, x);
    CountedProto(s, op, s', x);
  }

  lemma CountWorked(s: Session, op: Op, s': Session)
    requires Inv(s) && ProtoView(s, op, s') && PauseEdge(s.proto, op, s'.proto)
    requires (op.Dec? || op.Clear?) && s.proto.u in Work(s.proto)
    ensures |CountedSet(s')| == CountAfter(op, |CountedSet(s)|)
  {
    var u := s.proto.u;
    assert ThreadInv(s, u);
    forall x | x in s.threads && x != u
      ensures Counted(s', x) == Counted(s, x)
    {
      CountedUnworked(s, op, s', x);
    }
    CountedHeld(s, op, s');
    CountedSetMoves(s, u, op, s');
  }

  lemma InvSpawn(s: Session, parent: Tid, t: Tid, s': Session)
    requires Inv(s) && SpawnStep(s, parent, t, s')
    ensures Inv(s')
  {
    LockInvSpawn(s, parent, t, s');
    forall x | x in s'.threads
      ensures ThreadInv(s', x)
    {
      assert x != t ==> ThreadInv(s, x);
    }
    assert !AllDone(s);
    assert forall x | x in s.threads :: Counted(s', x) == Counted(s, x);
    assert CountedSet(s') == CountedSet(s);
  }

  lemma InvNext(s: Session, s': Session)
    requires Inv(s) && Next(s, s')
    ensures Inv(s')
  {
    if t, op, pc' :| ExecStep(s, t, op, pc', s') {
      InvExec(s, t, op, pc', s');
    } else if op, p' :| ProtoStep(s, op, p', s') {
      InvProto(s, op, p', s');
    } else {
      var parent, t :| SpawnStep(s, parent, t, s');
      InvSpawn(s, parent, t, s');
    }
  }

  lemma {:induction false} InvRun(run: seq<Session>, i: nat)
    requires IsRun(run) && i < |run|
    ensures Inv(run[i])
  {
    if i == 0 {
      InvInit(run[0]);
    } else {
      InvRun(run, i - 1);
      assert StepAt(run, i - 1);
      InvNext(run[i - 1], run[i]);
    }
  }

  // ----- what the counter means -----

  function PausedSet(s: Session): set<Tid> {
    set t | t in s.registry && t in s.threads && s.threads[t].paused
  }

  /** Some update of a pause mark, of the counter or of the registry is half done. */
  ghost predicate InFlight(s: Session) {
    || (exists t :: t in s.threads && (ZoneOf(s.threads[t].pc) == Marked || ZoneOf(s.threads[t].pc) == Deducted))
    || (exists t :: Owed(s.proto, t) || Overdue(s.proto, t))
  }

  /** Whenever the registry lock is free or held by an execution thread, the
      counter is at most the number of registered paused threads; it is exactly
      that number when no update is in flight. */
  lemma CounterSound(run: seq<Session>, i: nat)
    requires IsRun(run) && i < |run|
    ensures var s := run[i];
            && (Registry !in s.owner || s.owner[Registry] != Proto ==> s.count <= |PausedSet(s)|)
            && (!InFlight(s) ==> s.count == |PausedSet(s)|)
  {
    InvRun(run, i);
    var s := run[i];
    if Registry !in s.owner || s.owner[Registry] != Proto {
      if t :| t in s.threads && Overdue(s.proto, t) {
        assert Holds(s, Proto, Registry);
      } else {
        assert CountedSet(s) <= PausedSet(s);
        SubsetSmaller(CountedSet(s), PausedSet(s));
      }
    }
    if !InFlight(s) {
      assert CountedSet(s) == PausedSet(s);
    }
  }

  lemma SubsetSmaller(a: set<Tid>, b: set<Tid>)
    requires a <= b
    ensures |a| <= |b|
    ensures |a| == |b| ==> a == b
  {
    assert b == a + (b - a);
  }

  /** A thread that reads "all threads stopped" does so at an instant at which
      every registered thread is marked paused. */
  lemma AllStoppedSound(run: seq<Session>, i: nat, t: Tid, pc': Pc)
    requires IsRun(run) && i < |run| - 1
    requires ExecStep(run[i], t, SeeAllStopped(true), pc', run[i + 1])
    ensures forall u | u in run[i].registry :: u in run[i].threads && run[i].threads[u].paused
  {
    AskHoldsRegistry(t, run[i].threads[t].pc, true, pc');
    FullCountMeansPaused(run, i, t);
  }

  lemma FullCountMeansPaused(run: seq<Session>, i: nat, t: Tid)
    requires IsRun(run) && i < |run| && run[i].count >= |run[i].registry|
    requires t in run[i].threads && Registry in Held(t, run[i].threads[t].pc)
    ensures forall u | u in run[i].registry :: u in run[i].threads && run[i].threads[u].paused
  {
    var s := run[i];
    InvRun(run, i);
    CounterSound(run, i);
    assert Holds(s, Exec(t), Registry);
    SubsetSmaller(PausedSet(s), s.registry);
    assert forall u | u in s.registry :: u in PausedSet(s);
  }

  /** And with no update in flight, the answer is exact. */
  lemma AllStoppedExact(run: seq<Session>, i: nat, t: Tid, b: bool, pc': Pc)
    requires IsRun(run) && i < |run| - 1 && !InFlight(run[i])
    requires ExecStep(run[i], t, SeeAllStopped(b), pc', run[i + 1])
    ensures b <==> forall u | u in run[i].registry :: u in run[i].threads && run[i].threads[u].paused
  {
    var s := run[i];
    CounterSound(run, i);
    SubsetSmaller(PausedSet(s), s.registry);
    if forall u | u in s.registry :: u in s.threads && s.threads[u].paused {
      assert PausedSet(s) == s.registry;
    } else {
      assert PausedSet(s) != s.registry;
    }
  }

  lemma AskHoldsRegistry(t: Tid, pc: Pc, b: bool, pc': Pc)
    requires Edge(t, pc, SeeAllStopped(b), pc')
    ensures Registry in Held(t, pc)
  {}
}
