/**
 No wake-up is lost: a thread asleep in a resume wait, or in the wait for the
 configuration, either has every reason to sleep or is still owed a notify by
 the protocol thread; and after the forced unpause of a terminating session has
 passed a thread, that thread never sleeps again.
 */
module SessionWakeup {
  import opened SessionModel
  import opened SessionLocks
  import opened SessionZones
  import opened SessionCounter

  // ----- the notifies that the protocol thread still owes -----

  /** The forced unpause has not passed thread `t` yet. */
  predicate ForceAhead(p: ProtoPc, t: Tid) {
    match p
    case Signal(term, _) => term
    case ForceEnter(l) => l.LookDone? ==> t in l.found
    case ForcePick(todo) => t in todo
    case Force(todo, u, f) => t in todo || (u == t && f != ForceRelease)
    case _ => false
  }

  predicate WakeDue(p: ProtoPc, t: Tid) {
    || (p.Visit? && p.u == t && (p.v == Unpaused || p.v == NotifyHeld || p.v == ReleaseOwing || p.v == Owe))
    || ForceAhead(p, t)
  }

  predicate ConfigDue(p: ProtoPc) {
    p.Signal? && (p.g == ConfigNotify || (p.term && p.g != ConfigRelease))
  }

  predicate Dozing(pc: Pc) {
    ZoneOf(pc) == Sleeping || ZoneOf(pc) == Committed
  }

  predicate DozingConfig(pc: Pc) {
    pc == Cfg(CfgAsleep) || pc == Cfg(CfgCommit)
  }

  predicate SleepOk(s: Session, t: Tid)
    requires t in s.threads
  {
    && (Dozing(s.threads[t].pc) ==> (s.threads[t].paused && !s.stop) || WakeDue(s.proto, t))
    && (DozingConfig(s.threads[t].pc) ==> (!s.configured && !s.stop) || ConfigDue(s.proto))
  }

  ghost predicate SleepInv(s: Session) {
    forall t | t in s.threads :: SleepOk(s, t)
  }

  // ----- how a step changes what is owed -----

  /** A debt disappears only by being paid, and every unpause creates one. */
  predicate DueEdge(p: ProtoPc, op: Op, p': ProtoPc, t: Tid) {
    && (WakeDue(p, t) && op != Notify(t) && (op.SeeRegistry? ==> t in op.ts) ==> WakeDue(p', t))
    && (op == Clear(t) || op.RequestStop? ==> WakeDue(p', t))
    && (ConfigDue(p) && op != NotifyConfig ==> ConfigDue(p'))
    && (op.SetConfig? || op.RequestStop? ==> ConfigDue(p'))
    && (op == Notify(t) ==> State(t) in ProtoHeld(p) || !Terminating(p))
    && (op == NotifyConfig ==> Config in ProtoHeld(p))
  }

  lemma VisitDue(r: Req, todo: set<Tid>, u: Tid, v: VisitPc, op: Op, p': ProtoPc, t: Tid)
    requires VisitEdge(r, todo, u, v, op, p')
    ensures DueEdge(Visit(r, todo, u, v), op, p', t)
  {}

  lemma ForceDue(todo: set<Tid>, u: Tid, f: ForcePc, op: Op, p': ProtoPc, t: Tid)
    requires ForceEdge(todo, u, f, op, p')
    ensures DueEdge(Force(todo, u, f), op, p', t)
  {}

  lemma TerminateDue(p: ProtoPc, op: Op, p': ProtoPc, t: Tid)
    requires TerminateEdge(p, op, p')
    ensures DueEdge(p, op, p', t)
  {}

  lemma ProtoDue(p: ProtoPc, op: Op, p': ProtoPc, t: Tid)
    requires ProtoEdge(p, op, p')
    ensures DueEdge(p, op, p', t)
  {
    if p.Visit? {
      VisitDue(p.r, p.todo, p.u, p.v, op, p', t);
    } else if p.Force? {
      ForceDue(p.todo, p.u, p.f, op, p', t);
    } else if TerminateEdge(p, op, p') {
      TerminateDue(p, op, p', t);
    }
  }

  // ----- every step keeps it -----

  lemma ConfigDoze(t: Tid, pc: Pc, op: Op, pc': Pc)
    requires Edge(t, pc, op, pc') && DozingConfig(pc')
    ensures DozingConfig(pc) || op == SeeConfig(false)
  {}

  /** A thread begins to doze only by a test that tells it to. */
  predicate DozeEdge(t: Tid, pc: Pc, op: Op, pc': Pc) {
    && (Dozing(pc') ==> op == SeeGate(t, true) || (Dozing(pc) && op == Sleep(State(t))))
    && (DozingConfig(pc') ==> DozingConfig(pc) || op == SeeConfig(false))
  }

  lemma EdgeDoze(t: Tid, pc: Pc, op: Op, pc': Pc)
    requires Edge(t, pc, op, pc')
    ensures DozeEdge(t, pc, op, pc')
  {
    if Dozing(pc') {
      GateDoze(t, pc, op, pc');
    }
    if DozingConfig(pc') {
      ConfigDoze(t, pc, op, pc');
    }
  }

  lemma GateDoze(t: Tid, pc: Pc, op: Op, pc': Pc)
    requires Edge(t, pc, op, pc') && Dozing(pc')
    ensures op == SeeGate(t, true) || (Dozing(pc) && op == Sleep(State(t)))
  {
    EdgeZones(t, pc, op, pc');
    ZoneDoze(t, ZoneOf(pc), op, ZoneOf(pc'));
  }

  lemma ZoneDoze(t: Tid, z: Zone, op: Op, z': Zone)
    requires ZoneEdge(t, z, op, z') && (z' == Sleeping || z' == Committed)
    ensures op == SeeGate(t, true) || ((z == Sleeping || z == Committed) && op == Sleep(State(t)))
  {}

  lemma SleepExec(s: Session, t: Tid, op: Op, s': Session, x: Tid)
    requires ExecView(s, t, op, s') && x in s.threads && SleepOk(s, x)
    requires DozeEdge(t, s.threads[t].pc, op, s'.threads[t].pc)
    requires op.Mark? ==> op.t == t
    ensures SleepOk(s', x)
  {}

  lemma SleepProto(s: Session, op: Op, s': Session, x: Tid)
    requires ProtoView(s, op, s') && x in s.threads && SleepOk(s, x)
    requires DueEdge(s.proto, op, s'.proto, x)
    requires Dozing(s.threads[x].pc) ==> x in s.registry
    requires op == Notify(x) && ZoneOf(s.threads[x].pc) == Committed ==> s.threads[x].paused && !s.stop
    requires op == NotifyConfig ==> s.threads[x].pc != Cfg(CfgCommit)
    ensures SleepOk(s', x)
  {}

  /** A thread that has decided to sleep still holds its lock, so no notify can slip in between. */
  lemma CommitGuarded(s: Session, op: Op, p': ProtoPc, x: Tid)
    requires Inv(s) && x in s.threads && DueEdge(s.proto, op, p', x)
    ensures Dozing(s.threads[x].pc) ==> x in s.registry
    ensures op == Notify(x) && ZoneOf(s.threads[x].pc) == Committed ==> s.threads[x].paused && !s.stop
    ensures op == NotifyConfig ==> s.threads[x].pc != Cfg(CfgCommit)
  {
    assert ThreadInv(s, x);
    HeldApart(s, x);
    ZoneHolds(x, s.threads[x].pc);
  }

  lemma SleepNext(s: Session, s': Session)
    requires Inv(s) && SleepInv(s) && Next(s, s')
    ensures SleepInv(s')
  {
    if t, op, pc' :| ExecStep(s, t, op, pc', s') {
      SleepExecStep(s, t, op, pc', s');
    } else if op, p' :| ProtoStep(s, op, p', s') {
      SleepProtoStep(s, op, p', s');
    } else {
      var parent, t :| SpawnStep(s, parent, t, s');
      SleepSpawnStep(s, parent, t, s');
    }
  }

  lemma SleepSpawnStep(s: Session, parent: Tid, t: Tid, s': Session)
    requires SleepInv(s) && SpawnStep(s, parent, t, s')
    ensures SleepInv(s')
  {
    assert forall x | x in s'.threads && x != t :: SleepOk(s, x);
  }

  lemma SleepExecStep(s: Session, t: Tid, op: Op, pc': Pc, s': Session)
    requires SleepInv(s) && ExecStep(s, t, op, pc', s')
    ensures SleepInv(s')
  {
    EdgeOwn(t, s.threads[t].pc, op, pc');
    OwnQuiet(t, ZoneOf(s.threads[t].pc), op, ZoneOf(pc'));
    EdgeDoze(t, s.threads[t].pc, op, pc');
    ExecSeen(s, t, op, pc', s');
    forall x | x in s'.threads
      ensures SleepOk(s', x)
    {
      SleepExec(s, t, op, s', x);
    }
  }

  lemma SleepProtoStep(s: Session, op: Op, p': ProtoPc, s': Session)
    requires Inv(s) && SleepInv(s) && ProtoStep(s, op, p', s')
    ensures SleepInv(s')
  {
    ProtoSeen(s, op, p', s');
    forall x | x in s'.threads
      ensures SleepOk(s', x)
    {
      ProtoDue(s.proto, op, p', x);
      CommitGuarded(s, op, p', x);
      SleepProto(s, op, s', x);
    }
  }

  // ----- over whole runs -----

  lemma {:induction false} SleepRun(run: seq<Session>, i: nat)
    requires IsRun(run) && i < |run|
    ensures SleepInv(run[i])
  {
    if i > 0 {
      SleepRun(run, i - 1);
      InvRun(run, i - 1);
      assert StepAt(run, i - 1);
      SleepNext(run[i - 1], run[i]);
    }
  }

  /** In every reachable state a sleeper has its pause mark with no stop
      requested, or a notify is on its way. */
  lemma NoLostWakeup(run: seq<Session>, i: nat, t: Tid)
    requires IsRun(run) && i < |run| && t in run[i].threads
    requires run[i].threads[t].pc.Wait? && run[i].threads[t].pc.w == Asleep
    ensures (run[i].threads[t].paused && !run[i].stop) || WakeDue(run[i].proto, t)
  {
    SleepRun(run, i);
    assert SleepOk(run[i], t);
  }

  lemma NoLostConfiguration(run: seq<Session>, i: nat, t: Tid)
    requires IsRun(run) && i < |run| && t in run[i].threads && run[i].threads[t].pc == Cfg(CfgAsleep)
    ensures (!run[i].configured && !run[i].stop) || ConfigDue(run[i].proto)
  {
    SleepRun(run, i);
    assert SleepOk(run[i], t);
  }

  predicate Awake(s: Session, t: Tid) {
    s.stop && (t in s.threads ==> !Dozing(s.threads[t].pc))
  }

  lemma AwakeNext(s: Session, s': Session, t: Tid)
    requires Awake(s, t) && Next(s, s')
    ensures Awake(s', t)
  {
    if x, op, pc' :| ExecStep(s, x, op, pc', s') {
      AwakeExec(s, x, op, pc', s', t);
    } else if op, p' :| ProtoStep(s, op, p', s') {
      ProtoSeen(s, op, p', s');
      if t in s.threads {
        WokenZone(t, s.threads[t].pc, op, s'.threads[t].pc);
      }
    }
  }

  lemma AwakeExec(s: Session, x: Tid, op: Op, pc': Pc, s': Session, t: Tid)
    requires Awake(s, t) && ExecStep(s, x, op, pc', s')
    ensures Awake(s', t)
  {
    EdgeOwn(x, s.threads[x].pc, op, pc');
    OwnQuiet(x, ZoneOf(s.threads[x].pc), op, ZoneOf(pc'));
    EdgeDoze(x, s.threads[x].pc, op, pc');
    ExecSeen(s, x, op, pc', s');
  }

  /** A thread that the forced unpause has passed is awake. */
  lemma PassedIsAwake(run: seq<Session>, i: nat, t: Tid)
    requires IsRun(run) && i < |run| && run[i].stop && !WakeDue(run[i].proto, t)
    ensures Awake(run[i], t)
  {
    SleepRun(run, i);
    assert t in run[i].threads ==> SleepOk(run[i], t);
  }

  lemma {:induction false} AwakeForever(run: seq<Session>, i: nat, j: nat, t: Tid)
    requires IsRun(run) && i <= j < |run| && Awake(run[i], t)
    ensures Awake(run[j], t)
  {
    if i < j {
      AwakeForever(run, i, j - 1, t);
      assert StepAt(run, j - 1);
      AwakeNext(run[j - 1], run[j], t);
    }
  }

  /** Once the forced unpause has notified thread `t`, it never sleeps, nor
      decides to sleep, in a resume wait again. */
  lemma NeverSleepsAgain(run: seq<Session>, i: nat, j: nat, t: Tid)
    requires IsRun(run) && i <= j < |run|
    requires run[i].stop && !WakeDue(run[i].proto, t)
    ensures Awake(run[j], t)
  {
    PassedIsAwake(run, i, t);
    AwakeForever(run, i, j, t);
  }
}
