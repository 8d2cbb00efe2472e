/**
 The two flags that gate a thread's life: no thread executes before the
 configuration is done, and a thread is flagged as terminated by an exception
 exactly from its unhandled-exception stop on.
 */
module SessionFlags {
  import opened SessionModel
  import opened SessionLocks
  import opened SessionZones
  import opened SessionCounter

  // ----- nothing runs before the configuration -----

  /** Past the test, the configuration was done or a stop requested; the way out to
      execution is taken only for the former. */
  predicate StartOk(pc: Pc, configured: bool, stop: bool) {
    match pc
    case Cfg(c) =>
      (match c
       case CfgTested => configured || stop
       case CfgLeave(go) => if go then configured else stop
       case _ => true)
    case Done => true
    case _ => configured
  }

  lemma CfgStart(c: CfgPc, op: Op, pc': Pc, configured: bool, stop: bool)
    requires CfgEdge(c, op, pc') && StartOk(Cfg(c), configured, stop)
    requires (op.SeeConfig? ==> op.b == (configured || stop)) && (op.SeeStop? ==> op.b == stop)
    ensures StartOk(pc', configured, stop)
    ensures pc' == Done ==> stop
  {}

  lemma NeverBack(t: Tid, pc: Pc, op: Op, pc': Pc)
    requires Edge(t, pc, op, pc') && !pc.Cfg?
    ensures !pc'.Cfg?
  {}

  lemma EdgeStart(t: Tid, pc: Pc, op: Op, pc': Pc, configured: bool, stop: bool)
    requires Edge(t, pc, op, pc') && StartOk(pc, configured, stop) && pc != Done
    requires (op.SeeConfig? ==> op.b == (configured || stop)) && (op.SeeStop? ==> op.b == stop)
    ensures StartOk(pc', configured, stop)
  {
    if pc.Cfg? {
      CfgStart(pc.c, op, pc', configured, stop);
    } else {
      NeverBack(t, pc, op, pc');
    }
  }

  /** After the flag was set, it is set. */
  predicate SignalOk(p: ProtoPc, configured: bool) {
    p.Signal? && (p.g == ConfigNotify || p.g == ConfigRelease) ==> configured
  }

  ghost predicate StartInv(s: Session) {
    && (forall t | t in s.threads :: StartOk(s.threads[t].pc, s.configured, s.stop))
    && SignalOk(s.proto, s.configured)
  }

  lemma SignalKept(p: ProtoPc, op: Op, p': ProtoPc, configured: bool)
    requires ProtoEdge(p, op, p') && SignalOk(p, configured)
    ensures SignalOk(p', configured || op.SetConfig?)
  {}

  lemma StartExec(s: Session, t: Tid, op: Op, pc': Pc, s': Session)
    requires StartInv(s) && ExecStep(s, t, op, pc', s')
    ensures StartInv(s')
  {
    var pc := s.threads[t].pc;
    EdgeOwn(t, pc, op, pc');
    OwnQuiet(t, ZoneOf(pc), op, ZoneOf(pc'));
    ExecSeen(s, t, op, pc', s');
    EdgeStart(t, pc, op, pc', s.configured, s.stop);
  }

  lemma StartProto(s: Session, op: Op, p': ProtoPc, s': Session)
    requires StartInv(s) && ProtoStep(s, op, p', s')
    ensures StartInv(s')
  {
    SignalKept(s.proto, op, p', s.configured);
    ProtoSeen(s, op, p', s');
    forall t | t in s'.threads
      ensures StartOk(s'.threads[t].pc, s'.configured, s'.stop)
    {
      assert StartOk(s.threads[t].pc, s.configured, s.stop);
      assert Woken(s.threads[t].pc, op, t, s'.threads[t].pc);
    }
  }

  lemma StartSpawn(s: Session, parent: Tid, t: Tid, s': Session)
    requires StartInv(s) && SpawnStep(s, parent, t, s')
    ensures StartInv(s')
  {
    assert StartOk(s.threads[parent].pc, s.configured, s.stop);
  }

  lemma StartNext(s: Session, s': Session)
    requires StartInv(s) && Next(s, s')
    ensures StartInv(s')
  {
    if t, op, pc' :| ExecStep(s, t, op, pc', s') {
      StartExec(s, t, op, pc', s');
    } else if op, p' :| ProtoStep(s, op, p', s') {
      StartProto(s, op, p', s');
    } else {
      var parent, t :| SpawnStep(s, parent, t, s');
      StartSpawn(s, parent, t, s');
    }
  }

  lemma {:induction false} StartRun(run: seq<Session>, i: nat)
    requires IsRun(run) && i < |run|
    ensures StartInv(run[i])
  {
    if i > 0 {
      StartRun(run, i - 1);
      assert StepAt(run, i - 1);
      StartNext(run[i - 1], run[i]);
    }
  }

  /** In every run, a thread that is past the configuration wait and not finished, the
      main thread or a task, runs in a configured session. */
  lemma NothingRunsUnconfigured(run: seq<Session>, i: nat, t: Tid)
    requires IsRun(run) && i < |run| && t in run[i].threads
    requires !run[i].threads[t].pc.Cfg? && run[i].threads[t].pc != Done
    ensures run[i].configured
  {
    StartRun(run, i);
  }

  /** A main thread that finishes straight from the configuration wait saw a stop
      request. */
  lemma GivesUpOnlyOnStop(run: seq<Session>, i: nat, t: Tid)
    requires IsRun(run) && i < |run| - 1 && t in run[i].threads && t in run[i + 1].threads
    requires run[i].threads[t].pc.Cfg? && run[i + 1].threads[t].pc == Done
    ensures run[i].stop
  {
    StartRun(run, i);
    assert StepAt(run, i);
    GivesUp(run[i], run[i + 1], t);
  }

  lemma GivesUp(s: Session, s': Session, t: Tid)
    requires StartInv(s) && Next(s, s') && t in s.threads && t in s'.threads
    requires s.threads[t].pc.Cfg? && s'.threads[t].pc == Done
    ensures s.stop
  {
    assert StartOk(s.threads[t].pc, s.configured, s.stop);
    if x, op, pc' :| ExecStep(s, x, op, pc', s') {
      if x == t {
        CfgStart(s.threads[t].pc.c, op, pc', s.configured, s.stop);
      } else {
        OthersStay(s, x, op, pc', s', t);
      }
    } else if op, p' :| ProtoStep(s, op, p', s') {
      ProtoSeen(s, op, p', s');
    }
  }

  /** Serving configurationDone, or the same step of terminate, leaves the session
      configured. */
  lemma SignallingConfigures(run: seq<Session>, i: nat)
    requires IsRun(run) && i < |run| && run[i].proto.Signal? && run[i].proto.g == ConfigRelease
    ensures run[i].configured
  {
    StartRun(run, i);
  }

  // ----- the flag of an unhandled exception -----

  /** Flagged, and not finished yet. */
  predicate Flagged(pc: Pc) {
    && (pc.Stop? || pc.Ask? || pc.Event? || pc.Wait?) && pc.fatal
    && (pc.Stop? ==> pc.k == StopRelease)
  }

  predicate FaultOk(pc: Pc, faulted: bool) {
    (Flagged(pc) ==> faulted) && (faulted ==> Flagged(pc) || pc == Done)
  }

  lemma StopFaults(t: Tid, f: bool, k: StopPc, op: Op, pc': Pc, faulted: bool)
    requires StopEdge(t, f, k, op, pc') && FaultOk(Stop(f, k), faulted)
    ensures FaultOk(pc', faulted || op == Flag(t)) && (op.Flag? ==> op.t == t)
  {}

  lemma OtherFaults(t: Tid, pc: Pc, op: Op, pc': Pc, faulted: bool)
    requires Edge(t, pc, op, pc') && !pc.Stop? && FaultOk(pc, faulted)
    ensures FaultOk(pc', faulted) && !op.Flag?
  {}

  ghost predicate FaultInv(s: Session) {
    forall t | t in s.threads :: FaultOk(s.threads[t].pc, s.threads[t].faulted)
  }

  lemma EffectFaulted(s: Session, a: Actor, op: Op, x: Tid)
    requires Enabled(s, a, op) && x in s.threads && x in Effect(s, a, op).threads
    ensures Effect(s, a, op).threads[x].faulted == (s.threads[x].faulted || op == Flag(x))
  {}

  lemma EdgeFaults(t: Tid, pc: Pc, op: Op, pc': Pc, faulted: bool)
    requires Edge(t, pc, op, pc') && FaultOk(pc, faulted)
    ensures FaultOk(pc', faulted || op == Flag(t)) && (op.Flag? ==> op.t == t)
  {
    if pc.Stop? {
      StopFaults(t, pc.fatal, pc.k, op, pc', faulted);
    } else {
      OtherFaults(t, pc, op, pc', faulted);
    }
  }

  lemma FaultExecOf(s: Session, t: Tid, op: Op, pc': Pc, s': Session, x: Tid)
    requires FaultInv(s) && ExecStep(s, t, op, pc', s') && x in s.threads
    ensures x in s'.threads && FaultOk(s'.threads[x].pc, s'.threads[x].faulted)
  {
    EdgeFaults(t, s.threads[t].pc, op, pc', s.threads[t].faulted);
    EffectKeys(s, Exec(t), op);
    EffectFaulted(s, Exec(t), op, x);
    if x != t {
      OthersStay(s, t, op, pc', s', x);
    }
  }

  lemma FaultExec(s: Session, t: Tid, op: Op, pc': Pc, s': Session)
    requires FaultInv(s) && ExecStep(s, t, op, pc', s')
    ensures FaultInv(s')
  {
    EffectKeys(s, Exec(t), op);
    forall x | x in s'.threads
      ensures FaultOk(s'.threads[x].pc, s'.threads[x].faulted)
    {
      FaultExecOf(s, t, op, pc', s', x);
    }
  }

  lemma OthersStay(s: Session, t: Tid, op: Op, pc': Pc, s': Session, x: Tid)
    requires ExecStep(s, t, op, pc', s') && x in s.threads && x != t
    ensures x in s'.threads && s'.threads[x].pc == s.threads[x].pc
  {
    EdgeOwn(t, s.threads[t].pc, op, pc');
    OwnQuiet(t, ZoneOf(s.threads[t].pc), op, ZoneOf(pc'));
    ExecSeen(s, t, op, pc', s');
  }

  lemma ProtoNeverFlags(p: ProtoPc, op: Op, p': ProtoPc)
    requires ProtoEdge(p, op, p')
    ensures !op.Flag?
  {}

  lemma FaultProto(s: Session, op: Op, p': ProtoPc, s': Session)
    requires FaultInv(s) && ProtoStep(s, op, p', s')
    ensures FaultInv(s')
  {
    ProtoNeverFlags(s.proto, op, p');
    ProtoSeen(s, op, p', s');
    forall x | x in s'.threads
      ensures FaultOk(s'.threads[x].pc, s'.threads[x].faulted)
    {
      EffectFaulted(s, Proto, op, x);
      assert Woken(s.threads[x].pc, op, x, s'.threads[x].pc);
    }
  }

  lemma FaultNext(s: Session, s': Session)
    requires FaultInv(s) && Next(s, s')
    ensures FaultInv(s')
  {
    if t, op, pc' :| ExecStep(s, t, op, pc', s') {
      FaultExec(s, t, op, pc', s');
    } else if op, p' :| ProtoStep(s, op, p', s') {
      FaultProto(s, op, p', s');
    }
  }

  /** In every run the flag is set from the unhandled-exception stop on, and on no
      other thread that has not finished. */
  lemma {:induction false} FlagExact(run: seq<Session>, i: nat)
    requires IsRun(run) && i < |run|
    ensures FaultInv(run[i])
  {
    if i > 0 {
      FlagExact(run, i - 1);
      assert StepAt(run, i - 1);
      FaultNext(run[i - 1], run[i]);
    }
  }
}
