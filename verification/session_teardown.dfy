/**
 The order of the teardown: no pointer to the virtual machine is cleared while the
 main thread may use it, nothing executes once terminate has returned, and no event
 names a thread that never was.
 */
module SessionTeardown {
  import opened SessionModel
  import opened SessionLocks
  import opened SessionZones
  import opened SessionCounter

  // ----- the joins -----

  /** Terminate has passed the join of the main thread. */
  predicate PastJoin(p: ProtoPc) {
    match p
    case ScanEnter(nulling, _) => nulling
    case ScanPick(nulling, _) => nulling
    case Scan(nulling, _, _) => nulling
    case Destroy => true
    case _ => false
  }

  lemma JoinFirst(p: ProtoPc, op: Op, p': ProtoPc)
    requires ProtoEdge(p, op, p') && PastJoin(p')
    ensures PastJoin(p) || op == SeeDone(MAIN)
  {}

  /** A finished thread takes no step and is not woken. */
  lemma DoneStays(s: Session, s': Session, t: Tid)
    requires Next(s, s') && t in s.threads && s.threads[t].pc == Done
    ensures t in s'.threads && s'.threads[t].pc == Done
  {
    if x, op, pc' :| ExecStep(s, x, op, pc', s') {
      EdgeOwn(x, s.threads[x].pc, op, pc');
      OwnQuiet(x, ZoneOf(s.threads[x].pc), op, ZoneOf(pc'));
      ExecSeen(s, x, op, pc', s');
    } else if op, p' :| ProtoStep(s, op, p', s') {
      ProtoSeen(s, op, p', s');
      assert Woken(s.threads[t].pc, op, t, s'.threads[t].pc);
    }
  }

  lemma JoinedFirst(s: Session, s': Session)
    requires Next(s, s') && PastJoin(s'.proto) && !PastJoin(s.proto)
    ensures MAIN in s.threads && s.threads[MAIN].pc == Done
  {
    if x, op, pc' :| ExecStep(s, x, op, pc', s') {
      EdgeOwn(x, s.threads[x].pc, op, pc');
      OwnQuiet(x, ZoneOf(s.threads[x].pc), op, ZoneOf(pc'));
      ExecSeen(s, x, op, pc', s');
    } else if op, p' :| ProtoStep(s, op, p', s') {
      JoinFirst(s.proto, op, p');
    }
  }

  /** In every run, while terminate clears the pointers to the virtual machine and
      destroys it, the main thread has finished. */
  lemma {:induction false} ClearsAfterJoin(run: seq<Session>, i: nat)
    requires IsRun(run) && i < |run| && PastJoin(run[i].proto)
    ensures MAIN in run[i].threads && run[i].threads[MAIN].pc == Done
  {
    if i > 0 {
      assert StepAt(run, i - 1);
      if PastJoin(run[i - 1].proto) {
        ClearsAfterJoin(run, i - 1);
      } else {
        JoinedFirst(run[i - 1], run[i]);
      }
      DoneStays(run[i - 1], run[i], MAIN);
    }
  }

  /** Once a stop was requested and terminate has returned, every thread has finished,
      and the flag and that stay so. */
  lemma {:induction false} NothingAfterTerminate(run: seq<Session>, i: nat, j: nat)
    requires IsRun(run) && i <= j < |run| && run[i].stop && !Terminating(run[i].proto)
    ensures run[j].stop && AllDone(run[j])
  {
    InvRun(run, j);
    if i < j {
      NothingAfterTerminate(run, i, j - 1);
      assert StepAt(run, j - 1);
      AllDoneStays(run[j - 1], run[j]);
    }
  }

  lemma AllDoneStays(s: Session, s': Session)
    requires Next(s, s') && AllDone(s) && s.stop
    ensures AllDone(s') && s'.stop
  {
    if op, p' :| ProtoStep(s, op, p', s') {
      ProtoSeen(s, op, p', s');
      forall t | t in s'.threads
        ensures s'.threads[t].pc == Done
      {
        assert Woken(s.threads[t].pc, op, t, s'.threads[t].pc);
      }
    }
  }

  // ----- who is named -----

  /** The thread an event is about, if it is about one. */
  predicate Names(m: Message, t: Tid) {
    m == Stopped(t) || m == Continued(t)
  }

  /** A request past its check is for a thread that was found. */
  predicate Looked(p: ProtoPc, known: set<Tid>) {
    match p
    case Check(r, l) => Targeted(r) && (l.LookDone? ==> l.found <= {r.tid} && l.found <= known)
    case Send(r, _) => r.Continue? || r.Step? ==> r.tid in known
    case _ => true
  }

  lemma LookedEdge(p: ProtoPc, op: Op, p': ProtoPc, known: set<Tid>)
    requires ProtoEdge(p, op, p') && Looked(p, known) && (op.SeeMember? && op.b ==> op.t in known)
    ensures Looked(p', known)
    ensures op.Write? ==> forall t | Names(op.msg, t) :: t in known
  {}

  lemma EdgeNames(t: Tid, pc: Pc, op: Op, pc': Pc)
    requires Edge(t, pc, op, pc')
    ensures op.Write? ==> op.msg == Stopped(t) || op.msg == Other
  {}

  ghost predicate NamesInv(s: Session) {
    Looked(s.proto, s.threads.Keys) && forall i, t | 0 <= i < |s.log| && Names(s.log[i].msg, t) :: t in s.threads
  }

  lemma LogAfter(s: Session, a: Actor, op: Op)
    requires Enabled(s, a, op)
    ensures var s' := Effect(s, a, op);
            s'.proto == s.proto && s'.log == if op.Write? then s.log + [Record(op.n, op.msg)] else s.log
  {}

  lemma NamesExec(s: Session, t: Tid, op: Op, pc': Pc, s': Session)
    requires NamesInv(s) && ExecStep(s, t, op, pc', s')
    ensures NamesInv(s')
  {
    EdgeNames(t, s.threads[t].pc, op, pc');
    EffectKeys(s, Exec(t), op);
    LogAfter(s, Exec(t), op);
    assert s'.threads.Keys == s.threads.Keys;
  }

  lemma NamesProto(s: Session, op: Op, p': ProtoPc, s': Session)
    requires NamesInv(s) && s.registry <= s.threads.Keys && ProtoStep(s, op, p', s')
    ensures NamesInv(s')
  {
    LookedEdge(s.proto, op, p', s.threads.Keys);
    EffectKeys(s, Proto, op);
    LogAfter(s, Proto, op);
  }

  lemma LookedGrows(p: ProtoPc, known: set<Tid>, more: set<Tid>)
    requires Looked(p, known) && known <= more
    ensures Looked(p, more)
  {}

  lemma NamesNext(s: Session, s': Session)
    requires NamesInv(s) && s.registry <= s.threads.Keys && Next(s, s')
    ensures NamesInv(s')
  {
    if t, op, pc' :| ExecStep(s, t, op, pc', s') {
      NamesExec(s, t, op, pc', s');
    } else if op, p' :| ProtoStep(s, op, p', s') {
      NamesProto(s, op, p', s');
    } else {
      LookedGrows(s.proto, s.threads.Keys, s'.threads.Keys);
    }
  }

  /** In every run each stopped and continued event is about a thread that exists: a
      request for an unknown one is refused unannounced. */
  lemma {:induction false} EventsNameThreads(run: seq<Session>, n: nat, i: nat, t: Tid)
    requires IsRun(run) && n < |run| && i < |run[n].log| && Names(run[n].log[i].msg, t)
    ensures t in run[n].threads
  {
    NamesRun(run, n);
  }

  lemma {:induction false} NamesRun(run: seq<Session>, n: nat)
    requires IsRun(run) && n < |run|
    ensures NamesInv(run[n])
  {
    if n > 0 {
      NamesRun(run, n - 1);
      InvRun(run, n - 1);
      assert StepAt(run, n - 1);
      NamesNext(run[n - 1], run[n]);
    }
  }
}
