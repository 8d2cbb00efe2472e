/**
 The race is real and exact.  A resume that finds a thread paused whose stopped
 event was not on the wire at the announcement can always be continued to two
 stopped events of that thread with no continued event between them; and a
 continue-all does run into it.
 */
module SessionRace {
  import opened SessionModel
  import opened SessionLocks
  import opened SessionZones
  import opened SessionCounter
  import opened SessionWakeup
  import opened SessionProgress
  import opened SessionWire

  // ----- continuations -----

  ghost predicate Path(path: seq<Session>) {
    |path| > 0 && forall i | 0 <= i < |path| - 1 :: StepAt(path, i)
  }

  /** Some finite sequence of steps leads from `s` to `t`. */
  ghost predicate Reaches(s: Session, t: Session) {
    exists path :: Path(path) && path[0] == s && path[|path| - 1] == t
  }

  lemma ReachesSelf(s: Session)
    ensures Reaches(s, s)
  {
    assert Path([s]);
  }

  lemma PathAppend(p: seq<Session>, q: seq<Session>)
    requires Path(p) && Path(q) && p[|p| - 1] == q[0]
    ensures Path(p + q[1..]) && (p + q[1..])[0] == p[0] && (p + q[1..])[|p + q[1..]| - 1] == q[|q| - 1]
  {
    var r := p + q[1..];
    forall i | 0 <= i < |r| - 1
      ensures StepAt(r, i)
    {
      if i < |p| - 1 {
        assert StepAt(p, i);
      } else {
        assert StepAt(q, i - (|p| - 1));
      }
    }
  }

  lemma ReachesTrans(s: Session, t: Session, u: Session)
    requires Reaches(s, t) && Reaches(t, u)
    ensures Reaches(s, u)
  {
    var p :| Path(p) && p[0] == s && p[|p| - 1] == t;
    var q :| Path(q) && q[0] == t && q[|q| - 1] == u;
    PathAppend(p, q);
  }

  lemma ReachesNext(s: Session, t: Session, u: Session)
    requires Reaches(s, t) && Next(t, u)
    ensures Reaches(s, u)
  {
    var q := [t, u];
    assert StepAt(q, 0);
    assert Path(q) && q[0] == t && q[|q| - 1] == u;
    ReachesTrans(s, t, u);
  }

  /** A run goes on to whatever its last state reaches. */
  lemma GoOn(run: seq<Session>, t: Session) returns (longer: seq<Session>)
    requires IsRun(run) && Reaches(run[|run| - 1], t)
    ensures IsRun(longer) && run <= longer && longer[|longer| - 1] == t
  {
    var q :| Path(q) && q[0] == run[|run| - 1] && q[|q| - 1] == t;
    assert Path(run);
    PathAppend(run, q);
    longer := run + q[1..];
  }

  // ----- single steps -----

  /** Thread `t` takes a step; everything else of it is visible. */
  lemma ExecMoves(s: Session, t: Tid, op: Op, pc': Pc) returns (s': Session)
    requires Inv(s) && t in s.threads && Edge(t, s.threads[t].pc, op, pc') && Enabled(s, Exec(t), op)
    ensures Next(s, s') && Inv(s') && t in s'.threads && s'.threads[t].pc == pc'
    ensures ExecStep(s, t, op, pc', s')
  {
    EffectKeys(s, Exec(t), op);
    s' := SetPc(Effect(s, Exec(t), op), t, pc');
    assert ExecStep(s, t, op, pc', s');
    InvNext(s, s');
  }

  lemma ProtoMoves(s: Session, op: Op, p': ProtoPc) returns (s': Session)
    requires Inv(s) && ProtoEdge(s.proto, op, p') && Enabled(s, Proto, op)
    ensures Next(s, s') && Inv(s') && s' == Effect(s, Proto, op).(proto := p')
  {
    s' := Effect(s, Proto, op).(proto := p');
    assert ProtoStep(s, op, p', s');
    InvNext(s, s');
  }

  // ----- what stays while the protocol thread holds still -----

  /** The protocol thread stands between two visits, and the session is in order. */
  ghost predicate Still(s: Session) {
    Inv(s) && s.proto.Pick? && !s.stop && !s.broken
  }

  /** The log grew by records that answer no stopped event of `u`. */
  predicate Grown(log: seq<Record>, log': seq<Record>, u: Tid) {
    log <= log' && forall k | |log| <= k < |log'| :: !Covers(log'[k].msg, u)
  }

  lemma GrownTrans(a: seq<Record>, b: seq<Record>, c: seq<Record>, u: Tid)
    requires Grown(a, b, u) && Grown(b, c, u)
    ensures Grown(a, c, u)
  {}

  /** A step of a thread `x` that is not `u` leaves `u` as it is. */
  ghost predicate Aside(s: Session, s': Session, u: Tid) {
    && Still(s') && Reaches(s, s') && Grown(s.log, s'.log, u)
    && u in s.threads && u in s'.threads && s'.threads[u] == s.threads[u]
  }

  lemma AsideTrans(s: Session, s': Session, s'': Session, u: Tid)
    requires Aside(s, s', u) && Aside(s', s'', u)
    ensures Aside(s, s'', u)
  {
    ReachesTrans(s, s', s'');
  }

  lemma EffectOther(s: Session, x: Tid, op: Op, u: Tid)
    requires Enabled(s, Exec(x), op) && u in s.threads && u != x
    requires !op.Notify? && !op.NotifyConfig? && !op.Clear? && (op.Mark? || op.Flag? ==> op.t == x)
    ensures u in Effect(s, Exec(x), op).threads && Effect(s, Exec(x), op).threads[u] == s.threads[u]
  {}

  lemma EdgeOwnMarks(t: Tid, pc: Pc, op: Op, pc': Pc)
    requires Edge(t, pc, op, pc')
    ensures !op.Notify? && !op.NotifyConfig? && !op.Clear? && !op.RequestStop?
    ensures op.Mark? || op.Flag? || op.Insert? || op.Erase? ==> op.t == t
  {}

  /** One forward step of a thread other than `u`. */
  lemma StepAside(s: Session, x: Tid, u: Tid) returns (s': Session)
    requires Still(s) && x in s.threads && u in s.threads && x != u && s.threads[x].pc != Done
    requires Forward(s, x).op.Lock? ==> Forward(s, x).op.m !in s.owner
    ensures Aside(s, s', u) && x in s'.threads && s'.threads[x].pc == Forward(s, x).pc
    ensures OwnerMoves(Forward(s, x).op, Exec(x), s.owner, s'.owner)
  {
    var op, pc' := Forward(s, x).op, Forward(s, x).pc;
    ForwardIsEdge(s, x);
    ForwardEnabled(s, x);
    ForwardKeepsWire(s, x);
    EffectOwner(s, Exec(x), op);
    s' := ExecMoves(s, x, op, pc');
    MovesAside(s, x, op, pc', s', u);
    ReachesSelf(s);
    ReachesNext(s, s, s');
  }

  lemma MovesAside(s: Session, x: Tid, op: Op, pc': Pc, s': Session, u: Tid)
    requires Still(s) && x in s.threads && u in s.threads && x != u && ExecStep(s, x, op, pc', s') && !op.Lose?
    ensures s'.proto == s.proto && !s'.stop && !s'.broken && Grown(s.log, s'.log, u)
    ensures u in s'.threads && s'.threads[u] == s.threads[u]
  {
    EdgeOwnMarks(x, s.threads[x].pc, op, pc');
    EdgeWrites(x, s.threads[x].pc, op, pc');
    EffectWire(s, Exec(x), op);
    EffectOther(s, x, op, u);
    EffectScalars(s, Exec(x), op);
  }

  lemma ForwardKeepsWire(s: Session, x: Tid)
    requires x in s.threads && s.threads[x].pc != Done && !s.broken
    ensures !Forward(s, x).op.Lose?
  {}

  // ----- other threads give up the locks they hold -----

  function ExitRank(x: ExitPc): nat {
    match x
    case ExitWant => 9
    case ExitLook => 8
    case ExitLock => 7
    case ExitTest => 6
    case ExitDec => 5
    case ExitRelease(_) => 4
    case ExitErase(_) => 3
    case ExitLeave => 2
  }

  function SendRank(e: Sending): nat {
    match e
    case Want => 4
    case Numbering => 3
    case Writing(_) => 2
    case Written => 1
  }

  /** How many forward steps there are at most until the lock is given up. */
  function Rank(pc: Pc): nat {
    match pc
    case Add(a) => if a == AddInsert then 2 else 1
    case Hook(h) => if h == HookLook then 2 else 1
    case Stop(_, k) => if k == StopLook then 2 else 1
    case Ask(_, q) => if q == AskRead then 2 else 1
    case Event(_, e) => SendRank(e)
    case Talk(o) => SendRank(o)
    case Exit(x) => ExitRank(x)
    case _ => 1
  }

  predicate Shared(m: Mutex) {
    m == Registry || m == Wire
  }

  lemma ForwardRank(s: Session, x: Tid, m: Mutex)
    requires x in s.threads && s.threads[x].pc != Done && Shared(m) && m in Held(x, s.threads[x].pc)
    ensures m !in Held(x, Forward(s, x).pc) || Rank(Forward(s, x).pc) < Rank(s.threads[x].pc)
  {}

  lemma {:induction false} Drain(s: Session, x: Tid, u: Tid, m: Mutex) returns (s': Session)
    requires Still(s) && u in s.threads && x != u && Shared(m) && Holds(s, Exec(x), m)
    ensures Aside(s, s', u) && m !in s'.owner
    decreases Rank(s.threads[x].pc)
  {
    HolderUnblocked(s, x, m);
    ForwardRank(s, x, m);
    ForwardIsEdge(s, x);
    EdgeMoves(x, s.threads[x].pc, Forward(s, x).op, Forward(s, x).pc);
    var next := StepAside(s, x, u);
    if m in Held(x, next.threads[x].pc) {
      s' := Drain(next, x, u, m);
      AsideTrans(s, next, s', u);
    } else {
      s' := next;
    }
  }

  /** A shared lock that `u` does not hold becomes free without a step of `u`. */
  lemma FreeLock(s: Session, u: Tid, m: Mutex) returns (s': Session)
    requires Still(s) && u in s.threads && Shared(m) && m !in Held(u, s.threads[u].pc)
    ensures Aside(s, s', u) && m !in s'.owner
  {
    if m in s.owner {
      var a := s.owner[m];
      assert Holds(s, a, m);
      s' := Drain(s, a.tid, u, m);
    } else {
      ReachesSelf(s);
      s' := s;
    }
  }

  // ----- the thread itself goes on -----

  /** `u` got somewhere, with nothing answered meanwhile. */
  ghost predicate Onward(s: Session, s': Session, u: Tid) {
    Still(s') && Reaches(s, s') && Grown(s.log, s'.log, u) && u in s.threads && u in s'.threads
  }

  lemma OnwardTrans(s: Session, s': Session, s'': Session, u: Tid)
    requires Onward(s, s', u) && Onward(s', s'', u)
    ensures Onward(s, s'', u)
  {
    ReachesTrans(s, s', s'');
  }

  lemma OwnStep(s: Session, u: Tid, op: Op, pc': Pc) returns (s': Session)
    requires Still(s) && u in s.threads && Edge(u, s.threads[u].pc, op, pc') && Enabled(s, Exec(u), op) && !op.Lose?
    ensures Onward(s, s', u) && s'.threads[u].pc == pc'
    ensures s'.threads[u].paused == MarkAfter(op, u, s.threads[u].paused)
    ensures s'.log == if op.Write? then s.log + [Record(op.n, op.msg)] else s.log
  {
    EdgeOwnMarks(u, s.threads[u].pc, op, pc');
    EdgeWrites(u, s.threads[u].pc, op, pc');
    EffectWire(s, Exec(u), op);
    EffectMarks(s, Exec(u), op, u);
    EffectScalars(s, Exec(u), op);
    s' := ExecMoves(s, u, op, pc');
    ReachesSelf(s);
    ReachesNext(s, s, s');
  }

  /** One forward step of `u`; if it takes a lock, the holder gives it up first. */
  lemma Pace(s: Session, u: Tid) returns (s': Session)
    requires Still(s) && u in s.threads && s.threads[u].pc != Done
    requires var op := Forward(s, u).op; op.Lock? ==> Shared(op.m) || op.m == State(u)
    ensures Onward(s, s', u) && s'.threads[u].pc == Forward(s, u).pc
    ensures s'.threads[u].paused == MarkAfter(Forward(s, u).op, u, s.threads[u].paused)
    ensures Forward(s, u).op.Write? ==> s'.log == s.log + [Record(Forward(s, u).op.n, Forward(s, u).op.msg)]
  {
    var op, pc' := Forward(s, u).op, Forward(s, u).pc;
    ForwardIsEdge(s, u);
    ForwardEnabled(s, u);
    ForwardKeepsWire(s, u);
    if op.Lock? {
      s' := TakeLock(s, u, op.m, pc');
    } else {
      s' := OwnStep(s, u, op, pc');
    }
  }

  lemma TakeLock(s: Session, u: Tid, m: Mutex, pc': Pc) returns (s': Session)
    requires Still(s) && u in s.threads && Edge(u, s.threads[u].pc, Lock(m), pc')
    requires Shared(m) || m == State(u)
    ensures Onward(s, s', u) && s'.threads[u].pc == pc' && s'.threads[u].paused == s.threads[u].paused
  {
    ExecWaiting(u, s.threads[u].pc, m, pc');
    var free := s;
    if Shared(m) {
      free := FreeLock(s, u, m);
    } else {
      OwnStateFree(s, u);
      ReachesSelf(s);
    }
    s' := OwnStep(free, u, Lock(m), pc');
    OnwardTrans(s, free, s', u);
  }

  // ----- to the stopped event -----

  predicate Silenced(pc: Pc) {
    (pc.Ask? || (pc.Event? && pc.e != Written)) && !pc.fatal
  }

  function EventRank(pc: Pc): nat
    requires Silenced(pc)
  {
    if pc.Event? then SendRank(pc.e) else if pc.q == AskWant then 7 else if pc.q == AskRead then 6 else 5
  }

  /** The log ends with the stopped event of `u`, newly written. */
  predicate JustStopped(log: seq<Record>, log': seq<Record>, u: Tid) {
    |log'| > |log| && log'[|log'| - 1].msg == Stopped(u)
  }

  lemma SilencedStep(s: Session, u: Tid)
    requires u in s.threads && Silenced(s.threads[u].pc) && !s.broken
    ensures var f, pc := Forward(s, u), s.threads[u].pc;
            && (f.op.Lock? ==> Shared(f.op.m)) && !f.op.Mark? && !f.op.Clear?
            && if pc.Event? && pc.e.Writing? then f.pc == Event(false, Written) && f.op == Write(pc.e.n, Stopped(u))
               else Silenced(f.pc) && EventRank(f.pc) < EventRank(pc)
  {}

  /** A thread marked paused, or cleared meanwhile, comes to write its stopped event. */
  lemma {:induction false} ToWritten(s: Session, u: Tid) returns (s': Session)
    requires Still(s) && u in s.threads && Silenced(s.threads[u].pc)
    ensures Onward(s, s', u) && s'.threads[u].pc == Event(false, Written) && JustStopped(s.log, s'.log, u)
    ensures s'.threads[u].paused == s.threads[u].paused
    decreases EventRank(s.threads[u].pc)
  {
    SilencedStep(s, u);
    var next := Pace(s, u);
    if Silenced(next.threads[u].pc) {
      s' := ToWritten(next, u);
      OnwardTrans(s, next, s', u);
    } else {
      s' := next;
    }
  }

  // ----- out of the stop -----

  predicate Releasing(pc: Pc) {
    || pc == Event(false, Written)
    || pc == Wait(false, WaitLock) || pc == Wait(false, WaitTest) || pc == Wait(false, WaitLeave)
  }

  function ReleaseRank(pc: Pc): nat
    requires Releasing(pc)
  {
    if pc.Event? then 4 else if pc.w == WaitLock then 3 else if pc.w == WaitTest then 2 else 1
  }

  lemma ReleasingStep(s: Session, u: Tid)
    requires u in s.threads && Releasing(s.threads[u].pc) && !s.threads[u].paused
    ensures var f, pc := Forward(s, u), s.threads[u].pc;
            && (f.op.Lock? ==> f.op.m == State(u)) && !f.op.Mark? && !f.op.Clear?
            && if pc == Wait(false, WaitLeave) then f.pc == Run
               else Releasing(f.pc) && ReleaseRank(f.pc) < ReleaseRank(pc)
  {}

  /** An unpaused thread leaves its stop. */
  lemma {:induction false} ToRun(s: Session, u: Tid) returns (s': Session)
    requires Still(s) && u in s.threads && Releasing(s.threads[u].pc) && !s.threads[u].paused
    ensures Onward(s, s', u) && s'.threads[u].pc == Run && !s'.threads[u].paused
    decreases ReleaseRank(s.threads[u].pc)
  {
    ReleasingStep(s, u);
    var next := Pace(s, u);
    if Releasing(next.threads[u].pc) {
      s' := ToRun(next, u);
      OnwardTrans(s, next, s', u);
    } else {
      s' := next;
    }
  }

  // ----- into the next stop -----

  predicate Halting(pc: Pc) {
    pc.Stop? && !pc.fatal && pc.k != StopFound(false)
  }

  function HaltRank(pc: Pc): nat
    requires Halting(pc)
  {
    match pc.k
    case StopWant => 8
    case StopLook => 7
    case StopFound(_) => 6
    case StopLock => 5
    case StopMark => 4
    case StopCount => 3
    case StopFlag => 2
    case StopRelease => 1
  }

  lemma HaltingStep(s: Session, u: Tid)
    requires u in s.threads && Halting(s.threads[u].pc) && u in s.registry
    ensures var f, pc := Forward(s, u), s.threads[u].pc;
            && (f.op.Lock? ==> Shared(f.op.m) || f.op.m == State(u))
            && if pc.k == StopRelease then f.pc == Ask(false, AskWant)
               else Halting(f.pc) && HaltRank(f.pc) < HaltRank(pc)
  {}

  lemma {:induction false} ToAsk(s: Session, u: Tid) returns (s': Session)
    requires Still(s) && u in s.threads && Halting(s.threads[u].pc)
    ensures Onward(s, s', u) && s'.threads[u].pc == Ask(false, AskWant)
    decreases HaltRank(s.threads[u].pc)
  {
    assert ThreadInv(s, u) && Registered(ZoneOf(s.threads[u].pc));
    HaltingStep(s, u);
    var next := Pace(s, u);
    if Halting(next.threads[u].pc) {
      s' := ToAsk(next, u);
      OnwardTrans(s, next, s', u);
    } else {
      s' := next;
    }
  }

  /** A running thread can stop and write its stopped event. */
  lemma StopsAgain(s: Session, u: Tid) returns (s': Session)
    requires Still(s) && u in s.threads && s.threads[u].pc == Run
    ensures Onward(s, s', u) && JustStopped(s.log, s'.log, u)
  {
    var halting := OwnStep(s, u, SeeStop(false), Stop(false, StopWant));
    var asking := ToAsk(halting, u);
    s' := ToWritten(asking, u);
    OnwardTrans(s, halting, asking, u);
    OnwardTrans(s, asking, s', u);
  }

  // ----- the resume is carried out -----

  function WokenPc(pc: Pc): Pc {
    if pc.Wait? && pc.w == Asleep then Wait(pc.fatal, WaitLock) else pc
  }

  /** Thread `u` was unpaused and awakened; nothing was written. */
  ghost predicate Released(s: Session, s': Session, u: Tid) {
    && Still(s') && Reaches(s, s') && s'.log == s.log && u in s.threads && u in s'.threads
    && !s'.threads[u].paused && s'.threads[u].pc == WokenPc(s.threads[u].pc)
  }

  ghost predicate Visiting(s: Session, u: Tid, v: VisitPc) {
    && Inv(s) && !s.stop && !s.broken && u in s.threads
    && s.proto.Visit? && Resumes(s.proto.r) && s.proto.u == u && s.proto.v == v
  }

  lemma HoldsVisited(s: Session, u: Tid, v: VisitPc)
    requires Visiting(s, u, v) && v != Owe
    ensures State(u) in s.owner && s.owner[State(u)] == Proto
  {
    assert Holds(s, Proto, State(u));
  }

  /** From finding the thread paused to having cleared its mark. */
  lemma ClearsMark(s: Session, u: Tid) returns (s': Session)
    requires Visiting(s, u, Deduct)
    ensures Visiting(s', u, Unpaused) && Reaches(s, s') && s'.log == s.log
    ensures !s'.threads[u].paused && s'.threads[u].pc == s.threads[u].pc
  {
    var p := s.proto;
    var s1 := ProtoMoves(s, Dec, p.(v := Unpause(true)));
    s' := ProtoMoves(s1, Clear(u), p.(v := Unpaused));
    ReachesTwo(s, s1, s');
  }

  lemma Unlocks(s: Session, u: Tid, p': ProtoPc) returns (s': Session)
    requires s.proto.Visit? && Visiting(s, u, s.proto.v) && s.proto.v != Owe && ProtoEdge(s.proto, Unlock(State(u)), p')
    ensures Next(s, s') && Inv(s') && s' == s.(owner := s.owner - {State(u)}, proto := p')
  {
    HoldsVisited(s, u, s.proto.v);
    s' := ProtoMoves(s, Unlock(State(u)), p');
  }

  lemma Notifies(s: Session, u: Tid, p': ProtoPc) returns (s': Session)
    requires Inv(s) && u in s.threads && ProtoEdge(s.proto, Notify(u), p')
    ensures Next(s, s') && Inv(s') && s'.proto == p' && s'.log == s.log && s'.stop == s.stop && s'.broken == s.broken
    ensures u in s'.threads && s'.threads[u] == s.threads[u].(pc := WokenPc(s.threads[u].pc))
  {
    NotifyEffect(s, u);
    s' := ProtoMoves(s, Notify(u), p');
  }

  lemma NotifyEffect(s: Session, u: Tid)
    requires u in s.threads
    ensures var th := s.threads[u];
            Effect(s, Proto, Notify(u)) == s.(threads := s.threads[u := th.(pc := WokenPc(th.pc))])
  {}

  /** From there to the next thread, by way of a notify under the lock. */
  lemma NotifiesHeld(s: Session, u: Tid) returns (s': Session)
    requires Visiting(s, u, NotifyHeld) && !s.threads[u].paused
    ensures Released(s, s', u)
  {
    var p := s.proto;
    var s1 := Notifies(s, u, p.(v := Release));
    s' := Unlocks(s1, u, Pick(p.r, p.todo));
    ReachesTwo(s, s1, s');
  }

  lemma ReachesTwo(s: Session, t: Session, u: Session)
    requires Next(s, t) && Next(t, u)
    ensures Reaches(s, u)
  {
    ReachesSelf(s);
    ReachesNext(s, s, t);
    ReachesNext(s, t, u);
  }

  /** Or by way of a notify after the unlock. */
  lemma NotifiesLater(s: Session, u: Tid) returns (s': Session)
    requires Visiting(s, u, ReleaseOwing) && !s.threads[u].paused
    ensures Released(s, s', u)
  {
    var p := s.proto;
    var s1 := Unlocks(s, u, p.(v := Owe));
    s' := Notifies(s1, u, Pick(p.r, p.todo));
    ReachesTwo(s, s1, s');
  }

  lemma Resumed(s: Session, u: Tid) returns (s': Session)
    requires Visiting(s, u, Deduct)
    ensures Released(s, s', u)
  {
    var cleared := ClearsMark(s, u);
    var p := cleared.proto;
    var held := !p.r.Step? && cleared.threads[u].faulted;
    var op := if p.r.Step? then Tau else SeeFaulted(u, held);
    var next := ProtoMoves(cleared, op, p.(v := if held then NotifyHeld else ReleaseOwing));
    ReachesNext(s, cleared, next);
    if held {
      s' := NotifiesHeld(next, u);
    } else {
      s' := NotifiesLater(next, u);
    }
    ReachesTrans(s, next, s');
  }

  // ----- the order is broken -----

  lemma {:induction false} OpenWitness(log: seq<Record>, u: Tid) returns (i: nat)
    requires Open(log, u)
    ensures i < |log| && log[i].msg == Stopped(u) && forall k | i < k < |log| :: !Covers(log[k].msg, u)
  {
    var n := |log| - 1;
    if log[n].msg == Stopped(u) {
      i := n;
    } else {
      i := OpenWitness(log[..n], u);
      assert forall k | i < k < n :: log[..n][k] == log[k];
    }
  }

  /** A stopped event followed by another with nothing answered between. */
  lemma TwoStops(log: seq<Record>, log': seq<Record>, u: Tid)
    requires Open(log, u) && Grown(log, log', u) && JustStopped(log, log', u)
    ensures !Alternates(log')
  {
    var i := OpenWitness(log, u);
    var j := |log'| - 1;
    assert forall k | 0 <= k < |log| :: log'[k] == log[k];
    assert log'[i].msg == Stopped(u) && log'[j].msg == Stopped(u) && !Between(log', u, i, j);
  }

  lemma JustStoppedOpen(log: seq<Record>, log': seq<Record>, u: Tid)
    requires JustStopped(log, log', u)
    ensures Open(log', u)
  {}

  lemma LogTrans(a: seq<Record>, b: seq<Record>, c: seq<Record>, u: Tid)
    requires Grown(a, b, u) && JustStopped(b, c, u)
    ensures JustStopped(a, c, u)
  {}

  /** A thread found paused is on its way to its stopped event, or waits after it. */
  lemma FoundWhere(s: Session, u: Tid)
    requires Visiting(s, u, Deduct) && !Final(s.threads[u].pc)
    ensures Silenced(s.threads[u].pc) || (SideOf(s.threads[u].pc) == After && Releasing(WokenPc(s.threads[u].pc)))
    ensures s.threads[u].paused
  {
    HeldApart(s, u);
    assert ThreadInv(s, u);
  }

  /** From finding paused a thread whose stop is not answered, two stopped events
      without an answer between them are reached. */
  lemma UnansweredBreaks(s: Session, u: Tid) returns (s': Session)
    requires Visiting(s, u, Deduct) && !Final(s.threads[u].pc)
    requires SideOf(s.threads[u].pc) == After ==> Open(s.log, u)
    ensures Reaches(s, s') && !Alternates(s'.log)
  {
    FoundWhere(s, u);
    var out := Resumed(s, u);
    if Silenced(s.threads[u].pc) {
      var first := ToWritten(out, u);
      JustStoppedOpen(out.log, first.log, u);
      s' := FromOpen(first, u);
      ReachesTrans(s, out, first);
      ReachesTrans(s, first, s');
    } else {
      s' := FromOpen(out, u);
      ReachesTrans(s, out, s');
    }
  }

  lemma FromOpen(s: Session, u: Tid) returns (s': Session)
    requires Still(s) && u in s.threads && Releasing(s.threads[u].pc) && !s.threads[u].paused && Open(s.log, u)
    ensures Reaches(s, s') && !Alternates(s'.log)
  {
    var running := ToRun(s, u);
    s' := StopsAgain(running, u);
    OnwardTrans(s, running, s', u);
    LogTrans(s.log, running.log, s'.log, u);
    TwoStops(s.log, s'.log, u);
  }

  // ----- the exact condition -----

  lemma AnnouncingPrefix(run: seq<Session>, n: nat, i: nat)
    requires i < n <= |run|
    ensures Announcing(run[..n], i) == Announcing(run, i)
  {
    if i > 0 {
      AnnouncingPrefix(run, n, i - 1);
    }
  }

  lemma PrefixRun(run: seq<Session>, n: nat)
    requires IsRun(run) && 0 < n <= |run|
    ensures IsRun(run[..n])
  {
    forall i | 0 <= i < n - 1
      ensures StepAt(run[..n], i)
    {
      assert StepAt(run, i);
    }
  }

  /** What the step of a race looks like. */
  lemma FoundStep(s: Session, s': Session, announced: seq<Record>, u: Tid)
    requires Inv(s') && Next(s, s') && RacesIn(s, s', announced, u)
    ensures Visiting(s', u, Deduct) && s'.log == s.log && s'.threads == s.threads
  {
    FoundNext(s, s');
  }

  lemma FoundNext(s: Session, s': Session)
    requires Next(s, s') && FoundEdge(s.proto, s'.proto)
    ensures s' == s.(proto := s'.proto)
  {
    if t, op, pc' :| ExecStep(s, t, op, pc', s') {
      EffectOwner(s, Exec(t), op);
    } else if op, p' :| ProtoStep(s, op, p', s') {
      FoundOp(s.proto, op, p');
      SeeChangesNothing(s, op);
    }
  }

  lemma SeeChangesNothing(s: Session, op: Op)
    requires op.SeePaused? && Enabled(s, Proto, op)
    ensures Effect(s, Proto, op) == s
  {}

  lemma FoundOp(p: ProtoPc, op: Op, p': ProtoPc)
    requires ProtoEdge(p, op, p') && FoundEdge(p, p')
    ensures op == SeePaused(p.u, true)
  {}

  /** In a race the thread's stopped event, if written, is not answered. */
  lemma RaceUnanswered(s: Session, s': Session, announced: seq<Record>, u: Tid)
    requires WireInv(s, announced) && RacesIn(s, s', announced, u) && Visiting(s', u, Deduct)
    requires s'.threads == s.threads && s'.log == s.log
    ensures SideOf(s'.threads[u].pc) == After ==> Open(s'.log, u)
  {
    FoundWhere(s', u);
    assert !Answered(s, u);
  }

  lemma BeforeRace(run: seq<Session>)
    requires IsRun(run) && |run| > 1 && RaceFree(run[..|run| - 1])
    ensures var i := |run| - 2; Inv(run[i]) && WireInv(run[i], Announcing(run, i))
  {
    var n := |run| - 1;
    PrefixRun(run, n);
    AnnouncingPrefix(run, n, n - 1);
    WireInvRun(run[..n], n - 1);
  }

  /** The first race of a run can be continued to a breach of the order. */
  lemma RaceBreaks(run: seq<Session>, u: Tid) returns (longer: seq<Session>)
    requires IsRun(run) && |run| > 1 && RaceFree(run[..|run| - 1]) && Race(run, |run| - 2, u)
    ensures IsRun(longer) && run <= longer && !Alternates(longer[|longer| - 1].log)
  {
    var n := |run| - 1;
    BeforeRace(run);
    assert StepAt(run, n - 1);
    var s' := RaceLeadsOn(run[n - 1], run[n], Announcing(run, n - 1), u);
    longer := GoOn(run, s');
  }

  lemma RaceLeadsOn(s: Session, s': Session, announced: seq<Record>, u: Tid) returns (s'': Session)
    requires Inv(s) && WireInv(s, announced) && Next(s, s') && RacesIn(s, s', announced, u)
    ensures Reaches(s', s'') && !Alternates(s''.log)
  {
    InvNext(s, s');
    FoundStep(s, s', announced, u);
    RaceUnanswered(s, s', announced, u);
    s'' := UnansweredBreaks(s', u);
  }

  lemma {:induction false} FirstRace(run: seq<Session>, i: nat, u: Tid) returns (j: nat, x: Tid)
    requires i < |run| - 1 && Race(run, i, u)
    ensures j <= i && Race(run, j, x) && forall k: nat, y | k < j :: !Race(run, k, y)
    decreases i
  {
    if k: nat, y :| k < i && Race(run, k, y) {
      j, x := FirstRace(run, k, y);
    } else {
      j, x := i, u;
    }
  }

  lemma PrefixRace(run: seq<Session>, n: nat, i: nat, u: Tid)
    requires n <= |run| && i < n - 1
    ensures Race(run[..n], i, u) <==> Race(run, i, u)
  {
    AnnouncingPrefix(run, n, i);
  }

  /** From a race-free run on, the order is kept in every continuation exactly when
      no continuation has a race. */
  lemma AlternationExact(run: seq<Session>)
    requires IsRun(run) && RaceFree(run)
    ensures (forall longer | Extends(run, longer) :: EndsInOrder(longer)) <==>
            (forall longer | Extends(run, longer) :: RaceFree(longer))
  {
    if longer :| Extends(run, longer) && !RaceFree(longer) {
      var i, u :| 0 <= i < |longer| - 1 && Race(longer, i, u);
      var broken := RacingBreaks(run, longer, i, u);
      assert Extends(run, broken) && !EndsInOrder(broken);
    }
    if longer :| Extends(run, longer) && RaceFree(longer) && !EndsInOrder(longer) {
      StopsAlternate(longer, |longer| - 1);
    }
  }

  ghost predicate Extends(run: seq<Session>, longer: seq<Session>) {
    IsRun(longer) && run <= longer
  }

  ghost predicate EndsInOrder(run: seq<Session>)
    requires |run| > 0
  {
    Alternates(run[|run| - 1].log)
  }

  lemma FreeBefore(run: seq<Session>, j: nat)
    requires j < |run| && forall k: nat, y | k < j :: !Race(run, k, y)
    ensures RaceFree(run[..j + 1])
  {
    var before := run[..j + 1];
    forall k, y | 0 <= k < |before| - 1
      ensures !Race(before, k, y)
    {
      PrefixRace(run, j + 1, k, y);
    }
  }

  lemma RacingBreaks(run: seq<Session>, longer: seq<Session>, i: nat, u: Tid) returns (broken: seq<Session>)
    requires IsRun(run) && RaceFree(run) && IsRun(longer) && run <= longer && i < |longer| - 1 && Race(longer, i, u)
    ensures IsRun(broken) && run <= broken && !Alternates(broken[|broken| - 1].log)
  {
    var j, x := FirstRace(longer, i, u);
    assert run == longer[..|run|];
    if j < |run| - 1 {
      PrefixRace(longer, |run|, j, x);
    }
    var racing := longer[..j + 2];
    PrefixRun(longer, j + 2);
    PrefixRace(longer, j + 2, j, x);
    FreeBefore(longer, j);
    assert racing[..|racing| - 1] == longer[..j + 1];
    broken := RaceBreaks(racing, x);
  }
}
