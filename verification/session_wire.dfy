/**
 Order on the wire.  Sequence numbers grow in write order.  If no request resumes
 a thread whose stopped event was not on the wire when the request announced
 itself, then a continued event covering a thread lies between any two of its
 stopped events.  A client that resumes only threads whose stopped event it saw
 before it sent the request never causes such a race.
 */
module SessionWire {
  import opened SessionModel
  import opened SessionLocks
  import opened SessionZones
  import opened SessionCounter

  // ----- what the log says about a thread -----

  predicate Covers(m: Message, t: Tid) {
    m == Continued(t) || m == ContinuedAll
  }

  /** The last record about `t` is its stopped event. */
  predicate Open(log: seq<Record>, t: Tid) {
    |log| > 0 &&
    var m := log[|log| - 1].msg;
    m == Stopped(t) || (!Covers(m, t) && Open(log[..|log| - 1], t))
  }

  predicate Between(log: seq<Record>, t: Tid, i: nat, j: nat) {
    exists k :: i < k < j <= |log| && Covers(log[k].msg, t)
  }

  /** Between two stopped events of a thread there is a continued event for it. */
  ghost predicate Alternates(log: seq<Record>) {
    forall t, i, j | 0 <= i < j < |log| && log[i].msg == Stopped(t) && log[j].msg == Stopped(t) :: Between(log, t, i, j)
  }

  lemma {:induction false} ClosedAfter(log: seq<Record>, t: Tid, i: nat)
    requires i < |log| && log[i].msg == Stopped(t) && !Open(log, t)
    ensures Between(log, t, i, |log|)
  {
    var n := |log| - 1;
    if !Covers(log[n].msg, t) {
      assert log[..n][i] == log[i];
      ClosedAfter(log[..n], t, i);
      var k :| i < k < n && Covers(log[..n][k].msg, t);
      assert Covers(log[k].msg, t);
    }
  }

  lemma OpenAppend(log: seq<Record>, r: Record, t: Tid)
    ensures Open(log + [r], t) <==> r.msg == Stopped(t) || (!Covers(r.msg, t) && Open(log, t))
  {
    assert (log + [r])[..|log|] == log;
  }

  lemma AlternatesAppend(log: seq<Record>, r: Record)
    requires Alternates(log) && (r.msg.Stopped? ==> !Open(log, r.msg.tid))
    ensures Alternates(log + [r])
  {
    var log' := log + [r];
    forall t, i, j | 0 <= i < j < |log'| && log'[i].msg == Stopped(t) && log'[j].msg == Stopped(t)
      ensures Between(log', t, i, j)
    {
      if j == |log| {
        ClosedAfter(log, t, i);
      } else {
        assert Between(log, t, i, j);
      }
      var k :| i < k < j && Covers(log[k].msg, t);
      assert Covers(log'[k].msg, t);
    }
  }

  // ----- where a thread stands relative to its stopped event -----

  datatype Side = Before | Silent | After | Outside

  /** Before: on the way to its stopped event, not marked yet; Silent: marked,
      event not written; After: event written, waiting; Outside: anywhere else. */
  function SideOf(pc: Pc): Side {
    match pc
    case Stop(_, k) => if StopZone(k) == Stopping then Before else Silent
    case Ask(_, _) => Silent
    case Event(_, e) => if e == Written then After else Silent
    case Wait(_, _) => After
    case _ => Outside
  }

  /** In or past its unhandled-exception stop, after which a thread never stops again. */
  predicate Final(pc: Pc) {
    pc == Done || ((SideOf(pc) == Silent || SideOf(pc) == After) && pc.fatal)
  }

  predicate SideOk(pc: Pc, paused: bool, stop: bool, open: bool) {
    match SideOf(pc)
    case Before => !open
    case Silent => !open && (paused || stop || Final(pc))
    case After => paused || stop || Final(pc) || !open
    case Outside => stop || Final(pc) || !open
  }

  /** How the control flow moves between the sides. */
  predicate SideEdge(t: Tid, pc: Pc, op: Op, pc': Pc) {
    && (Final(pc) ==> Final(pc'))
    && (op.Mark? ==> SideOf(pc') == Silent)
    && match SideOf(pc)
       case Outside => SideOf(pc') == Outside || (SideOf(pc') == Before && op == SeeStop(false))
       case Before =>
         || SideOf(pc') == Before || (SideOf(pc') == Outside && Calm(op))
         || (SideOf(pc') == Silent && op == Mark(t))
       case Silent =>
         || SideOf(pc') == Silent
         || (SideOf(pc') == After && (op.Lose? || (op.Write? && op.msg == Stopped(t))))
       case After => SideOf(pc') == After || (SideOf(pc') == Outside && ZoneOf(pc) == Leaving)
  }

  /** A stopped event is written only on the way from Silent to After. */
  predicate WriteEdge(t: Tid, pc: Pc, op: Op, pc': Pc) {
    && (op.Write? ==>
          && Wire in Held(t, pc)
          && (op.msg == Other || (op.msg == Stopped(t) && SideOf(pc) == Silent && SideOf(pc') == After)))
    && (op.Number? ==> Wire in Held(t, pc))
  }

  lemma StopSides(t: Tid, f: bool, k: StopPc, op: Op, pc': Pc)
    requires StopEdge(t, f, k, op, pc')
    ensures SideEdge(t, Stop(f, k), op, pc')
  {}

  lemma WaitSides(t: Tid, f: bool, w: WaitPc, op: Op, pc': Pc)
    requires WaitEdge(t, f, w, op, pc')
    ensures SideEdge(t, Wait(f, w), op, pc')
  {}

  lemma AskSides(t: Tid, f: bool, q: AskPc, op: Op, pc': Pc)
    requires AskEdge(f, q, op, pc')
    ensures SideEdge(t, Ask(f, q), op, pc')
  {}

  lemma EventSides(t: Tid, f: bool, e: Sending, op: Op, pc': Pc)
    requires EventEdge(t, f, e, op, pc')
    ensures SideEdge(t, Event(f, e), op, pc')
  {}

  lemma OutsideSides(t: Tid, pc: Pc, op: Op, pc': Pc)
    requires SideOf(pc) == Outside && Edge(t, pc, op, pc')
    ensures SideEdge(t, pc, op, pc')
  {}

  lemma EdgeSides(t: Tid, pc: Pc, op: Op, pc': Pc)
    requires Edge(t, pc, op, pc')
    ensures SideEdge(t, pc, op, pc') && pc != Done
  {
    match pc
    case Stop(f, k) => StopSides(t, f, k, op, pc');
    case Wait(f, w) => WaitSides(t, f, w, op, pc');
    case Ask(f, q) => AskSides(t, f, q, op, pc');
    case Event(f, e) => EventSides(t, f, e, op, pc');
    case _ => OutsideSides(t, pc, op, pc');
  }

  lemma EdgeWrites(t: Tid, pc: Pc, op: Op, pc': Pc)
    requires Edge(t, pc, op, pc')
    ensures WriteEdge(t, pc, op, pc')
  {}

  // ----- announcements and races -----

  /** A resuming request hands its continued event to the transport. */
  predicate AnnounceEdge(p: ProtoPc, p': ProtoPc) {
    p.Send? && Resumes(p.r) && p.e.Writing? && p' == Send(p.r, Written)
  }

  /** A resuming request finds the thread it visits paused, and will resume it. */
  predicate FoundEdge(p: ProtoPc, p': ProtoPc) {
    p.Visit? && Resumes(p.r) && p.v == Hold && p' == p.(v := Deduct)
  }

  /** What was on the wire when the last continued event was handed over. */
  ghost function Announcing(run: seq<Session>, i: nat): seq<Record>
    requires i < |run|
  {
    if i == 0 then []
    else if AnnounceEdge(run[i - 1].proto, run[i].proto) then run[i - 1].log
    else Announcing(run, i - 1)
  }

  /** Thread `u` is found paused, and will be resumed, although its stopped event
      was not on the wire when the request announced itself.  Threads in their last
      stop are harmless, and so are a session being stopped and a broken wire. */
  predicate RacesIn(s: Session, s': Session, announced: seq<Record>, u: Tid) {
    && FoundEdge(s.proto, s'.proto) && s.proto.u == u && u in s.threads
    && !s.stop && !s.broken && !Final(s.threads[u].pc) && !Open(announced, u)
  }

  ghost predicate Race(run: seq<Session>, i: nat, u: Tid)
    requires i < |run| - 1
  {
    RacesIn(run[i], run[i + 1], Announcing(run, i), u)
  }

  ghost predicate RaceFree(run: seq<Session>) {
    forall i, u | 0 <= i < |run| - 1 :: !Race(run, i, u)
  }

  // ----- where the protocol thread stands in serving a resume -----

  predicate HasReq(p: ProtoPc) {
    p.Check? || p.Send? || p.Forget? || p.Get? || p.Pick? || p.Visit?
  }

  /** Announced, and thread `u` may still be resumed. */
  predicate Awaiting(p: ProtoPc, u: Tid) {
    && HasReq(p) && Resumes(p.r) && (Targeted(p.r) ==> u == p.r.tid)
    && !p.Check? && (p.Send? ==> p.e == Written) && (p.Forget? && p.r.Step? ==> u in p.todo)
    && (p.Get? && p.l.LookDone? ==> u in p.l.found) && (p.Pick? ==> u in p.todo)
    && (p.Visit? ==> u in p.todo || (u == p.u && (p.v == Hold || p.v == Deduct || p.v == Unpause(true))))
  }

  /** The thread visited was found paused and is not unpaused yet. */
  predicate Chosen(p: ProtoPc) {
    p.Visit? && (p.v == Deduct || p.v == Unpause(true))
  }

  /** A request that names a thread works on no other. */
  predicate Single(p: ProtoPc) {
    && (HasReq(p) && (p.r.Continue? || p.r.Step?) ==> Work(p) <= {p.r.tid})
    && (p.Visit? ==> p.u !in p.todo && (p.v == Deduct || p.v.Unpause? ==> Resumes(p.r)))
  }

  /** The ways in which a request comes to leave out a thread. */
  predicate Drops(op: Op, u: Tid) {
    || op == Clear(u) || op == SeePaused(u, false)
    || (op.SeeRegistry? && u !in op.ts) || op == SeeMember(u, false)
  }

  ghost predicate ReqEdge(p: ProtoPc, op: Op, p': ProtoPc) {
    && (forall u | Awaiting(p', u) :: Awaiting(p, u) || AnnounceEdge(p, p'))
    && (AnnounceEdge(p, p') ==> op.Lose? || (op.Write? && forall u | Awaiting(p', u) :: Covers(op.msg, u)))
    && (op.Write? ==> forall u | Covers(op.msg, u) :: AnnounceEdge(p, p') && Awaiting(p', u))
    && (forall u | Awaiting(p, u) :: Awaiting(p', u) || Drops(op, u))
    && (Chosen(p') ==> (Chosen(p) && p'.u == p.u) || (FoundEdge(p, p') && p'.u == p.u))
    && (op.Clear? && p.Visit? ==> (Chosen(p) || p.v == Unpause(false)) && op.t == p.u && !Awaiting(p', op.t))
    && (op.Clear? && !p.Visit? ==> Terminating(p))
    && (op.Write? ==> !op.msg.Stopped? && Wire in ProtoHeld(p))
    && (op.Number? ==> Wire in ProtoHeld(p))
    && Single(p')
  }

  lemma VisitReq(r: Req, todo: set<Tid>, u: Tid, v: VisitPc, op: Op, p': ProtoPc)
    requires VisitEdge(r, todo, u, v, op, p') && Single(Visit(r, todo, u, v))
    ensures ReqEdge(Visit(r, todo, u, v), op, p')
  {}

  lemma LookReq(p: ProtoPc, op: Op, p': ProtoPc)
    requires p.Check? || p.Get? || p.Forget?
    requires ProtoEdge(p, op, p') && Single(p)
    ensures ReqEdge(p, op, p')
  {}

  lemma SendReq(r: Req, e: Sending, op: Op, p': ProtoPc)
    requires ProtoSendEdge(r, e, op, p')
    ensures ReqEdge(Send(r, e), op, p')
  {}

  lemma PickReq(p: ProtoPc, op: Op, p': ProtoPc)
    requires p.Pick? || p == Idle
    requires ProtoEdge(p, op, p') && Single(p)
    ensures ReqEdge(p, op, p')
  {}

  lemma ScanReq(p: ProtoPc, op: Op, p': ProtoPc)
    requires p.ScanEnter? || p.ScanPick? || p.Scan?
    requires ScanEdge(p, op, p')
    ensures ReqEdge(p, op, p')
  {}

  lemma ForceReq(todo: set<Tid>, u: Tid, f: ForcePc, op: Op, p': ProtoPc)
    requires ForceEdge(todo, u, f, op, p')
    ensures ReqEdge(Force(todo, u, f), op, p')
  {}

  lemma SignalReq(term: bool, g: SignalPc, op: Op, p': ProtoPc)
    requires SignalEdge(term, g, op, p')
    ensures ReqEdge(Signal(term, g), op, p')
  {}

  lemma TerminateReq(p: ProtoPc, op: Op, p': ProtoPc)
    requires !HasReq(p) && p != Idle && ProtoEdge(p, op, p')
    ensures ReqEdge(p, op, p')
  {
    if p.ScanEnter? || p.ScanPick? || p.Scan? {
      ScanReq(p, op, p');
    } else if p.Force? {
      ForceReq(p.todo, p.u, p.f, op, p');
    } else if p.Signal? {
      SignalReq(p.term, p.g, op, p');
    }
  }

  lemma ProtoReq(p: ProtoPc, op: Op, p': ProtoPc)
    requires ProtoEdge(p, op, p') && Single(p)
    ensures ReqEdge(p, op, p')
  {
    if p.Visit? {
      VisitReq(p.r, p.todo, p.u, p.v, op, p');
    } else if p.Check? || p.Get? || p.Forget? {
      LookReq(p, op, p');
    } else if p.Send? {
      SendReq(p.r, p.e, op, p');
    } else if p.Pick? || p == Idle {
      PickReq(p, op, p');
    } else {
      TerminateReq(p, op, p');
    }
  }

  // ----- the invariant -----

  predicate WireOk(s: Session, t: Tid)
    requires t in s.threads
  {
    !s.broken ==> SideOk(s.threads[t].pc, s.threads[t].paused, s.stop, Open(s.log, t))
  }

  /** A thread whose stopped event preceded the announcement stays in its stop until
      it is visited, and its stopped event has been answered. */
  predicate AwaitOk(s: Session, u: Tid) {
    && u in s.threads && !Open(s.log, u)
    && (s.threads[u].pc == Done ||
        (SideOf(s.threads[u].pc) == After && (s.threads[u].paused || Final(s.threads[u].pc))))
  }

  /** Waiting in its stop with its stopped event answered. */
  predicate Answered(s: Session, t: Tid) {
    && t in s.threads && !s.stop && s.threads[t].paused && !Open(s.log, t)
    && SideOf(s.threads[t].pc) == After && !Final(s.threads[t].pc)
  }

  ghost predicate ResumeOk(s: Session, announced: seq<Record>) {
    && (forall u | Open(announced, u) && Awaiting(s.proto, u) :: AwaitOk(s, u))
    && (forall t | Answered(s, t) :: Awaiting(s.proto, t) && Open(announced, t))
    && (Chosen(s.proto) ==>
          var u := s.proto.u; u in s.threads && (s.stop || Final(s.threads[u].pc) || Open(announced, u)))
  }

  ghost predicate WireInv(s: Session, announced: seq<Record>) {
    && Single(s.proto)
    && (!s.broken ==> ResumeOk(s, announced))
    && (forall t | t in s.threads :: WireOk(s, t))
    && (forall t | Open(s.log, t) :: t in s.threads)
    && Alternates(s.log)
  }

  /** What a step does to the wire. */
  predicate WireAfter(s: Session, op: Op, s': Session) {
    && s'.log == (if op.Write? then s.log + [Record(op.n, op.msg)] else s.log)
    && s'.broken == (s.broken || op.Lose?)
    && (op.Write? ==> !s.broken)
    && (op.Number? ==> op.n == s.nextSeq)
    && s'.nextSeq == (if op.Number? then s.nextSeq + 1 else s.nextSeq)
  }

  lemma EffectWire(s: Session, a: Actor, op: Op)
    requires Enabled(s, a, op)
    ensures WireAfter(s, op, Effect(s, a, op))
  {}

  lemma OpenAfter(s: Session, op: Op, s': Session, t: Tid)
    requires WireAfter(s, op, s')
    ensures Open(s'.log, t) <==>
            if op.Write? then op.msg == Stopped(t) || (!Covers(op.msg, t) && Open(s.log, t)) else Open(s.log, t)
  {
    if op.Write? {
      OpenAppend(s.log, Record(op.n, op.msg), t);
    }
  }

  lemma WireInvInit(s: Session)
    requires Init(s)
    ensures WireInv(s, [])
  {}

  // ----- steps of execution threads -----

  /** A thread's own step keeps its side in order. */
  lemma SideKept(t: Tid, pc: Pc, op: Op, pc': Pc, paused: bool, stop: bool, open: bool)
    requires SideEdge(t, pc, op, pc') && WriteEdge(t, pc, op, pc') && pc != Done
    requires SideOk(pc, paused, stop, open) && PauseOk(ZoneOf(pc), paused, stop)
    requires op.SeeStop? ==> op.b == stop
    requires !op.Lose? && !op.Clear?
    ensures SideOk(pc', MarkAfter(op, t, paused), stop, (op.Write? && op.msg == Stopped(t)) || open)
  {}

  lemma WireOkExec(s: Session, t: Tid, op: Op, s': Session, x: Tid)
    requires ExecView(s, t, op, s') && WireAfter(s, op, s') && x in s.threads && WireOk(s, x) && ThreadInv(s, t)
    requires SideEdge(t, s.threads[t].pc, op, s'.threads[t].pc) && s.threads[t].pc != Done
    requires WriteEdge(t, s.threads[t].pc, op, s'.threads[t].pc)
    requires op.Mark? ==> op.t == t
    ensures WireOk(s', x)
  {
    OpenAfter(s, op, s', x);
    if x == t && !s'.broken {
      SideKept(t, s.threads[t].pc, op, s'.threads[t].pc, s.threads[t].paused, s.stop, Open(s.log, t));
    }
  }

  lemma AwaitOkExec(s: Session, t: Tid, op: Op, s': Session, u: Tid)
    requires ExecView(s, t, op, s') && WireAfter(s, op, s') && ThreadInv(s, t) && WorkInv(s) && AwaitOk(s, u)
    requires SideEdge(t, s.threads[t].pc, op, s'.threads[t].pc) && s.threads[t].pc != Done
    requires WriteEdge(t, s.threads[t].pc, op, s'.threads[t].pc)
    requires op.Mark? ==> op.t == t
    requires !Terminating(s.proto)
    ensures AwaitOk(s', u)
  {
    OpenAfter(s, op, s', u);
    assert !AllDone(s);
    if u == t && SideOf(s'.threads[t].pc) != After {
      assert ZoneOf(s.threads[t].pc) == Leaving;
    }
  }

  lemma WireInvExec(s: Session, t: Tid, op: Op, pc': Pc, s': Session, announced: seq<Record>)
    requires Inv(s) && WireInv(s, announced) && ExecStep(s, t, op, pc', s')
    ensures WireInv(s', announced) && s'.proto == s.proto
  {
    var pc := s.threads[t].pc;
    EdgeOwn(t, pc, op, pc');
    OwnQuiet(t, ZoneOf(pc), op, ZoneOf(pc'));
    EdgeSides(t, pc, op, pc');
    EdgeWrites(t, pc, op, pc');
    ExecSeen(s, t, op, pc', s');
    EffectWire(s, Exec(t), op);
    WireKeptExec(s, t, op, s', announced);
  }

  lemma WireKeptExec(s: Session, t: Tid, op: Op, s': Session, announced: seq<Record>)
    requires Inv(s) && WireInv(s, announced) && ExecView(s, t, op, s') && WireAfter(s, op, s')
    requires SideEdge(t, s.threads[t].pc, op, s'.threads[t].pc) && s.threads[t].pc != Done
    requires WriteEdge(t, s.threads[t].pc, op, s'.threads[t].pc)
    requires op.Mark? ==> op.t == t
    ensures WireInv(s', announced)
  {
    assert ThreadInv(s, t) && WireOk(s, t);
    forall x | x in s'.threads
      ensures WireOk(s', x)
    {
      WireOkExec(s, t, op, s', x);
    }
    if !s'.broken {
      ResumeOkExec(s, t, op, s', announced);
    }
    forall x | Open(s'.log, x)
      ensures x in s'.threads
    {
      OpenAfter(s, op, s', x);
    }
    if op.Write? {
      AlternatesAppend(s.log, Record(op.n, op.msg));
    }
  }

  lemma ResumeOkExec(s: Session, t: Tid, op: Op, s': Session, announced: seq<Record>)
    requires Inv(s) && ResumeOk(s, announced) && ExecView(s, t, op, s') && WireAfter(s, op, s')
    requires SideEdge(t, s.threads[t].pc, op, s'.threads[t].pc) && s.threads[t].pc != Done
    requires WriteEdge(t, s.threads[t].pc, op, s'.threads[t].pc)
    requires op.Mark? ==> op.t == t
    requires !s'.broken
    ensures ResumeOk(s', announced)
  {
    assert ThreadInv(s, t);
    forall u | Open(announced, u) && Awaiting(s'.proto, u)
      ensures AwaitOk(s', u)
    {
      AwaitOkExec(s, t, op, s', u);
    }
    forall x | Answered(s', x)
      ensures Awaiting(s'.proto, x) && Open(announced, x)
    {
      AnsweredExec(s, t, op, s', x);
    }
  }

  /** A thread's own step does not answer its stopped event. */
  lemma AnsweredExec(s: Session, t: Tid, op: Op, s': Session, x: Tid)
    requires ExecView(s, t, op, s') && WireAfter(s, op, s') && !s'.broken && Answered(s', x)
    requires SideEdge(t, s.threads[t].pc, op, s'.threads[t].pc)
    requires WriteEdge(t, s.threads[t].pc, op, s'.threads[t].pc)
    requires op.Mark? ==> op.t == t
    ensures Answered(s, x)
  {
    OpenAfter(s, op, s', x);
  }

  // ----- steps of the protocol thread -----

  lemma WokenSide(x: Tid, pc: Pc, op: Op, pc': Pc)
    requires Woken(pc, op, x, pc')
    ensures SideOf(pc') == SideOf(pc) && (Final(pc') <==> Final(pc))
    ensures pc == Done <==> pc' == Done
  {}

  /** The mark cleared, if set, is that of a stopping session, of a last stop, or of
      a stop whose event was answered. */
  predicate ClearOk(s: Session, x: Tid)
    requires x in s.threads
  {
    var pc := s.threads[x].pc;
    !s.threads[x].paused || s.stop || Final(pc) || (SideOf(pc) == After && !Open(s.log, x))
  }

  lemma WireOkProto(s: Session, op: Op, s': Session, x: Tid)
    requires ProtoView(s, op, s') && WireAfter(s, op, s') && x in s.threads && WireOk(s, x)
    requires !op.Mark? && (op.Write? ==> !op.msg.Stopped?)
    requires op == Clear(x) && !s.broken ==> ClearOk(s, x)
    ensures WireOk(s', x)
  {
    OpenAfter(s, op, s', x);
    WokenSide(x, s.threads[x].pc, op, s'.threads[x].pc);
  }

  lemma ClearAnnounced(s: Session, op: Op, p': ProtoPc, announced: seq<Record>)
    requires WorkInv(s) && KnowInv(s) && ResumeOk(s, announced) && Single(s.proto)
    requires ReqEdge(s.proto, op, p') && op.Clear? && op.t in s.threads
    ensures ClearOk(s, op.t)
  {
    var p := s.proto;
    if Chosen(p) && Open(announced, p.u) {
      assert Awaiting(p, p.u);
    }
  }

  /** At the announcement every open thread is in its stop, or past its last. */
  lemma AnnounceOk(s: Session, op: Op, s': Session, u: Tid)
    requires ProtoView(s, op, s') && WireAfter(s, op, s') && WorkInv(s) && !s'.broken && !op.Clear? && !op.Mark?
    requires u in s.threads && WireOk(s, u) && Open(s.log, u) && !Terminating(s.proto)
    requires op.Write? && Covers(op.msg, u)
    ensures AwaitOk(s', u)
  {
    OpenAfter(s, op, s', u);
    WokenSide(u, s.threads[u].pc, op, s'.threads[u].pc);
  }

  lemma AwaitOkProto(s: Session, op: Op, s': Session, u: Tid)
    requires ProtoView(s, op, s') && WireAfter(s, op, s') && AwaitOk(s, u) && !op.Mark? && op != Clear(u)
    requires op.Write? ==> !op.msg.Stopped?
    ensures AwaitOk(s', u)
  {
    OpenAfter(s, op, s', u);
    WokenSide(u, s.threads[u].pc, op, s'.threads[u].pc);
  }

  /** The records known to precede the announcement, after a step. */
  function AnnouncedAfter(s: Session, s': Session, announced: seq<Record>): seq<Record> {
    if AnnounceEdge(s.proto, s'.proto) then s.log else announced
  }

  lemma AwaitKeptProto(s: Session, op: Op, s': Session, announced: seq<Record>, u: Tid)
    requires Inv(s) && WireInv(s, announced) && ProtoView(s, op, s') && WireAfter(s, op, s')
    requires ReqEdge(s.proto, op, s'.proto) && !op.Mark? && !s'.broken
    requires Open(AnnouncedAfter(s, s', announced), u) && Awaiting(s'.proto, u)
    ensures AwaitOk(s', u)
  {
    if AnnounceEdge(s.proto, s'.proto) {
      AnnounceOk(s, op, s', u);
    } else {
      assert Awaiting(s.proto, u) && AwaitOk(s, u);
      assert op == Clear(u) ==> s.proto.Visit?;
      AwaitOkProto(s, op, s', u);
    }
  }

  lemma ChosenKept(s: Session, op: Op, s': Session, announced: seq<Record>)
    requires ProtoView(s, op, s') && ResumeOk(s, announced) && ReqEdge(s.proto, op, s'.proto) && !s'.broken
    requires WireAfter(s, op, s') && (s.proto.Visit? ==> s.proto.u in s.threads) && Chosen(s'.proto)
    requires !RacesIn(s, s', announced, s'.proto.u)
    ensures var u := s'.proto.u; u in s'.threads && (s'.stop || Final(s'.threads[u].pc) || Open(announced, u))
  {
    var u := s'.proto.u;
    WokenSide(u, s.threads[u].pc, op, s'.threads[u].pc);
  }

  lemma WireInvProto(s: Session, op: Op, p': ProtoPc, s': Session, announced: seq<Record>)
    requires Inv(s) && WireInv(s, announced) && ProtoStep(s, op, p', s')
    requires forall u :: !RacesIn(s, s', announced, u)
    ensures WireInv(s', AnnouncedAfter(s, s', announced))
  {
    ProtoReq(s.proto, op, p');
    ProtoPauses(s.proto, op, p');
    DebtMoves(s.proto, op, p', 0);
    ProtoSeen(s, op, p', s');
    EffectWire(s, Proto, op);
    WireKeptProto(s, op, s', announced);
  }

  lemma WireKeptProto(s: Session, op: Op, s': Session, announced: seq<Record>)
    requires Inv(s) && WireInv(s, announced) && ProtoView(s, op, s') && WireAfter(s, op, s')
    requires ReqEdge(s.proto, op, s'.proto) && !op.Mark? && (op.Clear? ==> op.t in s.threads)
    requires forall u :: !RacesIn(s, s', announced, u)
    ensures WireInv(s', AnnouncedAfter(s, s', announced))
  {
    if op.Clear? && !s.broken {
      ClearAnnounced(s, op, s'.proto, announced);
    }
    forall x | x in s'.threads
      ensures WireOk(s', x)
    {
      WireOkProto(s, op, s', x);
    }
    if !s'.broken {
      ResumeKeptProto(s, op, s', announced);
    }
    forall x | Open(s'.log, x)
      ensures x in s'.threads
    {
      OpenAfter(s, op, s', x);
    }
    if op.Write? {
      AlternatesAppend(s.log, Record(op.n, op.msg));
    }
  }

  lemma ResumeKeptProto(s: Session, op: Op, s': Session, announced: seq<Record>)
    requires Inv(s) && WireInv(s, announced) && ProtoView(s, op, s') && WireAfter(s, op, s')
    requires ReqEdge(s.proto, op, s'.proto) && !op.Mark? && !s'.broken
    requires forall u :: !RacesIn(s, s', announced, u)
    ensures ResumeOk(s', AnnouncedAfter(s, s', announced))
  {
    forall u | Open(AnnouncedAfter(s, s', announced), u) && Awaiting(s'.proto, u)
      ensures AwaitOk(s', u)
    {
      AwaitKeptProto(s, op, s', announced, u);
    }
    forall x | Answered(s', x)
      ensures Awaiting(s'.proto, x) && Open(AnnouncedAfter(s, s', announced), x)
    {
      AnsweredProto(s, op, s', announced, x);
    }
    if Chosen(s'.proto) {
      ChosenKept(s, op, s', announced);
    }
  }

  /** A stopped event is answered by the announcement of a request that will come
      to the thread, and stays with that request until it does. */
  lemma AnsweredProto(s: Session, op: Op, s': Session, announced: seq<Record>, x: Tid)
    requires Inv(s) && ResumeOk(s, announced) && ProtoView(s, op, s') && WireAfter(s, op, s')
    requires ReqEdge(s.proto, op, s'.proto) && !op.Mark? && Answered(s', x)
    ensures Awaiting(s'.proto, x) && Open(AnnouncedAfter(s, s', announced), x)
  {
    AnsweredBefore(s, op, s', x);
    if !Open(s.log, x) {
      assert ThreadInv(s, x);
      NotDropped(s, op, s', x);
      assert !AnnounceEdge(s.proto, s'.proto);
    }
  }

  /** A stop that is answered now was answered before, or the step answers it. */
  lemma AnsweredBefore(s: Session, op: Op, s': Session, x: Tid)
    requires ProtoView(s, op, s') && WireAfter(s, op, s') && !op.Mark? && Answered(s', x)
    ensures if Open(s.log, x) then op.Write? && Covers(op.msg, x) else Answered(s, x)
  {
    OpenAfter(s, op, s', x);
    WokenSide(x, s.threads[x].pc, op, s'.threads[x].pc);
  }

  lemma NotDropped(s: Session, op: Op, s': Session, x: Tid)
    requires SharedAfter(s, op, s') && !op.Mark? && Answered(s, x) && Answered(s', x) && ThreadInv(s, x)
    ensures !Drops(op, x)
  {
    WaitingRegistered(x, s.threads[x].pc);
  }

  lemma WaitingRegistered(t: Tid, pc: Pc)
    requires SideOf(pc) == After
    ensures Registered(ZoneOf(pc))
  {}

  lemma WireInvSpawn(s: Session, parent: Tid, t: Tid, s': Session, announced: seq<Record>)
    requires WireInv(s, announced) && SpawnStep(s, parent, t, s')
    ensures WireInv(s', announced) && s'.proto == s.proto
  {
    forall x | x in s'.threads
      ensures WireOk(s', x)
    {
      assert x != t ==> WireOk(s, x);
    }
    if !s.broken {
      forall u | Open(announced, u) && Awaiting(s'.proto, u)
        ensures AwaitOk(s', u)
      {
        assert AwaitOk(s, u);
      }
      forall x | Answered(s', x)
        ensures Awaiting(s'.proto, x) && Open(announced, x)
      {
        assert Answered(s, x);
      }
    }
  }

  // ----- over whole runs -----

  lemma WireInvNext(s: Session, s': Session, announced: seq<Record>)
    requires Inv(s) && WireInv(s, announced) && Next(s, s') && forall u :: !RacesIn(s, s', announced, u)
    ensures WireInv(s', AnnouncedAfter(s, s', announced))
  {
    if t, op, pc' :| ExecStep(s, t, op, pc', s') {
      WireInvExec(s, t, op, pc', s', announced);
    } else if op, p' :| ProtoStep(s, op, p', s') {
      WireInvProto(s, op, p', s', announced);
    } else {
      var parent, t :| SpawnStep(s, parent, t, s');
      WireInvSpawn(s, parent, t, s', announced);
    }
  }

  lemma {:induction false} WireInvRun(run: seq<Session>, i: nat)
    requires IsRun(run) && RaceFree(run) && i < |run|
    ensures Inv(run[i]) && WireInv(run[i], Announcing(run, i))
  {
    if i == 0 {
      InvInit(run[0]);
      WireInvInit(run[0]);
    } else {
      WireInvRun(run, i - 1);
      assert StepAt(run, i - 1);
      WireInvStep(run, i - 1);
    }
  }

  lemma WireInvStep(run: seq<Session>, i: nat)
    requires i < |run| - 1 && Next(run[i], run[i + 1]) && RaceFree(run)
    requires Inv(run[i]) && WireInv(run[i], Announcing(run, i))
    ensures Inv(run[i + 1]) && WireInv(run[i + 1], Announcing(run, i + 1))
  {
    var s, s', announced := run[i], run[i + 1], Announcing(run, i);
    InvNext(s, s');
    forall u ensures !RacesIn(s, s', announced, u) {
      assert !Race(run, i, u);
    }
    WireInvNext(s, s', announced);
  }

  /** In every race-free run, a continued event covering a thread lies between any
      two of its stopped events. */
  lemma StopsAlternate(run: seq<Session>, n: nat)
    requires IsRun(run) && RaceFree(run) && n < |run|
    ensures Alternates(run[n].log)
  {
    WireInvRun(run, n);
  }

  /** In a race-free run, while no resume is being served, the log is right about
      every thread waiting in a stop it can be resumed from. */
  lemma IdleLogIsRight(run: seq<Session>, n: nat, t: Tid)
    requires IsRun(run) && RaceFree(run) && n < |run| && !run[n].broken && !run[n].stop
    requires t in run[n].threads && SideOf(run[n].threads[t].pc) == After && !Final(run[n].threads[t].pc)
    requires HasReq(run[n].proto) ==> !Resumes(run[n].proto.r)
    ensures run[n].threads[t].paused ==> Open(run[n].log, t)
    ensures Open(run[n].log, t) ==> run[n].threads[t].paused
  {
    WireInvRun(run, n);
    assert WireOk(run[n], t);
    assert Open(run[n].log, t) || !Answered(run[n], t);
  }

  // ----- the client that resumes only what it saw stopped -----

  /** What was on the wire when the request being served began. */
  ghost function Beginning(run: seq<Session>, i: nat): seq<Record>
    requires i < |run|
  {
    if run[i].proto == Idle || i == 0 then run[i].log else Beginning(run, i - 1)
  }

  /** Every thread that a request resumes had its stopped event as the last record
      about it when the request began. */
  ghost predicate Attentive(run: seq<Session>) {
    forall i | 0 <= i < |run| - 1 :: AttentiveAt(run, i)
  }

  ghost predicate AttentiveAt(run: seq<Session>, i: nat)
    requires i < |run| - 1
  {
    FoundEdge(run[i].proto, run[i + 1].proto) ==> Open(Beginning(run, i), run[i].proto.u)
  }

  /** A resume before its announcement. */
  predicate Preparing(p: ProtoPc) {
    (p.Check? || (p.Send? && p.e != Written)) && Resumes(p.r)
  }

  predicate Serving(p: ProtoPc) {
    HasReq(p) && Resumes(p.r) && !Preparing(p)
  }

  predicate ServeEdge(p: ProtoPc, op: Op, p': ProtoPc) {
    && (Preparing(p') ==> (p == Idle || Preparing(p)) && !op.Write?)
    && (Serving(p') ==> Serving(p) || (AnnounceEdge(p, p') && Preparing(p)))
    && (AnnounceEdge(p, p') ==> Preparing(p))
  }

  lemma ServeVisit(r: Req, todo: set<Tid>, u: Tid, v: VisitPc, op: Op, p': ProtoPc)
    requires VisitEdge(r, todo, u, v, op, p')
    ensures ServeEdge(Visit(r, todo, u, v), op, p')
  {}

  lemma ServeSend(r: Req, e: Sending, op: Op, p': ProtoPc)
    requires ProtoSendEdge(r, e, op, p')
    ensures ServeEdge(Send(r, e), op, p')
  {}

  lemma ServeLook(p: ProtoPc, op: Op, p': ProtoPc)
    requires p.Check? || p.Get? || p.Forget? || p.Pick? || p == Idle
    requires ProtoEdge(p, op, p')
    ensures ServeEdge(p, op, p')
  {}

  lemma ServeScan(p: ProtoPc, op: Op, p': ProtoPc)
    requires p.ScanEnter? || p.ScanPick? || p.Scan?
    requires ScanEdge(p, op, p')
    ensures ServeEdge(p, op, p')
  {}

  lemma ServeForce(p: ProtoPc, op: Op, p': ProtoPc)
    requires p.Force? || p.Signal?
    requires ProtoEdge(p, op, p')
    ensures ServeEdge(p, op, p')
  {}

  lemma ServeOther(p: ProtoPc, op: Op, p': ProtoPc)
    requires !HasReq(p) && p != Idle && ProtoEdge(p, op, p')
    ensures ServeEdge(p, op, p')
  {
    if p.ScanEnter? || p.ScanPick? || p.Scan? {
      ServeScan(p, op, p');
    } else if p.Force? || p.Signal? {
      ServeForce(p, op, p');
    }
  }

  lemma ServeSteps(p: ProtoPc, op: Op, p': ProtoPc)
    requires ProtoEdge(p, op, p')
    ensures ServeEdge(p, op, p')
  {
    if p.Visit? {
      ServeVisit(p.r, p.todo, p.u, p.v, op, p');
    } else if p.Send? {
      ServeSend(p.r, p.e, op, p');
    } else if HasReq(p) || p == Idle {
      ServeLook(p, op, p');
    } else {
      ServeOther(p, op, p');
    }
  }

  /** Nothing answers a stopped event between the beginning of a resume and its
      announcement. */
  ghost predicate SeenKept(s: Session, begun: seq<Record>, announced: seq<Record>) {
    && (s.proto == Idle ==> begun == s.log)
    && (Preparing(s.proto) ==> forall u | Open(begun, u) :: Open(s.log, u))
    && (Serving(s.proto) ==> forall u | Open(begun, u) :: Open(announced, u))
  }

  lemma SeenExec(s: Session, t: Tid, op: Op, pc': Pc, s': Session, u: Tid)
    requires ExecStep(s, t, op, pc', s') && Open(s.log, u)
    ensures Open(s'.log, u) && s'.proto == s.proto
  {
    EdgeWrites(t, s.threads[t].pc, op, pc');
    EffectWire(s, Exec(t), op);
    EffectOwner(s, Exec(t), op);
    OpenAfter(s, op, s', u);
  }

  lemma SeenProto(s: Session, op: Op, p': ProtoPc, s': Session, begun: seq<Record>, announced: seq<Record>)
    requires ProtoStep(s, op, p', s') && SeenKept(s, begun, announced)
    ensures SeenKept(s', if p' == Idle then s'.log else begun, AnnouncedAfter(s, s', announced))
  {
    ServeSteps(s.proto, op, p');
    EffectWire(s, Proto, op);
  }

  lemma SeenNext(s: Session, s': Session, begun: seq<Record>, announced: seq<Record>)
    requires Next(s, s') && SeenKept(s, begun, announced)
    ensures SeenKept(s', if s'.proto == Idle then s'.log else begun, AnnouncedAfter(s, s', announced))
  {
    if t, op, pc' :| ExecStep(s, t, op, pc', s') {
      EffectOwner(s, Exec(t), op);
      forall u | Open(s.log, u)
        ensures Open(s'.log, u)
      {
        SeenExec(s, t, op, pc', s', u);
      }
    } else if op, p' :| ProtoStep(s, op, p', s') {
      SeenProto(s, op, p', s', begun, announced);
    }
  }

  lemma {:induction false} SeenRun(run: seq<Session>, i: nat)
    requires IsRun(run) && i < |run|
    ensures SeenKept(run[i], Beginning(run, i), Announcing(run, i))
  {
    if i > 0 {
      SeenRun(run, i - 1);
      assert StepAt(run, i - 1);
      SeenNext(run[i - 1], run[i], Beginning(run, i - 1), Announcing(run, i - 1));
    }
  }

  /** An attentive client, whether it names one thread or continues all, never causes
      a race. */
  lemma AttentiveIsRaceFree(run: seq<Session>)
    requires IsRun(run) && Attentive(run)
    ensures RaceFree(run)
  {
    forall i, u | 0 <= i < |run| - 1
      ensures !Race(run, i, u)
    {
      SeenRun(run, i);
      assert AttentiveAt(run, i);
    }
  }

  /** So it sees a continued event covering a thread between any two of its stopped
      events. */
  lemma AttentiveClient(run: seq<Session>, n: nat, t: Tid, i: nat, j: nat)
    requires IsRun(run) && Attentive(run) && n < |run| && i < j < |run[n].log|
    requires run[n].log[i].msg == Stopped(t) && run[n].log[j].msg == Stopped(t)
    ensures exists k :: i < k < j && Covers(run[n].log[k].msg, t)
  {
    AttentiveIsRaceFree(run);
    StopsAlternate(run, n);
    assert Between(run[n].log, t, i, j);
  }

  // ----- sequence numbers -----

  predicate WritingNow(pc: Pc) {
    (pc.Event? && pc.e.Writing?) || (pc.Talk? && pc.o.Writing?)
  }

  function NumberOf(pc: Pc): int
    requires WritingNow(pc)
  {
    if pc.Event? then pc.e.n else pc.o.n
  }

  predicate LogBelow(log: seq<Record>, n: int) {
    forall i | 0 <= i < |log| :: log[i].seqNo < n
  }

  predicate Ordered(log: seq<Record>) {
    forall i, j | 0 <= i < j < |log| :: log[i].seqNo < log[j].seqNo
  }

  /** The number in hand is the last one taken, and above everything written. */
  predicate InHand(s: Session, n: int) {
    n == s.nextSeq - 1 && LogBelow(s.log, n)
  }

  predicate SeqOk(s: Session, t: Tid)
    requires t in s.threads
  {
    WritingNow(s.threads[t].pc) ==> InHand(s, NumberOf(s.threads[t].pc))
  }

  ghost predicate SeqInv(s: Session) {
    && Ordered(s.log) && LogBelow(s.log, s.nextSeq)
    && (forall t | t in s.threads :: SeqOk(s, t))
    && (s.proto.Send? && s.proto.e.Writing? ==> InHand(s, s.proto.e.n))
  }

  lemma EdgeNumbers(t: Tid, pc: Pc, op: Op, pc': Pc)
    requires Edge(t, pc, op, pc')
    ensures WritingNow(pc') ==> op == Number(NumberOf(pc'))
    ensures op.Write? ==> WritingNow(pc) && op.n == NumberOf(pc)
    ensures WritingNow(pc) ==> Wire in Held(t, pc)
    ensures op.Write? || op.Number? ==> Wire in Held(t, pc)
  {}

  lemma ProtoNumbers(p: ProtoPc, op: Op, p': ProtoPc)
    requires ProtoEdge(p, op, p')
    ensures p'.Send? && p'.e.Writing? ==> op == Number(p'.e.n)
    ensures op.Write? ==> p.Send? && p.e.Writing? && op.n == p.e.n
    ensures op.Write? || op.Number? ==> Wire in ProtoHeld(p)
  {}

  lemma WritingHolds(t: Tid, pc: Pc)
    requires WritingNow(pc)
    ensures Wire in Held(t, pc)
  {}

  lemma SeqExec(s: Session, t: Tid, op: Op, pc': Pc, s': Session)
    requires LockInv(s) && SeqInv(s) && ExecStep(s, t, op, pc', s')
    ensures SeqInv(s')
  {
    var pc := s.threads[t].pc;
    EdgeNumbers(t, pc, op, pc');
    EdgeOwn(t, pc, op, pc');
    OwnQuiet(t, ZoneOf(pc), op, ZoneOf(pc'));
    ExecSeen(s, t, op, pc', s');
    EffectWire(s, Exec(t), op);
    assert SeqOk(s, t);
    SeqKeptExec(s, t, op, s');
  }

  lemma SeqKeptExec(s: Session, t: Tid, op: Op, s': Session)
    requires LockInv(s) && SeqInv(s) && ExecView(s, t, op, s') && WireAfter(s, op, s')
    requires WritingNow(s'.threads[t].pc) ==> op == Number(NumberOf(s'.threads[t].pc))
    requires op.Write? ==> InHand(s, op.n)
    requires op.Write? || op.Number? ==> Wire in Held(t, s.threads[t].pc)
    ensures SeqInv(s')
  {
    forall x | x in s'.threads
      ensures SeqOk(s', x)
    {
      if x != t && WritingNow(s'.threads[x].pc) {
        assert SeqOk(s, x);
        WritingHolds(x, s.threads[x].pc);
        assert Holds(s, Exec(x), Wire);
        assert !Holds(s, Exec(t), Wire);
      }
    }
    if s.proto.Send? && s.proto.e.Writing? {
      assert Holds(s, Proto, Wire);
      assert !Holds(s, Exec(t), Wire);
    }
  }

  lemma SeqProto(s: Session, op: Op, p': ProtoPc, s': Session)
    requires LockInv(s) && SeqInv(s) && ProtoStep(s, op, p', s')
    ensures SeqInv(s')
  {
    ProtoNumbers(s.proto, op, p');
    ProtoSeen(s, op, p', s');
    EffectWire(s, Proto, op);
    SeqKeptProto(s, op, s');
  }

  lemma SeqKeptProto(s: Session, op: Op, s': Session)
    requires LockInv(s) && SeqInv(s) && ProtoView(s, op, s') && WireAfter(s, op, s')
    requires s'.proto.Send? && s'.proto.e.Writing? ==> op == Number(s'.proto.e.n)
    requires op.Write? ==> InHand(s, op.n)
    requires op.Write? || op.Number? ==> Wire in ProtoHeld(s.proto)
    ensures SeqInv(s')
  {
    forall x | x in s'.threads
      ensures SeqOk(s', x)
    {
      if WritingNow(s'.threads[x].pc) {
        assert s.threads[x].pc == s'.threads[x].pc && SeqOk(s, x);
        WritingHolds(x, s.threads[x].pc);
        assert Holds(s, Exec(x), Wire);
        assert !Holds(s, Proto, Wire);
      }
    }
  }

  lemma SeqSpawn(s: Session, parent: Tid, t: Tid, s': Session)
    requires SeqInv(s) && SpawnStep(s, parent, t, s')
    ensures SeqInv(s')
  {
    assert forall x | x in s'.threads && x != t :: SeqOk(s, x);
  }

  lemma SeqNext(s: Session, s': Session)
    requires LockInv(s) && SeqInv(s) && Next(s, s')
    ensures SeqInv(s')
  {
    if t, op, pc' :| ExecStep(s, t, op, pc', s') {
      SeqExec(s, t, op, pc', s');
    } else if op, p' :| ProtoStep(s, op, p', s') {
      SeqProto(s, op, p', s');
    } else {
      var parent, t :| SpawnStep(s, parent, t, s');
      SeqSpawn(s, parent, t, s');
    }
  }

  lemma {:induction false} SeqRun(run: seq<Session>, i: nat)
    requires IsRun(run) && i < |run|
    ensures SeqInv(run[i])
  {
    if i > 0 {
      SeqRun(run, i - 1);
      LockInvRun(run, i - 1);
      assert StepAt(run, i - 1);
      SeqNext(run[i - 1], run[i]);
    }
  }

  /** In every run, whatever the client does, sequence numbers follow the write
      order without repeats. */
  lemma SequenceNumbersGrow(run: seq<Session>, n: nat, i: nat, j: nat)
    requires IsRun(run) && n < |run| && i < j < |run[n].log|
    ensures run[n].log[i].seqNo < run[n].log[j].seqNo
  {
    SeqRun(run, n);
  }
}
