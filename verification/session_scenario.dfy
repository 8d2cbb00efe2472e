/**
 A run in which a continue-all meets the race: the main thread stops between the
 continued event and its visit, is resumed unseen, and stops again.
 */
module SessionScenario {
  import opened SessionModel
  import opened SessionLocks
  import opened SessionCounter
  import opened SessionWire
  import opened SessionRace

  /** One thread, the main one, and no lock taken. */
  predicate At(s: Session, pc: Pc, paused: bool, p: ProtoPc) {
    && s.threads == map[MAIN := Thread(pc, paused, false)] && s.proto == p
    && s.registry == {MAIN} && !s.stop && !s.broken && s.owner == map[]
  }

  /** The same, with lock `m` taken by `a`. */
  predicate Taken(s: Session, pc: Pc, paused: bool, p: ProtoPc, m: Mutex, a: Actor) {
    At(s.(owner := map[]), pc, paused, p) && s.owner == map[m := a]
  }

  /** Tests, and steps that only move a program counter. */
  predicate Idles(op: Op) {
    op.Tau? || op.SeeStop? || op.SeeConfig? || op.SeeMember? || op.SeePaused? || op.SeeRegistry?
  }

  lemma IdleEffect(s: Session, a: Actor, op: Op)
    requires Enabled(s, a, op) && Idles(op)
    ensures Effect(s, a, op) == s
  {}

  lemma LockEffect(s: Session, a: Actor, m: Mutex)
    requires Enabled(s, a, Lock(m))
    ensures Effect(s, a, Lock(m)) == s.(owner := s.owner[m := a])
  {}

  lemma UnlockEffect(s: Session, a: Actor, m: Mutex)
    requires Enabled(s, a, Unlock(m))
    ensures Effect(s, a, Unlock(m)) == s.(owner := s.owner - {m})
  {}

  // ----- steps of the protocol thread -----

  lemma ProtoDoes(s: Session, op: Op, p': ProtoPc) returns (s': Session)
    requires ProtoEdge(s.proto, op, p') && Enabled(s, Proto, op)
    ensures s' == Effect(s, Proto, op).(proto := p') && Next(s, s')
  {
    s' := Effect(s, Proto, op).(proto := p');
    assert ProtoStep(s, op, p', s');
  }

  lemma ProtoIdles(s: Session, op: Op, p': ProtoPc) returns (s': Session)
    requires ProtoEdge(s.proto, op, p') && Enabled(s, Proto, op) && Idles(op)
    ensures s' == s.(proto := p') && Next(s, s')
  {
    IdleEffect(s, Proto, op);
    s' := ProtoDoes(s, op, p');
  }

  lemma ProtoTakes(s: Session, pc: Pc, paused: bool, m: Mutex, p': ProtoPc) returns (s': Session)
    requires At(s, pc, paused, s.proto) && ProtoEdge(s.proto, Lock(m), p')
    ensures Taken(s', pc, paused, p', m, Proto) && Next(s, s')
    ensures s'.configured == s.configured && s'.nextSeq == s.nextSeq
  {
    LockEffect(s, Proto, m);
    s' := ProtoDoes(s, Lock(m), p');
  }

  lemma ProtoGives(s: Session, pc: Pc, paused: bool, m: Mutex, p': ProtoPc) returns (s': Session)
    requires Taken(s, pc, paused, s.proto, m, Proto) && ProtoEdge(s.proto, Unlock(m), p')
    ensures At(s', pc, paused, p') && Next(s, s') && s'.configured == s.configured
  {
    UnlockEffect(s, Proto, m);
    s' := ProtoDoes(s, Unlock(m), p');
  }

  lemma Chain3(a: Session, b: Session, c: Session, d: Session)
    requires Next(a, b) && Next(b, c) && Next(c, d)
    ensures Reaches(a, d)
  {
    ReachesTwo(a, b, c);
    ReachesNext(a, c, d);
  }

  /** Sending a message from `Send(r, Want)`. */
  lemma ProtoSends(s: Session, pc: Pc, r: Req) returns (s': Session)
    requires At(s, pc, false, Send(r, Want))
    ensures Taken(s', pc, false, Send(r, Written), Wire, Proto) && Reaches(s, s') && s'.configured == s.configured
  {
    var s1 := ProtoTakes(s, pc, false, Wire, Send(r, Numbering));
    var s2 := ProtoNumbersNext(s1, pc, r);
    s' := ProtoWrites(s2, pc, r);
    Chain3(s, s1, s2, s');
  }

  lemma ProtoNumbersNext(s: Session, pc: Pc, r: Req) returns (s': Session)
    requires Taken(s, pc, false, Send(r, Numbering), Wire, Proto)
    ensures Taken(s', pc, false, Send(r, Writing(s.nextSeq)), Wire, Proto) && Next(s, s')
    ensures s'.configured == s.configured
  {
    s' := ProtoDoes(s, Number(s.nextSeq), Send(r, Writing(s.nextSeq)));
  }

  lemma ProtoWrites(s: Session, pc: Pc, r: Req) returns (s': Session)
    requires s.proto.Send? && s.proto.e.Writing? && Taken(s, pc, false, Send(r, s.proto.e), Wire, Proto)
    ensures Taken(s', pc, false, Send(r, Written), Wire, Proto) && Next(s, s') && s'.configured == s.configured
  {
    s' := ProtoDoes(s, Write(s.proto.e.n, Announcement(r)), Send(r, Written));
  }

  lemma SetsConfig(s: Session, pc: Pc) returns (s': Session)
    requires Taken(s, pc, false, Signal(false, ConfigSet), Config, Proto)
    ensures Taken(s', pc, false, Signal(false, ConfigNotify), Config, Proto) && Next(s, s') && s'.configured
  {
    s' := ProtoDoes(s, SetConfig, Signal(false, ConfigNotify));
  }

  lemma NotifiesConfig(s: Session) returns (s': Session)
    requires Taken(s, Cfg(CfgEnter), false, Signal(false, ConfigNotify), Config, Proto) && s.configured
    ensures Taken(s', Cfg(CfgEnter), false, Signal(false, ConfigRelease), Config, Proto) && Next(s, s') && s'.configured
  {
    NoSleepers(s);
    s' := ProtoDoes(s, NotifyConfig, Signal(false, ConfigRelease));
  }

  lemma NoSleepers(s: Session)
    requires forall t | t in s.threads :: s.threads[t].pc != Cfg(CfgAsleep)
    ensures Effect(s, Proto, NotifyConfig) == s
  {
    assert (map t | t in s.threads :: AwakenedConfig(s.threads[t])) == s.threads;
  }

  lemma Configures(s: Session) returns (s': Session)
    requires At(s, Cfg(CfgEnter), false, Idle)
    ensures At(s', Cfg(CfgEnter), false, Send(Reply, Want)) && s'.configured && Reaches(s, s')
  {
    var s1 := ProtoIdles(s, Tau, Signal(false, ConfigWant));
    var s2 := ProtoTakes(s1, Cfg(CfgEnter), false, Config, Signal(false, ConfigSet));
    var s3 := SetsConfig(s2, Cfg(CfgEnter));
    var s4 := NotifiesConfig(s3);
    s' := ProtoGives(s4, Cfg(CfgEnter), false, Config, Send(Reply, Want));
    Chain3(s, s1, s2, s3);
    ReachesNext(s, s3, s4);
    ReachesNext(s, s4, s');
  }

  lemma Replies(s: Session, pc: Pc) returns (s': Session)
    requires At(s, pc, false, Send(Reply, Want))
    ensures At(s', pc, false, Idle) && Reaches(s, s') && s'.configured == s.configured
  {
    var s1 := ProtoSends(s, pc, Reply);
    s' := ProtoGives(s1, pc, false, Wire, Idle);
    ReachesNext(s, s1, s');
  }

  /** The continue-all announces itself while the main thread runs. */
  lemma Announces(s: Session) returns (s': Session)
    requires At(s, Run, false, Idle)
    ensures At(s', Run, false, Forget(ContinueAll, {}, false)) && Reaches(s, s')
  {
    var s1 := ProtoIdles(s, Tau, Send(ContinueAll, Want));
    var s2 := ProtoSends(s1, Run, ContinueAll);
    s' := ProtoGives(s2, Run, false, Wire, Forget(ContinueAll, {}, false));
    ReachesSelf(s);
    ReachesNext(s, s, s1);
    ReachesTrans(s, s1, s2);
    ReachesNext(s, s2, s');
  }

  lemma TakesSnapshot(s: Session) returns (s': Session)
    requires At(s, Run, false, Forget(ContinueAll, {}, false))
    ensures At(s', Run, false, Pick(ContinueAll, {MAIN})) && Reaches(s, s')
  {
    var s1 := ProtoTakes(s, Run, false, Fault, Forget(ContinueAll, {}, true));
    var s2 := ProtoGives(s1, Run, false, Fault, Get(ContinueAll, LookWant));
    var s3 := ProtoTakes(s2, Run, false, Registry, Get(ContinueAll, Look));
    var s4 := ProtoIdles(s3, SeeRegistry({MAIN}), Get(ContinueAll, LookDone({MAIN})));
    s' := ProtoGives(s4, Run, false, Registry, Pick(ContinueAll, {MAIN}));
    Chain3(s, s1, s2, s3);
    ReachesNext(s, s3, s4);
    ReachesNext(s, s4, s');
  }

  // ----- steps of the main thread -----

  lemma MainDoes(s: Session, op: Op, pc': Pc) returns (s': Session)
    requires MAIN in s.threads && Edge(MAIN, s.threads[MAIN].pc, op, pc') && Enabled(s, Exec(MAIN), op)
    ensures MAIN in Effect(s, Exec(MAIN), op).threads && s' == SetPc(Effect(s, Exec(MAIN), op), MAIN, pc')
    ensures Next(s, s')
  {
    EffectKeys(s, Exec(MAIN), op);
    s' := SetPc(Effect(s, Exec(MAIN), op), MAIN, pc');
    assert ExecStep(s, MAIN, op, pc', s');
  }

  lemma MainIdles(s: Session, pc: Pc, paused: bool, p: ProtoPc, op: Op, pc': Pc) returns (s': Session)
    requires At(s.(owner := map[]), pc, paused, p) && Edge(MAIN, pc, op, pc') && Enabled(s, Exec(MAIN), op) && Idles(op)
    ensures At(s'.(owner := map[]), pc', paused, p) && s'.owner == s.owner && Next(s, s')
  {
    IdleEffect(s, Exec(MAIN), op);
    s' := MainDoes(s, op, pc');
  }

  lemma MainTakes(s: Session, pc: Pc, paused: bool, p: ProtoPc, m: Mutex, pc': Pc) returns (s': Session)
    requires At(s, pc, paused, p) && Edge(MAIN, pc, Lock(m), pc')
    ensures Taken(s', pc', paused, p, m, Exec(MAIN)) && Next(s, s') && s'.configured == s.configured
  {
    LockEffect(s, Exec(MAIN), m);
    s' := MainDoes(s, Lock(m), pc');
  }

  lemma MainGives(s: Session, pc: Pc, paused: bool, p: ProtoPc, m: Mutex, pc': Pc) returns (s': Session)
    requires Taken(s, pc, paused, p, m, Exec(MAIN)) && Edge(MAIN, pc, Unlock(m), pc')
    ensures At(s', pc', paused, p) && Next(s, s')
  {
    UnlockEffect(s, Exec(MAIN), m);
    s' := MainDoes(s, Unlock(m), pc');
  }

  lemma MainStarts(s: Session) returns (s': Session)
    requires At(s, Cfg(CfgEnter), false, Idle) && s.configured
    ensures At(s', Run, false, Idle) && Reaches(s, s')
  {
    var s1 := MainTakes(s, Cfg(CfgEnter), false, Idle, Config, Cfg(CfgTest));
    var s2 := MainIdles(s1, Cfg(CfgTest), false, Idle, SeeConfig(true), Cfg(CfgTested));
    var s3 := MainIdles(s2, Cfg(CfgTested), false, Idle, SeeStop(false), Cfg(CfgLeave(true)));
    s' := MainGives(s3, Cfg(CfgLeave(true)), false, Idle, Config, Run);
    Chain3(s, s1, s2, s3);
    ReachesNext(s, s3, s');
  }

  /** Meanwhile the main thread stops; its stopped event is not written yet. */
  lemma MainLooksUp(s: Session, p: ProtoPc) returns (s': Session)
    requires At(s, Run, false, p)
    ensures At(s', Stop(false, StopLock), false, p) && Reaches(s, s')
  {
    var s1 := MainIdles(s, Run, false, p, SeeStop(false), Stop(false, StopWant));
    var s2 := MainTakes(s1, Stop(false, StopWant), false, p, Registry, Stop(false, StopLook));
    var s3 := MainIdles(s2, Stop(false, StopLook), false, p, SeeMember(MAIN, true), Stop(false, StopFound(true)));
    s' := MainGives(s3, Stop(false, StopFound(true)), false, p, Registry, Stop(false, StopLock));
    Chain3(s, s1, s2, s3);
    ReachesNext(s, s3, s');
  }

  lemma MainMarked(s: Session, p: ProtoPc) returns (s': Session)
    requires Taken(s, Stop(false, StopMark), false, p, State(MAIN), Exec(MAIN))
    ensures Taken(s', Stop(false, StopCount), true, p, State(MAIN), Exec(MAIN)) && Next(s, s')
  {
    s' := MainDoes(s, Mark(MAIN), Stop(false, StopCount));
  }

  lemma MainCounted(s: Session, p: ProtoPc) returns (s': Session)
    requires Taken(s, Stop(false, StopCount), true, p, State(MAIN), Exec(MAIN))
    ensures Taken(s', Stop(false, StopFlag), true, p, State(MAIN), Exec(MAIN)) && Next(s, s')
  {
    s' := MainDoes(s, Inc, Stop(false, StopFlag));
  }

  lemma MainMarks(s: Session, p: ProtoPc) returns (s': Session)
    requires At(s, Stop(false, StopLock), false, p)
    ensures At(s', Ask(false, AskWant), true, p) && Reaches(s, s')
  {
    var s1 := MainTakes(s, Stop(false, StopLock), false, p, State(MAIN), Stop(false, StopMark));
    var s2 := MainMarked(s1, p);
    var s3 := MainCounted(s2, p);
    var s4 := MainIdles(s3, Stop(false, StopFlag), true, p, Tau, Stop(false, StopRelease));
    s' := MainGives(s4, Stop(false, StopRelease), true, p, State(MAIN), Ask(false, AskWant));
    Chain3(s, s1, s2, s3);
    ReachesNext(s, s3, s4);
    ReachesNext(s, s4, s');
  }

  /** The visit finds it paused. */
  lemma Finds(s: Session) returns (s': Session, s'': Session)
    requires At(s, Ask(false, AskWant), true, Pick(ContinueAll, {MAIN}))
    ensures Taken(s', Ask(false, AskWant), true, Visit(ContinueAll, {}, MAIN, Hold), State(MAIN), Proto)
    ensures Reaches(s, s') && Next(s', s'') && s'' == s'.(proto := Visit(ContinueAll, {}, MAIN, Deduct))
  {
    s' := ProtoTakes(s, Ask(false, AskWant), true, State(MAIN), Visit(ContinueAll, {}, MAIN, Hold));
    ReachesSelf(s);
    ReachesNext(s, s, s');
    s'' := ProtoIdles(s', SeePaused(MAIN, true), Visit(ContinueAll, {}, MAIN, Deduct));
  }

  lemma StartsUp(s: Session) returns (s': Session)
    requires Init(s)
    ensures At(s', Run, false, Idle) && Reaches(s, s')
  {
    var s1 := Configures(s);
    var s2 := Replies(s1, Cfg(CfgEnter));
    s' := MainStarts(s2);
    ReachesTrans(s, s1, s2);
    ReachesTrans(s, s2, s');
  }

  lemma MeetsTheRace(s: Session) returns (s': Session, s'': Session)
    requires At(s, Run, false, Idle)
    ensures Reaches(s, s') && Next(s', s'') && s'' == s'.(proto := Visit(ContinueAll, {}, MAIN, Deduct))
    ensures Taken(s', Ask(false, AskWant), true, Visit(ContinueAll, {}, MAIN, Hold), State(MAIN), Proto)
  {
    var s1 := Announces(s);
    var s2 := TakesSnapshot(s1);
    var s3 := MainLooksUp(s2, Pick(ContinueAll, {MAIN}));
    var s4 := MainMarks(s3, Pick(ContinueAll, {MAIN}));
    s', s'' := Finds(s4);
    ReachesTrans(s, s1, s2);
    ReachesTrans(s, s2, s3);
    ReachesTrans(s, s3, s4);
    ReachesTrans(s, s4, s');
  }

  lemma Initially() returns (s: Session)
    ensures Init(s) && IsRun([s])
  {
    s := Session(map[MAIN := Thread(Cfg(CfgEnter), false, false)], Idle, {MAIN}, 0, false, false, map[], 1, [], false);
  }

  /** A continue-all does run into a race. */
  lemma ContinueAllRaces() returns (run: seq<Session>, i: nat, u: Tid)
    ensures IsRun(run) && i < |run| - 1 && Race(run, i, u)
  {
    var s := Initially();
    var started := StartsUp(s);
    var held, found := MeetsTheRace(started);
    ReachesTrans(s, started, held);
    var before := GoOn([s], held);
    run := before + [found];
    ExtendByOne(before, found);
    i, u := RaceAtEnd(before, found);
  }

  lemma ExtendByOne(run: seq<Session>, s: Session)
    requires IsRun(run) && Next(run[|run| - 1], s)
    ensures IsRun(run + [s])
  {
    var longer := run + [s];
    forall i | 0 <= i < |longer| - 1
      ensures StepAt(longer, i)
    {
      if i < |run| - 1 {
        assert StepAt(run, i);
      }
    }
  }

  /** Marked but silent at the visit, the thread was not open at the announcement. */
  lemma RaceAtEnd(before: seq<Session>, found: Session) returns (i: nat, u: Tid)
    requires IsRun(before) && IsRun(before + [found])
    requires var s := before[|before| - 1];
             && Taken(s, Ask(false, AskWant), true, Visit(ContinueAll, {}, MAIN, Hold), State(MAIN), Proto)
             && found == s.(proto := Visit(ContinueAll, {}, MAIN, Deduct))
    ensures i < |before| && Race(before + [found], i, u)
  {
    var run, n := before + [found], |before| - 1;
    assert run[..n + 1] == before;
    if RaceFree(before) {
      i, u := n, MAIN;
      WireInvRun(before, n);
      AnnouncingPrefix(run, n + 1, n);
      assert Awaiting(before[n].proto, MAIN) && !AwaitOk(before[n], MAIN);
    } else {
      i, u :| 0 <= i < |before| - 1 && Race(before, i, u);
      PrefixRace(run, n + 1, i, u);
    }
  }

  /** So the order can be broken: a run with two stopped events of one thread and no
      continued event covering it between them. */
  lemma ContinueAllBreaksOrder() returns (run: seq<Session>, t: Tid, i: nat, j: nat)
    ensures IsRun(run)
    ensures var log := run[|run| - 1].log;
            && i < j < |log| && log[i].msg == Stopped(t) && log[j].msg == Stopped(t)
            && forall k | i < k < j :: !Covers(log[k].msg, t)
  {
    var racing, m, u := ContinueAllRaces();
    PrefixRun(racing, 1);
    run := RacingBreaks(racing[..1], racing, m, u);
    t, i, j := BreachOf(run[|run| - 1].log);
  }

  lemma BreachOf(log: seq<Record>) returns (t: Tid, i: nat, j: nat)
    requires !Alternates(log)
    ensures i < j < |log| && log[i].msg == Stopped(t) && log[j].msg == Stopped(t)
    ensures forall k | i < k < j :: !Covers(log[k].msg, t)
  {
    t, i, j :| 0 <= i < j < |log| && log[i].msg == Stopped(t) && log[j].msg == Stopped(t) && !Between(log, t, i, j);
  }
}
