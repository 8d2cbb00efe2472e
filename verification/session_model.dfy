/**
 The debug session as a small-step transition system: any number of execution
 threads (the main thread and spawned tasks) and one protocol thread share the
 thread registry, one state per thread, a lock-free pause counter, condition
 variables, a monotone stop flag and the outgoing message stream.

 Every lock, unlock, field write, counter update, test, sleep, notify and
 message write is one step, interleaved under sequential consistency.  The
 control flow of each routine is a relation between program counters (`Edge`,
 `ProtoEdge`); what a step does to the shared state is `Effect`.
 */
module SessionModel {
  type Tid = nat

  const MAIN: Tid := 1

  datatype Actor = Proto | Exec(tid: Tid)

  /** The session locks: the registry lock, one lock per thread state, the
      configuration lock, the exception lock, and the lock that serialises sends. */
  datatype Mutex = Registry | State(tid: Tid) | Config | Fault | Wire

  datatype Message = Stopped(tid: Tid) | Continued(tid: Tid) | ContinuedAll | Other

  datatype Record = Record(seqNo: int, msg: Message)

  // ----- where an execution thread is, routine by routine -----

  /** Sending one message: lock, take a sequence number, write, unlock. */
  datatype Sending = Want | Numbering | Writing(n: int) | Written

  /** Waiting for the configuration. */
  datatype CfgPc = CfgEnter | CfgTest | CfgCommit | CfgAsleep | CfgTested | CfgLeave(go: bool)

  /** Registering a task. */
  datatype AddPc = AddEnter | AddInsert | AddLeave

  /** A debug hook: registry lookup, then short sections under the own state
      lock; or recording an exception under the exception lock. */
  datatype HookPc = HookWant | HookLook | HookFound(known: bool) | HookLock | HookHold
                  | FaultEnter(fatal: bool) | FaultRecord(fatal: bool) | FatalTest

  /** Stopping: lookup, mark paused, count, flag. */
  datatype StopPc = StopWant | StopLook | StopFound(known: bool)
                  | StopLock | StopMark | StopCount | StopFlag | StopRelease

  /** Asking whether all threads are stopped. */
  datatype AskPc = AskWant | AskRead | AskLeave(all: bool)

  /** Waiting for the resume. */
  datatype WaitPc = WaitLock | WaitTest | WaitCommit | Asleep | WaitLeave

  /** Unregistering a task. */
  datatype ExitPc = ExitWant | ExitLook | ExitLock | ExitTest | ExitDec
                  | ExitRelease(deducted: bool) | ExitErase(deducted: bool) | ExitLeave

  /** The flag `fatal` tells the unhandled-exception stop of the main thread
      from an ordinary stop. */
  datatype Pc =
    | Cfg(c: CfgPc)
    | Add(a: AddPc)
    | Run
    | Hook(h: HookPc)
    | Stop(fatal: bool, k: StopPc)
    | Ask(fatal: bool, q: AskPc)
    | Event(fatal: bool, e: Sending)
    | Wait(fatal: bool, w: WaitPc)
    | Talk(o: Sending)  // any other message
    | Exit(x: ExitPc)
    | Done

  // ----- where the protocol thread is -----

  /** A client request as the protocol thread serves it.  `Touch` stands for the
      requests that only hold the state lock for a while (pause, stackTrace,
      evaluate, exceptionInfo); `Reply` is the response that ends every request. */
  datatype Req = Continue(tid: Tid) | ContinueAll | Step(tid: Tid) | Touch(tid: Tid) | TouchAll | Reply

  /** Looking something up in the registry. */
  datatype LookPc = LookWant | Look | LookDone(found: set<Tid>)

  /** Working on one thread state. */
  datatype VisitPc = Hold | Deduct | Unpause(deducted: bool) | Unpaused
                   | NotifyHeld | Release | ReleaseOwing | Owe

  datatype SignalPc = ConfigWant | ConfigSet | ConfigNotify | ConfigRelease

  datatype ForcePc = ForceHold | ForceClear | ForceDec | ForceNotify | ForceRelease

  datatype ProtoPc =
    | Idle
    | Check(r: Req, l: LookPc)                          // is the thread known?
    | Send(r: Req, e: Sending)                          // the continued event or the response
    | Forget(r: Req, todo: set<Tid>, locked: bool)      // clear the last exception
    | Get(r: Req, l: LookPc)                            // fetch the thread or a snapshot
    | Pick(r: Req, todo: set<Tid>)                      // choose the next thread
    | Visit(r: Req, todo: set<Tid>, u: Tid, v: VisitPc) // work on thread u
    | Signal(term: bool, g: SignalPc)                   // configurationDone, also inside terminate
    | StopRequest                                       // terminate: stop request,
    | ForceEnter(l: LookPc)                             //   forced unpause of every thread
    | ForcePick(todo: set<Tid>)
    | Force(todo: set<Tid>, u: Tid, f: ForcePc)
    | JoinMain                                          //   joins
    | ScanEnter(nulling: bool, l: LookPc)               // null every VM pointer, or signal every VM
    | ScanPick(nulling: bool, todo: set<Tid>)
    | Scan(nulling: bool, todo: set<Tid>, u: Tid)
    | Destroy

  datatype Thread = Thread(pc: Pc, paused: bool, faulted: bool)

  datatype Session = Session(
    threads: map<Tid, Thread>,
    proto: ProtoPc,
    registry: set<Tid>,
    count: int,
    stop: bool,
    configured: bool,
    owner: map<Mutex, Actor>,
    nextSeq: int,
    log: seq<Record>,
    broken: bool)

  /** What one step reads or does. */
  datatype Op =
    | Tau
    | Lock(m: Mutex) | Unlock(m: Mutex) | Sleep(m: Mutex)
    | Insert(t: Tid) | Erase(t: Tid)
    | Mark(t: Tid) | Clear(t: Tid) | Flag(t: Tid) | Inc | Dec
    | SeeStop(b: bool) | SeeConfig(b: bool) | SeeMember(t: Tid, b: bool) | SeePaused(t: Tid, b: bool)
    | SeeGate(t: Tid, b: bool) | SeeFaulted(t: Tid, b: bool) | SeeRegistry(ts: set<Tid>) | SeeAllStopped(b: bool)
    | SeeDone(t: Tid) | SeeAllDone
    | Number(n: int) | Write(n: int, msg: Message) | Lose
    | Notify(t: Tid) | NotifyConfig | RequestStop | SetConfig

  // ----- control flow of an execution thread -----

  predicate SendEdge(e: Sending, msg: Message, op: Op, e': Sending) {
    match e
    case Want => op == Lock(Wire) && e' == Numbering
    case Numbering => op.Number? && e' == Writing(op.n)
    case Writing(n) => (op == Write(n, msg) || op == Lose) && e' == Written
    case Written => false
  }

  predicate CfgEdge(c: CfgPc, op: Op, pc': Pc) {
    match c
    case CfgEnter => op == Lock(Config) && pc' == Cfg(CfgTest)
    case CfgTest => op.SeeConfig? && pc' == Cfg(if op.b then CfgTested else CfgCommit)
    case CfgCommit => op == Sleep(Config) && pc' == Cfg(CfgAsleep)
    case CfgAsleep => op == Tau && pc' == Cfg(CfgEnter)  // spurious wake-up
    case CfgTested => op.SeeStop? && pc' == Cfg(CfgLeave(!op.b))
    case CfgLeave(go) => op == Unlock(Config) && pc' == if go then Run else Done
  }

  predicate AddEdge(t: Tid, a: AddPc, op: Op, pc': Pc) {
    match a
    case AddEnter => (op == Lock(Registry) && pc' == Add(AddInsert)) || (op == Tau && pc' == Exit(ExitWant))
    case AddInsert => op == Insert(t) && pc' == Add(AddLeave)
    case AddLeave => op == Unlock(Registry) && pc' == Run
  }

  predicate RunEdge(t: Tid, op: Op, pc': Pc) {
    || (op == SeeStop(false) && (pc' == Hook(HookWant) || pc' == Stop(false, StopWant)))
    || (op == Tau && (pc' == Hook(HookLock) || pc' == Hook(FaultEnter(false)) || pc' == Talk(Want)))
    || (op == Tau && t == MAIN && (pc' == Hook(FaultEnter(true)) || pc' == Done))
    || (op == Tau && t != MAIN && pc' == Exit(ExitWant))
  }

  predicate HookEdge(t: Tid, h: HookPc, op: Op, pc': Pc) {
    match h
    case HookWant => op == Lock(Registry) && pc' == Hook(HookLook)
    case HookLook => op.SeeMember? && op.t == t && pc' == Hook(HookFound(op.b))
    case HookFound(known) => op == Unlock(Registry) && pc' == if known then Hook(HookLock) else Run
    case HookLock => op == Lock(State(t)) && pc' == Hook(HookHold)
    case HookHold => op == Unlock(State(t)) && (pc' == Hook(HookLock) || pc' == Run)
    case FaultEnter(fatal) => op == Lock(Fault) && pc' == Hook(FaultRecord(fatal))
    case FaultRecord(fatal) => op == Unlock(Fault) && pc' == Hook(if fatal then FatalTest else HookWant)
    case FatalTest =>
      || ((op == SeeStop(true) || op == Tau) && pc' == Done)
      || (op == SeeStop(false) && pc' == Stop(true, StopLock))
  }

  predicate StopEdge(t: Tid, f: bool, k: StopPc, op: Op, pc': Pc) {
    match k
    case StopWant => op == Lock(Registry) && pc' == Stop(f, StopLook)
    case StopLook => op.SeeMember? && op.t == t && pc' == Stop(f, StopFound(op.b))
    case StopFound(known) => op == Unlock(Registry) && pc' == if known then Stop(f, StopLock) else Run
    case StopLock => op == Lock(State(t)) && pc' == Stop(f, StopMark)
    case StopMark => op == Mark(t) && pc' == Stop(f, StopCount)
    case StopCount => op == Inc && pc' == Stop(f, StopFlag)
    case StopFlag => op == (if f then Flag(t) else Tau) && pc' == Stop(f, StopRelease)
    case StopRelease => op == Unlock(State(t)) && pc' == Ask(f, AskWant)
  }

  predicate AskEdge(f: bool, q: AskPc, op: Op, pc': Pc) {
    match q
    case AskWant => op == Lock(Registry) && pc' == Ask(f, AskRead)
    case AskRead => op.SeeAllStopped? && pc' == Ask(f, AskLeave(op.b))
    case AskLeave(_) => op == Unlock(Registry) && pc' == Event(f, Want)
  }

  predicate EventEdge(t: Tid, f: bool, e: Sending, op: Op, pc': Pc) {
    if e == Written then op == Unlock(Wire) && pc' == Wait(f, WaitLock)
    else pc'.Event? && pc'.fatal == f && SendEdge(e, Stopped(t), op, pc'.e)
  }

  predicate WaitEdge(t: Tid, f: bool, w: WaitPc, op: Op, pc': Pc) {
    match w
    case WaitLock => op == Lock(State(t)) && pc' == Wait(f, WaitTest)
    case WaitTest => op.SeeGate? && op.t == t && pc' == Wait(f, if op.b then WaitCommit else WaitLeave)
    case WaitCommit => op == Sleep(State(t)) && pc' == Wait(f, Asleep)
    case Asleep => op == Tau && pc' == Wait(f, WaitLock)  // spurious wake-up
    case WaitLeave => op == Unlock(State(t)) && pc' == if f then Done else Run
  }

  predicate TalkEdge(o: Sending, op: Op, pc': Pc) {
    if o == Written then op == Unlock(Wire) && pc' == Run
    else pc'.Talk? && SendEdge(o, Other, op, pc'.o)
  }

  predicate ExitEdge(t: Tid, x: ExitPc, op: Op, pc': Pc) {
    match x
    case ExitWant => op == Lock(Registry) && pc' == Exit(ExitLook)
    case ExitLook => op.SeeMember? && op.t == t && pc' == Exit(if op.b then ExitLock else ExitLeave)
    case ExitLock => op == Lock(State(t)) && pc' == Exit(ExitTest)
    case ExitTest => op.SeePaused? && op.t == t && pc' == Exit(if op.b then ExitDec else ExitRelease(false))
    case ExitDec => op == Dec && pc' == Exit(ExitRelease(true))
    case ExitRelease(d) => op == Unlock(State(t)) && pc' == Exit(ExitErase(d))
    case ExitErase(_) => op == Erase(t) && pc' == Exit(ExitLeave)
    case ExitLeave => op == Unlock(Registry) && pc' == Done
  }

  predicate Edge(t: Tid, pc: Pc, op: Op, pc': Pc) {
    match pc
    case Cfg(c) => CfgEdge(c, op, pc')
    case Add(a) => AddEdge(t, a, op, pc')
    case Run => RunEdge(t, op, pc')
    case Hook(h) => HookEdge(t, h, op, pc')
    case Stop(f, k) => StopEdge(t, f, k, op, pc')
    case Ask(f, q) => AskEdge(f, q, op, pc')
    case Event(f, e) => EventEdge(t, f, e, op, pc')
    case Wait(f, w) => WaitEdge(t, f, w, op, pc')
    case Talk(o) => TalkEdge(o, op, pc')
    case Exit(x) => ExitEdge(t, x, op, pc')
    case Done => false
  }

  // ----- control flow of the protocol thread -----

  predicate Resumes(r: Req) {
    r.Continue? || r.ContinueAll? || r.Step?
  }

  predicate Targeted(r: Req) {
    r.Continue? || r.Step? || r.Touch?
  }

  function Announcement(r: Req): Message {
    match r
    case Continue(t) => Continued(t)
    case Step(t) => Continued(t)
    case ContinueAll => ContinuedAll
    case _ => Other
  }

  predicate StartEdge(p': ProtoPc) {
    match p'
    case Check(r, l) => (r.Continue? || r.Step?) && l == LookWant
    case Send(r, e) => r.ContinueAll? && e == Want
    case Get(r, l) => (r.Touch? || r.TouchAll?) && l == LookWant
    case Signal(term, g) => !term && g == ConfigWant
    case StopRequest => true
    case ScanEnter(nulling, l) => !nulling && l == LookWant
    case _ => false
  }

  /** A lookup of the request's thread, or of the whole registry. */
  predicate LookEdge(target: Req, l: LookPc, op: Op, l': LookPc) {
    match l
    case LookWant => op == Lock(Registry) && l' == Look
    case Look =>
      if Targeted(target) then op.SeeMember? && op.t == target.tid && l' == LookDone(if op.b then {target.tid} else {})
      else op.SeeRegistry? && l' == LookDone(op.ts)
    case LookDone(_) => false
  }

  predicate CheckEdge(r: Req, l: LookPc, op: Op, p': ProtoPc) {
    if l.LookDone? then op == Unlock(Registry) && p' == Send(if l.found == {} then Reply else r, Want)
    else p'.Check? && p'.r == r && LookEdge(r, l, op, p'.l)
  }

  predicate ProtoSendEdge(r: Req, e: Sending, op: Op, p': ProtoPc) {
    if e != Written then p'.Send? && p'.r == r && SendEdge(e, Announcement(r), op, p'.e)
    else
      && op == Unlock(Wire)
      && p' == if r.Step? then Get(r, LookWant) else if r.Reply? then Idle else Forget(r, {}, false)
  }

  predicate ForgetEdge(r: Req, todo: set<Tid>, locked: bool, op: Op, p': ProtoPc) {
    if !locked then op == Lock(Fault) && p' == Forget(r, todo, true)
    else op == Unlock(Fault) && p' == if r.Step? then Pick(r, todo) else Get(r, LookWant)
  }

  predicate GetEdge(r: Req, l: LookPc, op: Op, p': ProtoPc) {
    if l.LookDone? then
      && op == Unlock(Registry)
      && p' == if !r.Step? then Pick(r, l.found)
               else if l.found == {} then Send(Reply, Want)
               else Forget(r, l.found, false)
    else p'.Get? && p'.r == r && LookEdge(r, l, op, p'.l)
  }

  predicate PickEdge(r: Req, todo: set<Tid>, op: Op, p': ProtoPc) {
    || (todo == {} && op == Tau && p' == Send(Reply, Want))
    || (op.Lock? && op.m.State? && op.m.tid in todo && p' == Visit(r, todo - {op.m.tid}, op.m.tid, Hold))
  }

  predicate VisitEdge(r: Req, todo: set<Tid>, u: Tid, v: VisitPc, op: Op, p': ProtoPc) {
    match v
    case Hold =>
      if !Resumes(r) then op == Unlock(State(u)) && p' == Pick(r, todo)
      else
        && op.SeePaused? && op.t == u
        && p' == Visit(r, todo, u, if op.b then Deduct else if r.Step? then Release else Unpause(false))
    case Deduct => op == Dec && p' == Visit(r, todo, u, Unpause(true))
    case Unpause(_) => op == Clear(u) && p' == Visit(r, todo, u, Unpaused)
    case Unpaused =>
      if r.Step? then op == Tau && p' == Visit(r, todo, u, ReleaseOwing)
      else op.SeeFaulted? && op.t == u && p' == Visit(r, todo, u, if op.b then NotifyHeld else ReleaseOwing)
    case NotifyHeld => op == Notify(u) && p' == Visit(r, todo, u, Release)
    case Release => op == Unlock(State(u)) && p' == Pick(r, todo)
    case ReleaseOwing => op == Unlock(State(u)) && p' == Visit(r, todo, u, Owe)
    case Owe => op == Notify(u) && p' == Pick(r, todo)
  }

  predicate SignalEdge(term: bool, g: SignalPc, op: Op, p': ProtoPc) {
    match g
    case ConfigWant => op == Lock(Config) && p' == Signal(term, ConfigSet)
    case ConfigSet => op == SetConfig && p' == Signal(term, ConfigNotify)
    case ConfigNotify => op == NotifyConfig && p' == Signal(term, ConfigRelease)
    case ConfigRelease => op == Unlock(Config) && p' == if term then ForceEnter(LookWant) else Send(Reply, Want)
  }

  predicate ForceEdge(todo: set<Tid>, u: Tid, f: ForcePc, op: Op, p': ProtoPc) {
    match f
    case ForceHold => op.SeePaused? && op.t == u && p' == Force(todo, u, if op.b then ForceClear else ForceNotify)
    case ForceClear => op == Clear(u) && p' == Force(todo, u, ForceDec)
    case ForceDec => op == Dec && p' == Force(todo, u, ForceNotify)
    case ForceNotify => op == Notify(u) && p' == Force(todo, u, ForceRelease)
    case ForceRelease => op == Unlock(State(u)) && p' == ForcePick(todo)
  }

  predicate TerminateEdge(p: ProtoPc, op: Op, p': ProtoPc) {
    match p
    case StopRequest => op == RequestStop && p' == Signal(true, ConfigWant)
    case ForceEnter(l) =>
      if l.LookDone? then op == Tau && p' == ForcePick(l.found)
      else p'.ForceEnter? && LookEdge(TouchAll, l, op, p'.l)
    case ForcePick(todo) =>
      || (todo == {} && op == Unlock(Registry) && p' == JoinMain)
      || (op.Lock? && op.m.State? && op.m.tid in todo && p' == Force(todo - {op.m.tid}, op.m.tid, ForceHold))
    case JoinMain => op == SeeDone(MAIN) && p' == ScanEnter(true, LookWant)
    case Destroy => op == SeeAllDone && p' == Send(Reply, Want)
    case _ => false
  }

  predicate ScanEdge(p: ProtoPc, op: Op, p': ProtoPc) {
    match p
    case ScanEnter(nulling, l) =>
      if l.LookDone? then op == Tau && p' == ScanPick(nulling, l.found)
      else p'.ScanEnter? && p'.nulling == nulling && LookEdge(TouchAll, l, op, p'.l)
    case ScanPick(nulling, todo) =>
      || (todo == {} && op == Unlock(Registry) && p' == if nulling then Destroy else Send(Reply, Want))
      || (op.Lock? && op.m.State? && op.m.tid in todo && p' == Scan(nulling, todo - {op.m.tid}, op.m.tid))
    case Scan(nulling, todo, u) => op == Unlock(State(u)) && p' == ScanPick(nulling, todo)
    case _ => false
  }

  predicate ProtoEdge(p: ProtoPc, op: Op, p': ProtoPc) {
    match p
    case Idle => op == Tau && StartEdge(p')
    case Check(r, l) => CheckEdge(r, l, op, p')
    case Send(r, e) => ProtoSendEdge(r, e, op, p')
    case Forget(r, todo, locked) => ForgetEdge(r, todo, locked, op, p')
    case Get(r, l) => GetEdge(r, l, op, p')
    case Pick(r, todo) => PickEdge(r, todo, op, p')
    case Visit(r, todo, u, v) => VisitEdge(r, todo, u, v, op, p')
    case Signal(term, g) => SignalEdge(term, g, op, p')
    case Force(todo, u, f) => ForceEdge(todo, u, f, op, p')
    case ScanEnter(_, _) | ScanPick(_, _) | Scan(_, _, _) => ScanEdge(p, op, p')
    case _ => TerminateEdge(p, op, p')
  }

  // ----- what a step does -----

  predicate AllDone(s: Session) {
    forall t | t in s.threads :: s.threads[t].pc == Done
  }

  /** Whether operation `op` can be executed by actor `a`; a test is enabled
      with exactly the outcome that the current state gives. */
  predicate Enabled(s: Session, a: Actor, op: Op) {
    match op
    case Lock(m) => m !in s.owner
    case Unlock(m) => m in s.owner && s.owner[m] == a
    case Sleep(m) => m in s.owner && s.owner[m] == a
    case Mark(t) => t in s.threads
    case Clear(t) => t in s.threads
    case Flag(t) => t in s.threads
    case SeeStop(b) => b == s.stop
    case SeeConfig(b) => b == (s.configured || s.stop)
    case SeeMember(t, b) => b == (t in s.registry)
    case SeePaused(t, b) => t in s.threads && b == s.threads[t].paused
    case SeeGate(t, b) => t in s.threads && b == (s.threads[t].paused && !s.stop)
    case SeeFaulted(t, b) => t in s.threads && b == s.threads[t].faulted
    case SeeRegistry(ts) => ts == s.registry
    case SeeAllStopped(b) => b == (s.count >= |s.registry|)
    case SeeDone(t) => t in s.threads && s.threads[t].pc == Done
    case SeeAllDone => AllDone(s)
    case Number(n) => n == s.nextSeq
    case Write(_, _) => !s.broken
    case _ => true
  }

  function Awakened(th: Thread): Thread {
    if th.pc.Wait? && th.pc.w == Asleep then th.(pc := Wait(th.pc.fatal, WaitLock)) else th
  }

  function AwakenedConfig(th: Thread): Thread {
    if th.pc == Cfg(CfgAsleep) then th.(pc := Cfg(CfgEnter)) else th
  }

  function Effect(s: Session, a: Actor, op: Op): Session
    requires Enabled(s, a, op)
  {
    match op
    case Lock(m) => s.(owner := s.owner[m := a])
    case Unlock(m) => s.(owner := s.owner - {m})
    case Sleep(m) => s.(owner := s.owner - {m})
    case Insert(t) => s.(registry := s.registry + {t})
    case Erase(t) => s.(registry := s.registry - {t})
    case Mark(t) => s.(threads := s.threads[t := s.threads[t].(paused := true)])
    case Clear(t) => s.(threads := s.threads[t := s.threads[t].(paused := false)])
    case Flag(t) => s.(threads := s.threads[t := s.threads[t].(faulted := true)])
    case Inc => s.(count := s.count + 1)
    case Dec => s.(count := s.count - 1)
    case Number(_) => s.(nextSeq := s.nextSeq + 1)
    case Write(n, msg) => s.(log := s.log + [Record(n, msg)])
    case Lose => s.(broken := true)
    case Notify(t) => if t in s.threads then s.(threads := s.threads[t := Awakened(s.threads[t])]) else s
    case NotifyConfig => s.(threads := map t | t in s.threads :: AwakenedConfig(s.threads[t]))
    case RequestStop => s.(stop := true)
    case SetConfig => s.(configured := true)
    case _ => s
  }

  function SetPc(s: Session, t: Tid, pc: Pc): Session
    requires t in s.threads
  {
    s.(threads := s.threads[t := s.threads[t].(pc := pc)])
  }

  // ----- steps and runs -----

  ghost predicate ExecStep(s: Session, t: Tid, op: Op, pc': Pc, s': Session) {
    && t in s.threads
    && Edge(t, s.threads[t].pc, op, pc')
    && Enabled(s, Exec(t), op)
    && t in Effect(s, Exec(t), op).threads
    && s' == SetPc(Effect(s, Exec(t), op), t, pc')
  }

  ghost predicate ProtoStep(s: Session, op: Op, p': ProtoPc, s': Session) {
    && ProtoEdge(s.proto, op, p')
    && Enabled(s, Proto, op)
    && s' == Effect(s, Proto, op).(proto := p')
  }

  /** A running program spawns a task; it registers itself later. */
  ghost predicate SpawnStep(s: Session, parent: Tid, t: Tid, s': Session) {
    && parent in s.threads && s.threads[parent].pc == Run
    && t !in s.threads && t != MAIN
    && s' == s.(threads := s.threads[t := Thread(Add(AddEnter), false, false)])
  }

  ghost predicate Next(s: Session, s': Session) {
    || (exists t, op, pc' :: ExecStep(s, t, op, pc', s'))
    || (exists op, p' :: ProtoStep(s, op, p', s'))
    || (exists parent, t :: SpawnStep(s, parent, t, s'))
  }

  ghost predicate Init(s: Session) {
    s == Session(map[MAIN := Thread(Cfg(CfgEnter), false, false)], Idle, {MAIN}, 0, false, false, map[], 1, [], false)
  }

  ghost predicate StepAt(run: seq<Session>, i: nat)
    requires i < |run| - 1
  {
    Next(run[i], run[i + 1])
  }

  ghost predicate IsRun(run: seq<Session>) {
    && |run| > 0
    && Init(run[0])
    && forall i | 0 <= i < |run| - 1 :: StepAt(run, i)
  }
}
