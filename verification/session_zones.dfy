/**
 A coarser view of the program counters: the zones of an execution thread that
 matter for the pause counter and for wake-ups, what the protocol thread is
 working on, and the invariant that ties both to the thread states.
 */
module SessionZones {
  import opened SessionModel
  import opened SessionLocks

  datatype Zone =
    | Fresh      // not registered yet
    | Clean      // registered, has not started
    | Free       // executing or in a hook
    | Stopping   // on the way to the pause mark
    | Marked     // marked paused, not counted yet
    | Halted     // counted; sending its event or testing the wait condition
    | Committed  // decided to sleep, still holds its state lock
    | Sleeping
    | Leaving    // decided not to sleep
    | Parting    // about to look itself up for the last time
    | Removing   // found itself
    | Paying     // about to deduct itself
    | Deducted   // deducted itself, still registered
    | Settled    // nothing to deduct, still registered
    | Gone

  function StopZone(k: StopPc): Zone {
    match k
    case StopCount => Marked
    case StopFlag | StopRelease => Halted
    case _ => Stopping
  }

  function WaitZone(w: WaitPc): Zone {
    match w
    case WaitCommit => Committed
    case Asleep => Sleeping
    case WaitLeave => Leaving
    case _ => Halted
  }

  function ExitZone(x: ExitPc): Zone {
    match x
    case ExitWant | ExitLook => Parting
    case ExitLock | ExitTest => Removing
    case ExitDec => Paying
    case ExitRelease(d) => if d then Deducted else Settled
    case ExitErase(d) => if d then Deducted else Settled
    case ExitLeave => Gone
  }

  function ZoneOf(pc: Pc): Zone {
    match pc
    case Cfg(_) => Clean
    case Add(a) => if a == AddLeave then Clean else Fresh
    case Run | Hook(_) | Talk(_) => Free
    case Stop(_, k) => StopZone(k)
    case Ask(_, _) | Event(_, _) => Halted
    case Wait(_, w) => WaitZone(w)
    case Exit(x) => ExitZone(x)
    case Done => Gone
  }

  /** The operation leaves registry, counter and all pause marks alone. */
  predicate Calm(op: Op) {
    !(op.Insert? || op.Erase? || op.Mark? || op.Clear? || op.Inc? || op.Dec?
      || op.Notify? || op.NotifyConfig? || op.RequestStop? || op.SetConfig?)
  }

  /** Everything the control flow of an execution thread does, zone by zone. */
  predicate ZoneEdge(t: Tid, z: Zone, op: Op, z': Zone) {
    match z
    case Fresh => (op == Insert(t) && z' == Clean) || (Calm(op) && (z' == Fresh || z' == Parting))
    case Clean => Calm(op) && (z' == Clean || z' == Free || z' == Gone)
    case Free => Calm(op) && (z' == Free || z' == Gone || z' == Parting || (z' == Stopping && op == SeeStop(false)))
    case Stopping => (op == Mark(t) && z' == Marked) || (Calm(op) && (z' == Stopping || z' == Free))
    case Marked => op == Inc && z' == Halted
    case Halted =>
      && Calm(op)
      && (z' == Halted || (z' == Committed && op == SeeGate(t, true)) || (z' == Leaving && op == SeeGate(t, false)))
    case Committed => op == Sleep(State(t)) && z' == Sleeping
    case Sleeping => op == Tau && z' == Halted
    case Leaving => Calm(op) && (z' == Free || z' == Gone)
    case Parting =>
      && Calm(op)
      && (z' == Parting || (z' == Removing && op == SeeMember(t, true)) || (z' == Gone && op == SeeMember(t, false)))
    case Removing =>
      && Calm(op)
      && (z' == Removing || (z' == Paying && op == SeePaused(t, true)) || (z' == Settled && op == SeePaused(t, false)))
    case Paying => op == Dec && z' == Deducted
    case Deducted => (Calm(op) && z' == Deducted) || (op == Erase(t) && z' == Gone)
    case Settled => (Calm(op) && z' == Settled) || (op == Erase(t) && z' == Gone)
    case Gone => Calm(op) && z' == Gone
  }

  lemma StopZones(t: Tid, f: bool, k: StopPc, op: Op, pc': Pc)
    requires StopEdge(t, f, k, op, pc')
    ensures ZoneEdge(t, StopZone(k), op, ZoneOf(pc'))
  {}

  lemma WaitZones(t: Tid, f: bool, w: WaitPc, op: Op, pc': Pc)
    requires WaitEdge(t, f, w, op, pc')
    ensures ZoneEdge(t, WaitZone(w), op, ZoneOf(pc'))
  {}

  lemma ExitZones(t: Tid, x: ExitPc, op: Op, pc': Pc)
    requires ExitEdge(t, x, op, pc')
    ensures ZoneEdge(t, ExitZone(x), op, ZoneOf(pc'))
  {}

  lemma HookZones(t: Tid, h: HookPc, op: Op, pc': Pc)
    requires HookEdge(t, h, op, pc')
    ensures ZoneEdge(t, Free, op, ZoneOf(pc'))
  {}

  lemma EdgeZones(t: Tid, pc: Pc, op: Op, pc': Pc)
    requires Edge(t, pc, op, pc')
    ensures ZoneEdge(t, ZoneOf(pc), op, ZoneOf(pc'))
  {
    match pc
    case Hook(h) => HookZones(t, h, op, pc');
    case Stop(f, k) => StopZones(t, f, k, op, pc');
    case Wait(f, w) => WaitZones(t, f, w, op, pc');
    case Exit(x) => ExitZones(t, x, op, pc');
    case Ask(f, q) => AskZones(t, f, q, op, pc');
    case Event(f, e) => EventZones(t, f, e, op, pc');
    case _ => OtherZones(t, pc, op, pc');
  }

  lemma AskZones(t: Tid, f: bool, q: AskPc, op: Op, pc': Pc)
    requires AskEdge(f, q, op, pc')
    ensures ZoneEdge(t, Halted, op, ZoneOf(pc'))
  {}

  lemma EventZones(t: Tid, f: bool, e: Sending, op: Op, pc': Pc)
    requires EventEdge(t, f, e, op, pc')
    ensures ZoneEdge(t, Halted, op, ZoneOf(pc'))
  {}

  lemma OtherZones(t: Tid, pc: Pc, op: Op, pc': Pc)
    requires pc.Cfg? || pc.Add? || pc.Run? || pc.Talk?
    requires Edge(t, pc, op, pc')
    ensures ZoneEdge(t, ZoneOf(pc), op, ZoneOf(pc'))
  {}

  /** Changes of the registry, of a pause mark and of the counter happen under
      the locks that guard them. */
  lemma EdgeLocks(t: Tid, pc: Pc, op: Op, pc': Pc)
    requires Edge(t, pc, op, pc')
    ensures op.Insert? || op.Erase? ==> Registry in Held(t, pc)
    ensures op.Mark? || op.Inc? || op.Dec? ==> State(t) in Held(t, pc)
  {}

  predicate Departing(z: Zone) {
    z == Parting || z == Deducted || z == Settled || z == Gone
  }

  /** Only the main thread waits for the configuration or dies of an unhandled
      exception, and it is never added or removed. */
  predicate Role(t: Tid, pc: Pc) {
    if t == MAIN then !pc.Add? && !pc.Exit?
    else
      && !pc.Cfg?
      && !((pc.Stop? || pc.Ask? || pc.Event? || pc.Wait?) && pc.fatal)
      && !(pc.Hook? && ((pc.h.FaultEnter? && pc.h.fatal) || (pc.h.FaultRecord? && pc.h.fatal) || pc.h.FatalTest?))
  }

  lemma EdgeRole(t: Tid, pc: Pc, op: Op, pc': Pc)
    requires Role(t, pc) && Edge(t, pc, op, pc')
    ensures Role(t, pc')
    ensures t != MAIN && ZoneOf(pc') == Gone ==> Departing(ZoneOf(pc))
    ensures t == MAIN ==> !op.Erase?
  {
    match pc
    case Hook(h) => HookRole(t, h, op, pc');
    case Stop(f, k) => StopRole(t, f, k, op, pc');
    case Exit(x) => ExitRole(t, x, op, pc');
    case _ =>
  }

  predicate RoleEdge(t: Tid, pc: Pc, op: Op, pc': Pc) {
    && Role(t, pc')
    && (t != MAIN && ZoneOf(pc') == Gone ==> Departing(ZoneOf(pc)))
    && (t == MAIN ==> !op.Erase?)
  }

  lemma HookRole(t: Tid, h: HookPc, op: Op, pc': Pc)
    requires Role(t, Hook(h)) && HookEdge(t, h, op, pc')
    ensures RoleEdge(t, Hook(h), op, pc')
  {}

  lemma StopRole(t: Tid, f: bool, k: StopPc, op: Op, pc': Pc)
    requires Role(t, Stop(f, k)) && StopEdge(t, f, k, op, pc')
    ensures RoleEdge(t, Stop(f, k), op, pc')
  {}

  lemma ExitRole(t: Tid, x: ExitPc, op: Op, pc': Pc)
    requires Role(t, Exit(x)) && ExitEdge(t, x, op, pc')
    ensures RoleEdge(t, Exit(x), op, pc')
  {}
}
