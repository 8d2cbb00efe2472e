/**
 The line hook of one debugged thread: what its per-depth line table remembers of
 the hook history, and when a stop may be reported as a completed step.
 */
module LineHook {
  import opened Options

  datatype Loc = Loc(file: int, line: int)

  /** The filler for depths no hook has been seen at. */
  const NOWHERE := Loc(-1, -1)

  datatype Hook = Hook(depth: nat, loc: Loc)

  datatype Mode = NoStep | Into | Over | Out

  datatype Step = Step(mode: Mode, depth: nat, loc: Loc)

  datatype Pending = Pending(exception: string, caught: bool, entry: bool, pause: bool, hit: int)

  /** The exception a client may ask about. */
  datatype Shown = Shown(message: string, caught: bool)

  datatype Reason = ByException | ByEntry | ByPause | ByBreakpoint | ByStep

  /** What the stopped event says: the reason, the exception text and the breakpoint hit. */
  datatype StopInfo = StopInfo(reason: Reason, text: string, hit: int)

  // ----- the line table against the hook history -----

  /** Hook `i` is the latest at its depth and no shallower one has followed; hooks
      outside any frame (depth 0) do not count. */
  predicate Current(history: seq<Hook>, depth: nat, i: nat) {
    && i < |history| && history[i].depth == depth
    && forall j | i < j < |history| :: history[j].depth > depth || history[j].depth == 0
  }

  /** The line the frame at `depth` is on, as far as the history tells. */
  predicate OnLine(history: seq<Hook>, depth: nat, loc: Loc) {
    exists i | 0 <= i < |history| :: Current(history, depth, i) && history[i].loc == loc
  }

  predicate Unseen(history: seq<Hook>, depth: nat) {
    forall i | 0 <= i < |history| :: !Current(history, depth, i)
  }

  function LastDepth(history: seq<Hook>): nat {
    if history == [] then 0 else history[|history| - 1].depth
  }

  /** The depth of the latest hook inside a frame. */
  function Frames(history: seq<Hook>): nat {
    if history == [] then 0
    else if LastDepth(history) > 0 then LastDepth(history)
    else Frames(history[..|history| - 1])
  }

  /** The table holds, for every frame, its line or the filler. */
  predicate Summarises(lines: seq<Loc>, history: seq<Hook>) {
    && |lines| == Frames(history)
    && forall d | 1 <= d <= |lines| ::
         OnLine(history, d, lines[d - 1]) || (Unseen(history, d) && lines[d - 1] == NOWHERE)
  }

  lemma CurrentUnique(history: seq<Hook>, depth: nat, i: nat, j: nat)
    requires Current(history, depth, i) && Current(history, depth, j) && depth > 0
    ensures i == j
  {}

  lemma CurrentAfter(history: seq<Hook>, h: Hook, depth: nat, i: nat)
    requires depth > 0
    ensures Current(history + [h], depth, i) <==>
            (i == |history| && h.depth == depth) || (Current(history, depth, i) && (h.depth > depth || h.depth == 0))
  {
    var after := history + [h];
    assert i < |history| ==> after[i] == history[i];
    if Current(after, depth, i) && i < |history| {
      assert after[|history|] == h;
      assert forall j | i < j < |history| :: after[j] == history[j];
    }
  }

  lemma OnLineAfter(history: seq<Hook>, h: Hook, depth: nat, loc: Loc)
    requires depth > 0
    ensures OnLine(history + [h], depth, loc) <==>
            if h.depth == depth then loc == h.loc else (h.depth > depth || h.depth == 0) && OnLine(history, depth, loc)
    ensures Unseen(history + [h], depth) <==> h.depth != depth && (0 < h.depth < depth || Unseen(history, depth))
  {
    var after := history + [h];
    assert after[|history|] == h;
    CurrentAfter(history, h, depth, |history|);
    if i :| 0 <= i < |history| && Current(history, depth, i) && history[i].loc == loc {
      assert after[i].loc == loc;
      CurrentAfter(history, h, depth, i);
    }
    if i :| 0 <= i < |after| && Current(after, depth, i) && after[i].loc == loc {
      assert i < |history| ==> history[i] == after[i];
      CurrentAfter(history, h, depth, i);
    }
    if i :| 0 <= i < |history| && Current(history, depth, i) {
      CurrentAfter(history, h, depth, i);
    }
    if i :| 0 <= i < |after| && Current(after, depth, i) {
      CurrentAfter(history, h, depth, i);
    }
  }

  /** No frame deeper than the table has been seen since it was cut. */
  lemma {:induction false} DeeperUnseen(history: seq<Hook>, depth: nat)
    requires depth > Frames(history)
    ensures Unseen(history, depth)
  {
    if history != [] {
      var before, h := history[..|history| - 1], history[|history| - 1];
      assert history == before + [h];
      OnLineAfter(before, h, depth, NOWHERE);
      if h.depth == 0 {
        DeeperUnseen(before, depth);
      }
    }
  }

  function Resized(lines: seq<Loc>, n: nat): (r: seq<Loc>)
    ensures |r| == n && forall i | 0 <= i < n :: r[i] == if i < |lines| then lines[i] else NOWHERE
  {
    seq(n, i requires 0 <= i < n => if i < |lines| then lines[i] else NOWHERE)
  }

  function TableAfter(lines: seq<Loc>, h: Hook): seq<Loc> {
    if h.depth == 0 then lines else Resized(lines, h.depth)[h.depth - 1 := h.loc]
  }

  lemma TableSummarises(lines: seq<Loc>, history: seq<Hook>, h: Hook)
    requires Summarises(lines, history)
    ensures Summarises(TableAfter(lines, h), history + [h])
  {
    var after := TableAfter(lines, h);
    assert (history + [h])[..|history|] == history;
    forall d | 1 <= d <= |after|
      ensures OnLine(history + [h], d, after[d - 1]) || (Unseen(history + [h], d) && after[d - 1] == NOWHERE)
    {
      OnLineAfter(history, h, d, after[d - 1]);
      if d > |lines| {
        DeeperUnseen(history, d);
      }
    }
  }

  /** The table's test for a return to the caller's line. */
  predicate Returned(lines: seq<Loc>, lastDepth: nat, h: Hook) {
    0 < h.depth < lastDepth && h.depth - 1 < |lines| && lines[h.depth - 1] == h.loc
  }

  lemma LineUnique(history: seq<Hook>, depth: nat, a: Loc, b: Loc)
    requires depth > 0 && OnLine(history, depth, a)
    ensures OnLine(history, depth, b) <==> a == b
    ensures !Unseen(history, depth)
  {
    var i :| 0 <= i < |history| && Current(history, depth, i) && history[i].loc == a;
    if j :| 0 <= j < |history| && Current(history, depth, j) && history[j].loc == b {
      CurrentUnique(history, depth, i, j);
    }
  }

  /** The test is exact, but for the filler location, which also matches a frame
      no hook has been seen in. */
  lemma ReturnedExact(lines: seq<Loc>, history: seq<Hook>, h: Hook)
    requires Summarises(lines, history)
    ensures Returned(lines, LastDepth(history), h) <==>
            && 0 < h.depth < LastDepth(history)
            && (OnLine(history, h.depth, h.loc) || (Unseen(history, h.depth) && h.loc == NOWHERE))
  {
    if 0 < h.depth < LastDepth(history) {
      var line := lines[h.depth - 1];
      if OnLine(history, h.depth, line) {
        LineUnique(history, h.depth, line, h.loc);
      } else if OnLine(history, h.depth, h.loc) {
        LineUnique(history, h.depth, h.loc, line);
      }
    }
  }

  /** For every other location the test is exact. */
  lemma ReturnedExactly(lines: seq<Loc>, history: seq<Hook>, h: Hook)
    requires Summarises(lines, history) && h.loc != NOWHERE
    ensures Returned(lines, LastDepth(history), h) <==>
            0 < h.depth < LastDepth(history) && OnLine(history, h.depth, h.loc)
  {
    ReturnedExact(lines, history, h);
  }

  /** A hook at the filler location, which the hook's type admits, would match a
      frame that was never seen. */
  lemma FillerMatches(a: Loc, b: Loc)
    ensures var history := [Hook(1, a), Hook(3, b)];
            var lines := TableAfter(TableAfter([], history[0]), history[1]);
            Summarises(lines, history) && Returned(lines, 3, Hook(2, NOWHERE)) && Unseen(history, 2)
  {
    assert Summarises([], []);
    TableSummarises([], [], Hook(1, a));
    TableSummarises([a], [Hook(1, a)], Hook(3, b));
    assert [] + [Hook(1, a)] == [Hook(1, a)] && [Hook(1, a)] + [Hook(3, b)] == [Hook(1, a), Hook(3, b)];
    assert TableAfter([], Hook(1, a)) == [a];
  }

  // ----- the thread's stop state -----

  datatype Thread = Thread(
    lines: seq<Loc>,
    lastDepth: nat,
    step: Step,
    pending: Pending,
    paused: bool,
    terminated: bool,
    shown: Shown)

  const NOTHING := Shown("", false)

  /** The step mode's criterion: step over stops at the same or a shallower depth on
      another line, step out at a shallower depth, step into anywhere. */
  predicate Complete(step: Step, h: Hook) {
    match step.mode
    case Into => true
    case Over => h.depth <= step.depth && h.loc != step.loc
    case Out => h.depth < step.depth
    case NoStep => false
  }

  function AfterHook(t: Thread, h: Hook): Thread {
    t.(lines := TableAfter(t.lines, h), lastDepth := h.depth)
  }

  function Report(t: Thread): Reason {
    if t.pending.exception != "" then ByException
    else if t.pending.entry then ByEntry
    else if t.pending.pause then ByPause
    else if t.pending.hit != 0 then ByBreakpoint
    else if t.step.mode != NoStep then ByStep
    else ByBreakpoint
  }

  /** The stopped event: exception text only for exceptions, an identifier only for a hit. */
  function InfoOf(t: Thread): StopInfo {
    var reason := Report(t);
    StopInfo(reason, if reason == ByException then t.pending.exception else "",
             if reason == ByBreakpoint then t.pending.hit else 0)
  }

  /** The reported event and any breakpoint hit are consumed; the others stay pending.
      The step ends; its reference moves to where the VM, if any, stands. */
  function AfterReport(t: Thread, at: Option<Hook>): Thread {
    var p := t.pending.(hit := 0);
    var rest :=
      match Report(t)
      case ByException => p.(exception := "")
      case ByEntry => p.(entry := false)
      case ByPause => p.(pause := false)
      case _ => p;
    t.(pending := rest, step := Referred(t.step, at).(mode := NoStep), paused := true)
  }

  function Referred(step: Step, at: Option<Hook>): Step {
    if at.Some? then Step(step.mode, at.value.depth, at.value.loc) else step
  }

  /** Step over records depth and location, step out only the depth, from where the
      VM, if any, stands. */
  function Prepared(step: Step, mode: Mode, at: Option<Hook>): Step {
    if at.None? then step.(mode := mode)
    else
      match mode
      case Over => Step(Over, at.value.depth, at.value.loc)
      case Out => Step(Out, at.value.depth, step.loc)
      case _ => step.(mode := mode)
  }

  class ThreadState {
    var frameLines: seq<Loc>
    var lastHookDepth: nat
    var step: Step
    var pending: Pending
    var isPaused: bool
    var isExceptionTerminated: bool
    var shown: Shown

    ghost function View(): Thread
      reads this
    {
      Thread(frameLines, lastHookDepth, step, pending, isPaused, isExceptionTerminated, shown)
    }

    constructor (stopOnEntry: bool)
      ensures View() == InitialThread(stopOnEntry)
    {
      frameLines, lastHookDepth, isPaused, isExceptionTerminated := [], 0, false, false;
      step := Step(if stopOnEntry then Into else NoStep, 0, Loc(-1, -1));
      pending := Pending("", false, stopOnEntry, false, 0);
      shown := NOTHING;
    }

    method UpdateLineState(h: Hook) returns (returned: bool, complete: bool)
      modifies this
      ensures View() == AfterHook(old(View()), h)
      ensures returned == Returned(old(frameLines), old(lastHookDepth), h)
      ensures complete == Complete(old(step), h)
      ensures old(step.mode) == Into ==> complete
      ensures old(step.mode) == Over ==> complete == (h.depth <= old(step.depth) && h.loc != old(step.loc))
      ensures old(step.mode) == Out ==> complete == (h.depth < old(step.depth))
      ensures old(step.mode) == NoStep ==> !complete
      ensures returned <==> && 0 < h.depth < old(lastHookDepth) && h.depth <= |old(frameLines)|
                            && old(frameLines)[h.depth - 1] == h.loc
    {
      returned := false;
      if h.depth > 0 {
        var slot := h.depth - 1;
        returned := h.depth < lastHookDepth && slot < |frameLines| && frameLines[slot] == h.loc;
        frameLines := Resized(frameLines, h.depth);
        frameLines := frameLines[slot := h.loc];
      }
      lastHookDepth := h.depth;
      complete := Complete(step, h);
    }

    /** The hook: a stop request breaks and an unknown thread runs on, both without
        looking; otherwise `hit` is the breakpoint check's answer for this line, if
        asked. */
    method ShouldBreak(stopRequested: bool, known: bool, h: Hook, hit: Option<int>) returns (r: bool)
      modifies this
      ensures stopRequested || !known ==> r == stopRequested && View() == old(View())
      ensures !stopRequested && known ==>
                r == Breaks(old(View()), h, hit).Some? && View() == AfterBreak(old(View()), h, hit)
      ensures !stopRequested && known && !Complete(old(step), h) ==>
                (r <==> && hit.Some?
                        && !(&& 0 < h.depth < old(lastHookDepth) && h.depth <= |old(frameLines)|
                             && old(frameLines)[h.depth - 1] == h.loc))
      ensures !stopRequested && known && Complete(old(step), h) ==> r
    {
      if stopRequested {
        return true;
      }
      if !known {
        return false;
      }
      var returned, complete := UpdateLineState(h);
      if complete {
        return true;
      }
      if returned {
        return false;
      }
      if hit.Some? {
        pending := pending.(hit := hit.value);
        return true;
      }
      return false;
    }

    /** An exception stops the thread if the filter for its kind is set. */
    method OnException(message: string, caught: bool, breakOnCaught: bool, breakOnUncaught: bool) returns (r: bool)
      modifies this
      ensures r == if caught then breakOnCaught else breakOnUncaught
      ensures View() == if r then Excepted(old(View()), message, caught) else old(View())
    {
      if (caught && breakOnCaught) || (!caught && breakOnUncaught) {
        pending := pending.(exception := message);
        pending := pending.(caught := caught);
        shown := Shown(message, caught);
        return true;
      }
      return false;
    }

    method ResolveStop(at: Option<Hook>) returns (info: StopInfo)
      modifies this
      ensures info == InfoOf(old(View())) && View() == AfterReport(old(View()), at)
    {
      var hit := pending.hit;
      pending := pending.(hit := 0);
      if pending.exception != "" {
        info := StopInfo(ByException, pending.exception, 0);
        pending := pending.(exception := "");
      } else if pending.entry {
        info := StopInfo(ByEntry, "", 0);
        pending := pending.(entry := false);
      } else if pending.pause {
        info := StopInfo(ByPause, "", 0);
        pending := pending.(pause := false);
      } else if hit != 0 {
        info := StopInfo(ByBreakpoint, "", hit);
      } else if step.mode != NoStep {
        info := StopInfo(ByStep, "", 0);
      } else {
        info := StopInfo(ByBreakpoint, "", 0);
      }
      if at.Some? {
        step := step.(depth := at.value.depth);
        step := step.(loc := at.value.loc);
      }
      step := step.(mode := NoStep);
      isPaused := true;
    }

    /** The main thread's stop for an exception nobody handled. */
    method StopForUnhandled(message: string)
      modifies this
      ensures View() == Died(old(View()), message)
    {
      isPaused := true;
      isExceptionTerminated := true;
      shown := Shown(message, false);
    }

    method ResumeThread(mode: Mode, at: Option<Hook>) returns (ok: bool)
      modifies this
      ensures ok == old(isPaused)
      ensures View() == if ok then Resumed(old(View()), mode, at) else old(View())
    {
      if !isPaused {
        return false;
      }
      step := step.(mode := mode);
      if at.Some? {
        if mode == Over {
          step := step.(depth := at.value.depth);
          step := step.(loc := at.value.loc);
        } else if mode == Out {
          step := step.(depth := at.value.depth);
        }
      }
      isPaused := false;
      shown := NOTHING;
      return true;
    }

    /** Says whether the thread was in its last stop, whose step mode is left alone. */
    method Continue() returns (last: bool)
      modifies this
      ensures last == old(isExceptionTerminated) && View() == Continued(old(View()))
    {
      if isExceptionTerminated {
        isPaused := false;
        shown := NOTHING;
        return true;
      }
      step := step.(mode := NoStep);
      isPaused := false;
      shown := NOTHING;
      return false;
    }

    method Pause()
      modifies this
      ensures View() == PauseRequested(old(View()))
      ensures !old(isPaused) ==> pending.pause && step.mode == Into
    {
      if !isPaused {
        pending := pending.(pause := true);
        step := step.(mode := Into);
      }
    }
  }

  function InitialThread(stopOnEntry: bool): Thread {
    Thread([], 0, Step(if stopOnEntry then Into else NoStep, 0, Loc(-1, -1)),
           Pending("", false, stopOnEntry, false, 0), false, false, NOTHING)
  }

  function Excepted(t: Thread, message: string, caught: bool): Thread {
    t.(pending := t.pending.(exception := message, caught := caught), shown := Shown(message, caught))
  }

  function Died(t: Thread, message: string): Thread {
    t.(paused := true, terminated := true, shown := Shown(message, false))
  }

  function Resumed(t: Thread, mode: Mode, at: Option<Hook>): Thread {
    t.(step := Prepared(t.step, mode, at), paused := false, shown := NOTHING)
  }

  function Continued(t: Thread): Thread {
    t.(step := if t.terminated then t.step else t.step.(mode := NoStep), paused := false, shown := NOTHING)
  }

  function PauseRequested(t: Thread): Thread {
    if t.paused then t else t.(pending := t.pending.(pause := true), step := t.step.(mode := Into))
  }

  // ----- why the hook stops the thread -----

  datatype Cause = Completed(step: Step, hook: Hook) | Hit(id: int) | Thrown(message: string)

  function Breaks(t: Thread, h: Hook, hit: Option<int>): Option<Cause> {
    if Complete(t.step, h) then Some(Completed(t.step, h))
    else if Returned(t.lines, t.lastDepth, h) || hit.None? then None
    else Some(Hit(hit.value))
  }

  function AfterBreak(t: Thread, h: Hook, hit: Option<int>): Thread {
    var after := AfterHook(t, h);
    match Breaks(t, h, hit)
    case Some(Hit(id)) => after.(pending := t.pending.(hit := id))
    case _ => after
  }

  // ----- runs -----

  /** What the thread itself does and what the protocol thread does to it, each
      under the thread's lock. */
  datatype Event =
    | HookAt(hook: Hook, hit: Option<int>)
    | Throw(message: string, caught: bool)
    | Stop(at: Option<Hook>)
    | Die(message: string)
    | RequestStep(mode: Mode, at: Option<Hook>)
    | RequestContinue
    | RequestPause

  datatype Phase = Running | Breaking(cause: Cause) | Stopped | Ended

  /** The thread, where it stands, and what was last asked and last seen. */
  datatype Session = Session(thread: Thread, phase: Phase, request: Option<Step>, hooked: Option<Hook>)

  predicate Enabled(s: Session, e: Event) {
    match e
    case HookAt(_, _) => s.phase == Running
    case Throw(_, _) => s.phase == Running
    case Stop(_) => s.phase.Breaking?
    case Die(_) => s.phase == Running
    case RequestStep(mode, _) => mode != NoStep
    case _ => true
  }

  /** A resumed thread runs on, unless that was its last stop. */
  function Moves(s: Session): Phase {
    if s.phase != Stopped then s.phase else if s.thread.terminated then Ended else Running
  }

  function Apply(s: Session, e: Event): Session
    requires Enabled(s, e)
  {
    var t := s.thread;
    match e
    case HookAt(h, hit) =>
      var b := Breaks(t, h, hit);
      Session(AfterBreak(t, h, hit), if b.Some? then Breaking(b.value) else Running, s.request, Some(h))
    case Throw(message, caught) => s.(thread := Excepted(t, message, caught), phase := Breaking(Thrown(message)))
    case Stop(at) => s.(thread := AfterReport(t, at), phase := Stopped)
    case Die(message) => s.(thread := Died(t, message), phase := Stopped)
    case RequestStep(mode, at) =>
      if !t.paused then s
      else Session(Resumed(t, mode, at), Moves(s), Some(Referred(t.step, at).(mode := mode)), s.hooked)
    case RequestContinue => s.(thread := Continued(t), phase := Moves(s))
    case RequestPause => s.(thread := PauseRequested(t))
  }

  predicate IsRun(run: seq<Session>, events: seq<Event>) {
    && |run| == |events| + 1
    && (exists entry :: run[0] == Session(InitialThread(entry), Running, None, None))
    && forall i | 0 <= i < |events| :: StepAt(run, events, i)
  }

  predicate StepAt(run: seq<Session>, events: seq<Event>, i: nat)
    requires i < |events| < |run|
  {
    Enabled(run[i], events[i]) && run[i + 1] == Apply(run[i], events[i])
  }

  predicate Outward(mode: Mode) {
    mode == Over || mode == Out
  }

  /** A step over or out in progress is the one last requested; a stop in progress
      has its cause on record. */
  predicate Inv(s: Session) {
    var t := s.thread;
    && (t.paused <==> s.phase == Stopped) && (t.terminated ==> s.phase == Stopped || s.phase == Ended)
    && (Outward(t.step.mode) ==> s.request.Some? && SameStep(t.step, s.request.value))
    && (!s.phase.Breaking? ==> t.pending.hit == 0 && t.pending.exception == "")
    && match s.phase
       case Breaking(Completed(step, h)) =>
         && Complete(step, h) && s.hooked == Some(h) && t.pending.hit == 0 && t.pending.exception == ""
         && (Outward(t.step.mode) ==> step == t.step)
       case Breaking(Hit(id)) => t.pending.hit == id && t.pending.exception == ""
       case Breaking(Thrown(message)) => t.pending.exception == message && t.pending.hit == 0
       case _ => true
  }

  predicate SameStep(step: Step, request: Step) {
    step.mode == request.mode && step.depth == request.depth && (step.mode == Over ==> step.loc == request.loc)
  }

  lemma InvKept(s: Session, e: Event)
    requires Inv(s) && Enabled(s, e)
    ensures Inv(Apply(s, e))
  {}

  lemma {:induction false} InvRun(run: seq<Session>, events: seq<Event>, i: nat)
    requires IsRun(run, events) && i <= |events|
    ensures Inv(run[i])
  {
    if i > 0 {
      InvRun(run, events, i - 1);
      assert StepAt(run, events, i - 1);
      InvKept(run[i - 1], events[i - 1]);
    }
  }

  /** The thread is about to report a completed step over or out. */
  predicate ReportsStep(s: Session) {
    s.phase.Breaking? && Outward(s.thread.step.mode) && Report(s.thread) == ByStep
  }

  /** The hook that broke met the criterion of the step last requested. */
  predicate Honest(s: Session) {
    && s.phase.Breaking? && s.phase.cause.Completed?
    && s.request.Some? && s.hooked.Some? && s.hooked.value == s.phase.cause.hook
    && s.request.value.mode == s.thread.step.mode && Complete(s.request.value, s.hooked.value)
  }

  /** In every run, a stop reported as a completed step over or out happened at a
      hook meeting that step's criterion, unless it was caused by an exception
      with an empty message or a breakpoint numbered 0. */
  lemma StepReportsHonest(run: seq<Session>, events: seq<Event>, i: nat)
    requires IsRun(run, events) && i <= |events| && ReportsStep(run[i])
    ensures Honest(run[i]) <==> run[i].phase.cause != Thrown("") && run[i].phase.cause != Hit(0)
  {
    InvRun(run, events, i);
  }

  /** So where no exception message is empty and no breakpoint is numbered 0, every
      such report is honest. */
  lemma HonestRun(run: seq<Session>, events: seq<Event>, i: nat)
    requires IsRun(run, events) && i <= |events| && ReportsStep(run[i])
    requires forall j | 0 <= j < |events| ::
               && (events[j].Throw? ==> events[j].message != "")
               && (events[j].HookAt? ==> events[j].hit != Some(0))
    ensures Honest(run[i])
  {
    CauseHappened(run, events, i);
    StepReportsHonest(run, events, i);
  }

  lemma {:induction false} CauseHappened(run: seq<Session>, events: seq<Event>, i: nat)
    requires IsRun(run, events) && i <= |events| && run[i].phase.Breaking?
    ensures run[i].phase.cause.Thrown? ==>
              exists j | 0 <= j < |events| :: events[j].Throw? && events[j].message == run[i].phase.cause.message
    ensures run[i].phase.cause.Hit? ==>
              exists j | 0 <= j < |events| :: events[j].HookAt? && events[j].hit == Some(run[i].phase.cause.id)
  {
    if i > 0 {
      assert StepAt(run, events, i - 1);
      if run[i - 1].phase == run[i].phase {
        CauseHappened(run, events, i - 1);
      } else {
        assert events[i - 1].Throw? || events[i - 1].HookAt?;
      }
    }
  }

  /** Without that condition the report can be false: an exception with an empty
      message during a step over is reported as the step's completion. */
  lemma EmptyMessageReportedAsStep(a: Loc) returns (run: seq<Session>, events: seq<Event>)
    ensures IsRun(run, events) && |events| == 4 && ReportsStep(run[4]) && !Honest(run[4])
  {
    var s0 := Session(InitialThread(false), Running, None, None);
    var at := Some(Hook(1, a));
    var e0, e1, e2, e3 := HookAt(Hook(1, a), Some(1)), Stop(at), RequestStep(Over, at), Throw("", false);
    var s1 := Apply(s0, e0);
    var s2 := Apply(s1, e1);
    var s3 := Apply(s2, e2);
    var s4 := Apply(s3, e3);
    run, events := [s0, s1, s2, s3, s4], [e0, e1, e2, e3];
    forall i | 0 <= i < 4 ensures StepAt(run, events, i) {}
    assert run[0] == Session(InitialThread(false), Running, None, None);
  }

  /** What is reported is what happened: an exception or breakpoint hit on record is
      the cause of this very stop, an exception is reported as one, and so is a
      breakpoint hit, during a step as well, unless an entry or pause is due. */
  lemma ReportsTheCause(run: seq<Session>, events: seq<Event>, i: nat)
    requires IsRun(run, events) && i <= |events| && run[i].phase.Breaking?
    ensures var t, cause := run[i].thread, run[i].phase.cause;
            && (t.pending.hit != 0 ==> cause == Hit(t.pending.hit))
            && (Report(t) == ByException ==> cause == Thrown(t.pending.exception))
            && (cause.Thrown? && cause.message != "" ==> Report(t) == ByException)
            && (cause.Hit? && cause.id != 0 && !t.pending.entry && !t.pending.pause ==> Report(t) == ByBreakpoint)
            && (cause.Completed? && Report(t) == ByBreakpoint ==> t.step.mode == NoStep)
            && (InfoOf(t).text != "" ==> cause == Thrown(InfoOf(t).text))
            && (InfoOf(t).hit != 0 ==> cause == Hit(InfoOf(t).hit))
  {
    InvRun(run, events, i);
  }

  function HooksOf(events: seq<Event>): seq<Hook> {
    if events == [] then []
    else
      var e := events[|events| - 1];
      HooksOf(events[..|events| - 1]) + if e.HookAt? then [e.hook] else []
  }

  /** Over every run the table summarises all hooks so far. */
  lemma {:induction false} TableInRun(run: seq<Session>, events: seq<Event>, i: nat)
    requires IsRun(run, events) && i <= |events|
    ensures Summarises(run[i].thread.lines, HooksOf(events[..i]))
    ensures run[i].thread.lastDepth == LastDepth(HooksOf(events[..i]))
  {
    if i > 0 {
      TableInRun(run, events, i - 1);
      assert StepAt(run, events, i - 1);
      var e := events[i - 1];
      assert events[..i][..i - 1] == events[..i - 1];
      if e.HookAt? {
        TableSummarises(run[i - 1].thread.lines, HooksOf(events[..i - 1]), e.hook);
      } else {
        assert HooksOf(events[..i - 1]) + [] == HooksOf(events[..i - 1]);
      }
    }
  }

  /** So in every run a hook whose location is not the filler is taken for a return to
      the caller's line exactly when the depth dropped and the history puts the frame
      on that line. */
  lemma ReturnsInRun(run: seq<Session>, events: seq<Event>, i: nat, h: Hook)
    requires IsRun(run, events) && i <= |events| && h.loc != NOWHERE
    ensures var t, history := run[i].thread, HooksOf(events[..i]);
            Returned(t.lines, t.lastDepth, h) <==>
            0 < h.depth < LastDepth(history) && OnLine(history, h.depth, h.loc)
  {
    TableInRun(run, events, i);
    ReturnedExactly(run[i].thread.lines, HooksOf(events[..i]), h);
  }
}
