/**
 The line hook against the history of events alone: which command is in force,
 what is due to be reported, and hence when the hook stops the thread, written
 out in depths, locations and requests.
 */
module HookTrace {
  import opened Options
  import opened LineHook

  // ----- what the history says -----

  datatype Standing = Moving | Halted | Finished

  function Before(events: seq<Event>): seq<Event>
    requires events != []
  {
    events[..|events| - 1]
  }

  /** An unhandled exception has stopped the thread for good. */
  predicate Dead(events: seq<Event>) {
    exists i | 0 <= i < |events| :: events[i].Die?
  }

  /** Stopped by the last stop not followed by a resume. */
  function StandingAfter(events: seq<Event>): Standing {
    if events == [] then Moving
    else
      var past := StandingAfter(Before(events));
      match events[|events| - 1]
      case Stop(_) => Halted
      case Die(_) => Halted
      case RequestStep(_, _) => if past != Halted then past else if Dead(events) then Finished else Moving
      case RequestContinue => if past != Halted then past else if Dead(events) then Finished else Moving
      case _ => past
  }

  /** What a running thread was told: nothing, to stop anywhere, past a place, or above
      a depth. */
  datatype Command = Free | Anywhere | Past(depth: nat, loc: Loc) | Above(depth: nat)

  /** The place last taken as reference: where the thread stopped, or where it was
      told to step from. */
  function Reference(events: seq<Event>): Hook {
    if events == [] then Hook(0, NOWHERE)
    else
      var past := Reference(Before(events));
      match events[|events| - 1]
      case Stop(at) => if at.Some? then at.value else past
      case RequestStep(mode, at) =>
        if StandingAfter(Before(events)) != Halted || at.None? then past
        else if mode == Over then at.value
        else if mode == Out then Hook(at.value.depth, past.loc)
        else past
      case _ => past
  }

  /** The command in force: the last step accepted, or pause, unless a stop or a
      continue came later. */
  function CommandAfter(entry: bool, events: seq<Event>): Command {
    if events == [] then if entry then Anywhere else Free
    else
      var past := CommandAfter(entry, Before(events));
      var halted := StandingAfter(Before(events)) == Halted;
      match events[|events| - 1]
      case Stop(_) => Free
      case RequestStep(mode, _) =>
        var place := Reference(events);
        if !halted then past
        else if mode == Into then Anywhere
        else if mode == Over then Past(place.depth, place.loc)
        else Above(place.depth)
      case RequestContinue => if Dead(events) then past else Free
      case RequestPause => if halted then past else Anywhere
      case _ => past
  }

  /** The exception thrown since the last stop. */
  function ThrownSince(events: seq<Event>): string {
    if events == [] then ""
    else
      match events[|events| - 1]
      case Throw(message, _) => message
      case Stop(_) => ""
      case _ => ThrownSince(Before(events))
  }

  /** The entry stop is due until a stop is not for an exception. */
  predicate EntryDue(entry: bool, events: seq<Event>) {
    if events == [] then entry
    else EntryDue(entry, Before(events)) && (events[|events| - 1].Stop? ==> ThrownSince(Before(events)) != "")
  }

  /** A pause asked of a running thread is due until a stop is for it. */
  predicate PauseDue(entry: bool, events: seq<Event>) {
    if events == [] then false
    else
      var past := PauseDue(entry, Before(events));
      match events[|events| - 1]
      case RequestPause => past || StandingAfter(Before(events)) != Halted
      case Stop(_) => past && (ThrownSince(Before(events)) != "" || EntryDue(entry, Before(events)))
      case _ => past
  }

  /** The exception to tell about: that of the last stop for one, until the thread is
      resumed. */
  function ShownAfter(events: seq<Event>): Shown {
    if events == [] then NOTHING
    else
      var past := ShownAfter(Before(events));
      match events[|events| - 1]
      case Throw(message, caught) => Shown(message, caught)
      case Die(message) => Shown(message, false)
      case RequestContinue => NOTHING
      case RequestStep(_, _) => if StandingAfter(Before(events)) == Halted then NOTHING else past
      case _ => past
  }

  // ----- the thread's state follows the history -----

  predicate StepIs(step: Step, command: Command, place: Hook) {
    && step.depth == place.depth && step.loc == place.loc
    && match command
       case Free => step.mode == NoStep
       case Anywhere => step.mode == Into
       case Past(d, loc) => step.mode == Over && d == place.depth && loc == place.loc
       case Above(d) => step.mode == Out && d == place.depth
  }

  predicate Accounts(s: Session, entry: bool, events: seq<Event>) {
    var t := s.thread;
    && (s.phase == Stopped <==> StandingAfter(events) == Halted)
    && (s.phase == Ended <==> StandingAfter(events) == Finished)
    && (t.terminated <==> Dead(events))
    && StepIs(t.step, CommandAfter(entry, events), Reference(events))
    && t.pending.exception == ThrownSince(events)
    && t.pending.entry == EntryDue(entry, events)
    && t.pending.pause == PauseDue(entry, events)
    && t.shown == ShownAfter(events)
  }

  lemma DeadAfter(events: seq<Event>, e: Event)
    ensures Dead(events + [e]) <==> Dead(events) || e.Die?
  {
    var all := events + [e];
    assert all[|events|] == e && forall i | 0 <= i < |events| :: all[i] == events[i];
    if i :| 0 <= i < |events| && events[i].Die? {
      assert all[i].Die?;
    }
  }

  lemma AccountsKept(s: Session, entry: bool, events: seq<Event>, e: Event)
    requires Inv(s) && Accounts(s, entry, events) && Enabled(s, e)
    ensures Accounts(Apply(s, e), entry, events + [e])
  {
    DeadAfter(events, e);
    assert Before(events + [e]) == events;
  }

  /** Whether the run began with a stop on entry. */
  function EntryOf(run: seq<Session>): bool
    requires run != []
  {
    run[0].thread.pending.entry
  }

  lemma {:induction false} AccountsInRun(run: seq<Session>, events: seq<Event>, i: nat)
    requires IsRun(run, events) && i <= |events|
    ensures Accounts(run[i], EntryOf(run), events[..i])
  {
    if i > 0 {
      AccountsInRun(run, events, i - 1);
      InvRun(run, events, i - 1);
      assert StepAt(run, events, i - 1);
      AccountsKept(run[i - 1], EntryOf(run), events[..i - 1], events[i - 1]);
      assert events[..i] == events[..i - 1] + [events[i - 1]];
    }
  }

  // ----- when the hook stops the thread -----

  predicate Completes(s: Session) {
    s.phase.Breaking? && s.phase.cause.Completed?
  }

  /** The hook does what the command in force asks for. */
  predicate Meets(command: Command, h: Hook) {
    match command
    case Free => false
    case Anywhere => true
    case Past(d, loc) => h.depth <= d && h.loc != loc
    case Above(d) => h.depth < d
  }

  /** In every run a hook completes the step exactly when it meets the command in
      force; otherwise it stops for a breakpoint exactly when there is one and this is
      not the return to a line the frame was already on (where the filler also passes for
      the line of a frame not seen); otherwise it runs on. */
  lemma HookDecides(run: seq<Session>, events: seq<Event>, i: nat)
    requires IsRun(run, events) && i < |events| && events[i].HookAt?
    ensures
      var h, hit, after := events[i].hook, events[i].hit, run[i + 1].phase;
      var history := HooksOf(events[..i]);
      var met := Meets(CommandAfter(EntryOf(run), events[..i]), h);
      var back := && 0 < h.depth < LastDepth(history)
                  && (OnLine(history, h.depth, h.loc) || (h.loc == NOWHERE && Unseen(history, h.depth)));
      && (Completes(run[i + 1]) <==> met)
      && (met ==> after.cause.hook == h)
      && (forall id :: after == Breaking(Hit(id)) <==> hit == Some(id) && !met && !back)
      && (after == Running <==> !met && (hit == None || back))
  {
    AccountsInRun(run, events, i);
    TableInRun(run, events, i);
    ReturnedExact(run[i].thread.lines, HooksOf(events[..i]), events[i].hook);
    assert StepAt(run, events, i);
  }

  /** Nothing but hooks, and step requests, which a running thread refuses. */
  predicate Quiet(events: seq<Event>, from: nat, to: nat) {
    forall k | from <= k < to && k < |events| :: events[k].HookAt? || events[k].RequestStep?
  }

  /** Through such a stretch the step stands, and a thread that is running at the end
      was so all along. */
  lemma {:induction false} QuietKeeps(run: seq<Session>, events: seq<Event>, i: nat, j: nat)
    requires IsRun(run, events) && i <= j <= |events| && Quiet(events, i, j) && run[i].phase != Stopped
    ensures run[j].phase != Stopped && run[j].thread.step == run[i].thread.step
    ensures run[j].phase == Running ==> forall k | i <= k <= j :: run[k].phase == Running
  {
    if i < j {
      QuietKeeps(run, events, i, j - 1);
      InvRun(run, events, j - 1);
      assert StepAt(run, events, j - 1);
    }
  }

  /** A hook in such a stretch, before its end, did not complete the step. */
  lemma QuietHooks(run: seq<Session>, events: seq<Event>, i: nat, j: nat)
    requires IsRun(run, events) && i <= j < |events| && Quiet(events, i, j) && run[i].phase != Stopped
    requires events[j].HookAt?
    ensures Completes(run[j + 1]) <==> Complete(run[i].thread.step, events[j].hook)
    ensures forall k | i <= k < j && events[k].HookAt? :: !Complete(run[i].thread.step, events[k].hook)
  {
    QuietKeeps(run, events, i, j);
    assert StepAt(run, events, j);
    forall k | i <= k < j && events[k].HookAt? ensures !Complete(run[i].thread.step, events[k].hook) {
      QuietKeeps(run, events, i, k);
      assert StepAt(run, events, k);
    }
  }

  /** Where a step request counts from: where the thread stands or, with no machine to
      ask, the place last taken as reference. */
  function From(events: seq<Event>, i: nat): Hook
    requires i < |events| && events[i].RequestStep?
  {
    if events[i].at.Some? then events[i].at.value else Reference(events[..i])
  }

  lemma StepTaken(run: seq<Session>, events: seq<Event>, i: nat)
    requires IsRun(run, events) && i < |events| && events[i].RequestStep? && run[i].phase == Stopped
    ensures var mode, from, step := events[i].mode, From(events, i), run[i + 1].thread.step;
            && run[i + 1].phase != Stopped && step.mode == mode
            && (mode == Over ==> step.depth == from.depth && step.loc == from.loc)
            && (mode == Out ==> step.depth == from.depth)
  {
    AccountsInRun(run, events, i);
    InvRun(run, events, i);
    assert StepAt(run, events, i);
  }

  /** A step into completes at the very next hook. */
  lemma StepIntoCompletes(run: seq<Session>, events: seq<Event>, i: nat, j: nat)
    requires IsRun(run, events) && i < j < |events| && Quiet(events, i + 1, j) && events[j].HookAt?
    requires events[i].RequestStep? && events[i].mode == Into && run[i].phase == Stopped
    ensures Completes(run[j + 1]) && forall k | i < k < j :: !events[k].HookAt?
  {
    StepTaken(run, events, i);
    QuietHooks(run, events, i + 1, j);
  }

  /** A step over completes at the first hook that is no deeper and on another line. */
  lemma StepOverCompletes(run: seq<Session>, events: seq<Event>, i: nat, j: nat)
    requires IsRun(run, events) && i < j < |events| && Quiet(events, i + 1, j) && events[j].HookAt?
    requires events[i].RequestStep? && events[i].mode == Over && run[i].phase == Stopped
    ensures var from, h := From(events, i), events[j].hook;
            Completes(run[j + 1]) <==> h.depth <= from.depth && h.loc != from.loc
    ensures var from := From(events, i);
            forall k | i < k < j && events[k].HookAt? ::
              events[k].hook.depth > from.depth || events[k].hook.loc == from.loc
  {
    StepTaken(run, events, i);
    QuietHooks(run, events, i + 1, j);
  }

  /** A step out completes at the first hook shallower than the frame it left. */
  lemma StepOutCompletes(run: seq<Session>, events: seq<Event>, i: nat, j: nat)
    requires IsRun(run, events) && i < j < |events| && Quiet(events, i + 1, j) && events[j].HookAt?
    requires events[i].RequestStep? && events[i].mode == Out && run[i].phase == Stopped
    ensures Completes(run[j + 1]) <==> events[j].hook.depth < From(events, i).depth
    ensures forall k | i < k < j && events[k].HookAt? :: events[k].hook.depth >= From(events, i).depth
  {
    StepTaken(run, events, i);
    QuietHooks(run, events, i + 1, j);
  }

  /** After a continue no hook completes a step. */
  lemma ContinueRunsFree(run: seq<Session>, events: seq<Event>, i: nat, j: nat)
    requires IsRun(run, events) && i < j < |events| && Quiet(events, i + 1, j) && events[j].HookAt?
    requires events[i].RequestContinue?
    ensures !Completes(run[j + 1])
  {
    InvRun(run, events, i);
    assert StepAt(run, events, i);
    assert StepAt(run, events, j);
    QuietKeeps(run, events, i + 1, j);
    QuietHooks(run, events, i + 1, j);
  }

  // ----- what a stop reports -----

  /** What every stop reports, by the history alone: an exception thrown since the
      last stop, else a stop on entry, else a pause that is due, else the breakpoint
      hit, else a step, if one was in force. */
  lemma StopReports(run: seq<Session>, events: seq<Event>, i: nat)
    requires IsRun(run, events) && i < |events| && events[i].Stop?
    ensures run[i].phase.Breaking? && run[i + 1].phase == Stopped
    ensures
      var past, entry, info := events[..i], EntryOf(run), InfoOf(run[i].thread);
      if ThrownSince(past) != "" then info == StopInfo(ByException, ThrownSince(past), 0)
      else if EntryDue(entry, past) then info == StopInfo(ByEntry, "", 0)
      else if PauseDue(entry, past) then info == StopInfo(ByPause, "", 0)
      else if run[i].phase.cause.Hit? && run[i].phase.cause.id != 0 then
        info == StopInfo(ByBreakpoint, "", run[i].phase.cause.id)
      else info == StopInfo(if CommandAfter(entry, past) == Free then ByBreakpoint else ByStep, "", 0)
  {
    AccountsInRun(run, events, i);
    InvRun(run, events, i);
    assert StepAt(run, events, i);
  }

  /** What a client is told when it asks for the exception. */
  lemma ExceptionShown(run: seq<Session>, events: seq<Event>, i: nat)
    requires IsRun(run, events) && i <= |events|
    ensures run[i].thread.shown == ShownAfter(events[..i])
  {
    AccountsInRun(run, events, i);
  }

  predicate NoStop(events: seq<Event>, from: nat, to: nat) {
    forall k | from <= k < to && k < |events| :: !events[k].Stop?
  }

  /** Until it stops, a breaking thread breaks for the same cause, and what is due of
      exceptions, entry and pauses stays. */
  lemma {:induction false} BreakingKeeps(run: seq<Session>, events: seq<Event>, i: nat, j: nat)
    requires IsRun(run, events) && i <= j <= |events| && NoStop(events, i, j) && run[i].phase.Breaking?
    ensures run[j].phase == run[i].phase
    ensures var before, after := run[i].thread.pending, run[j].thread.pending;
            && after.exception == before.exception && after.entry == before.entry
            && (before.pause ==> after.pause)
  {
    if i < j {
      BreakingKeeps(run, events, i, j - 1);
      InvRun(run, events, j - 1);
      assert StepAt(run, events, j - 1);
    }
  }

  lemma {:induction false} PauseWaits(run: seq<Session>, events: seq<Event>, i: nat, j: nat)
    requires IsRun(run, events) && i <= j <= |events| && Quiet(events, i, j) && run[i].phase != Stopped
    requires run[i].thread.pending.pause
    ensures run[j].thread.pending.pause && run[j].thread.pending.entry == run[i].thread.pending.entry
  {
    if i < j {
      PauseWaits(run, events, i, j - 1);
      QuietKeeps(run, events, i, j - 1);
      InvRun(run, events, j - 1);
      assert StepAt(run, events, j - 1);
    }
  }

  /** A pause asked of a running thread stops it at the next hook. */
  lemma PauseBreaks(run: seq<Session>, events: seq<Event>, i: nat, j: nat)
    requires IsRun(run, events) && i < j < |events| && Quiet(events, i + 1, j) && events[j].HookAt?
    requires events[i].RequestPause? && run[i].phase == Running
    ensures Completes(run[j + 1]) && run[j + 1].phase.cause.hook == events[j].hook
    ensures forall k | i < k < j :: !events[k].HookAt?
  {
    InvRun(run, events, i);
    assert StepAt(run, events, i);
    assert StepAt(run, events, j);
    QuietHooks(run, events, i + 1, j);
  }

  /** That stop is reported as a pause, unless the stop on entry is due, which then goes
      first; the pause reported is no longer due. */
  lemma PauseReported(run: seq<Session>, events: seq<Event>, i: nat, j: nat, k: nat)
    requires IsRun(run, events) && i < j < k < |events| && Quiet(events, i + 1, j) && events[j].HookAt?
    requires events[i].RequestPause? && run[i].phase == Running
    requires NoStop(events, j + 1, k) && events[k].Stop?
    ensures var entry := run[i].thread.pending.entry;
            && InfoOf(run[k].thread) == StopInfo(if entry then ByEntry else ByPause, "", 0)
            && run[k + 1].thread.pending.pause == entry && !run[k + 1].thread.pending.entry
  {
    InvRun(run, events, i);
    assert StepAt(run, events, i);
    PauseBreaks(run, events, i, j);
    QuietKeeps(run, events, i + 1, j);
    PauseWaits(run, events, i + 1, j);
    assert StepAt(run, events, j);
    InvRun(run, events, j + 1);
    BreakingKeeps(run, events, j + 1, k);
    assert StepAt(run, events, k);
  }

  /** The stop at `i` is reported as a pause. */
  predicate PausesAt(run: seq<Session>, events: seq<Event>, i: nat)
    requires |run| == |events| + 1
  {
    i < |events| && events[i].Stop? && InfoOf(run[i].thread).reason == ByPause
  }

  lemma {:induction false} PauseWasAsked(run: seq<Session>, events: seq<Event>, i: nat, j: nat)
    requires IsRun(run, events) && i <= j <= |events| && !run[i].thread.pending.pause && run[j].thread.pending.pause
    ensures exists k | i <= k < j :: events[k].RequestPause? && run[k].phase != Stopped
  {
    assert StepAt(run, events, j - 1);
    InvRun(run, events, j - 1);
    if run[j - 1].thread.pending.pause {
      PauseWasAsked(run, events, i, j - 1);
    }
  }

  /** One request makes for one pause report at most: before the first, and between any
      two, the thread was asked to pause while it was not stopped. */
  lemma PauseReportedOnce(run: seq<Session>, events: seq<Event>, i: nat, j: nat)
    requires IsRun(run, events) && i <= j && PausesAt(run, events, j) && (i == 0 || PausesAt(run, events, i - 1))
    ensures exists k | i <= k < j :: events[k].RequestPause? && run[k].phase != Stopped
  {
    if i > 0 {
      assert StepAt(run, events, i - 1);
    }
    PauseWasAsked(run, events, i, j);
  }

  /** A pause asked of a stopped thread changes nothing. */
  lemma PauseOfStopped(run: seq<Session>, events: seq<Event>, i: nat)
    requires IsRun(run, events) && i < |events| && events[i].RequestPause? && run[i].phase == Stopped
    ensures run[i + 1] == run[i]
  {
    InvRun(run, events, i);
    assert StepAt(run, events, i);
  }

  /** A thread that is to stop on entry stops at its first hook, and says so. */
  lemma EntryStops(run: seq<Session>, events: seq<Event>, j: nat, k: nat)
    requires IsRun(run, events) && EntryOf(run) && j < k < |events| && Quiet(events, 0, j) && events[j].HookAt?
    requires NoStop(events, j + 1, k) && events[k].Stop?
    ensures (forall n | 0 <= n < j :: !events[n].HookAt?) && Completes(run[j + 1])
    ensures InfoOf(run[k].thread) == StopInfo(ByEntry, "", 0) && !run[k + 1].thread.pending.entry
  {
    QuietHooks(run, events, 0, j);
    assert StepAt(run, events, j);
    InvRun(run, events, j + 1);
    BreakingKeeps(run, events, j + 1, k);
    assert StepAt(run, events, k);
    EntryWaits(run, events, j);
  }

  lemma {:induction false} EntryWaits(run: seq<Session>, events: seq<Event>, j: nat)
    requires IsRun(run, events) && EntryOf(run) && j <= |events| && Quiet(events, 0, j)
    ensures run[j].thread.pending.entry
  {
    if j > 0 {
      EntryWaits(run, events, j - 1);
      assert StepAt(run, events, j - 1);
    }
  }
}
