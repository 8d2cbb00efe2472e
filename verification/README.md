# Verified models of the Luma debugger and its common algorithms

Luma is a language toolchain. This project models the two parts of it whose
correctness is hardest to see by reading: the debug adapter's pause/resume
protocol with the registries around it, and the algorithms in `core/common`.

- **Debug session** (`session_*.dfy`). Any number of execution threads and one
  protocol thread, as a transition system in which every lock, unlock, field
  write, counter update, test, sleep, notify and message write is a step of its
  own, interleaved arbitrarily under sequential consistency. `session_model.dfy`
  is the model; the other files prove lock discipline and freedom from deadlock,
  soundness of the lock-free pause counter, absence of lost wake-ups, that nothing
  runs before the configuration or after `terminate`, progress of its joins, and the
  order of events on the wire with the exact condition under which it is kept. All
  main results are about every state of every run.
- **Line hook and stop reasons** (`line_hook.dfy`, `hook_trace.dfy`). What the
  per-depth line table remembers of the hook history, when a stop reported as a
  completed step really is one, and, from the history of events alone, which hook
  stops the thread and what it then reports.
- **Breakpoint registry** (`breakpoints.dfy`, `breakpoint_runs.dfy`,
  `breakpoint_adoption.dfy`, `breakpoint_fields.dfy`, `breakpoint_manager.dfy`).
  Identifiers, adoption on replacement, resolution, condition fields and hit counts
  over every run.
- **Exact decimals** (`magnitude.dfy`, `decimal.dfy`, `decimal_text.dfy`). The
  little-endian digit algorithms against the numbers they denote, the operations
  against rational arithmetic over the reals, the seven rounding modes against
  declarative definitions, and the literal grammar with its parser and printer.
- **Text and checksum algorithms** (`levenshtein.dfy`, `glob.dfy`, `utf8.dfy`,
  `crc32.dfy`). Each fast form against a simple reference: least-cost edit
  scripts, the recursive meaning of a pattern, decoding specified by encoding,
  and the bit-at-a-time shift register.
- **Caches** (`lru_cache.dfy`, `lru_laws.dfy`). The least-recently-used cache as
  list plus index against its history, and the memoised compile on top of it.

`dafny verify dfyconfig.toml` checks everything.

Assumptions of the session model that the code supports: protocol operations
(terminate included) run on one thread; a task is removed only by itself; thread
identifiers are unique; the registry is cleared only before threads start; and
destroying the VM inside `terminate` joins the task pool, so that every task has
finished when `terminate` returns.

Where the code and its comments disagree, the code is modelled, and the
difference is stated as a theorem:

- The glob matcher tries literal equality before `*`, so a `*` in the text can
  consume a `*` of the pattern. It is right for all patterns exactly on texts
  without `*`, and patterns are right for all texts exactly when they have no `*`
  (`Glob.TextsJudgedRightly`, `Glob.PatternsJudgingRightly`).
- Bounded edit distance does not always return the threshold plus one beyond the
  threshold (`Levenshtein.BeyondThreshold`, `Levenshtein.MayExceedByMore`).
- A decimal whose scale is exactly the digit cap is parsed, but its printed form is
  refused (`DecimalText.RoundTrip`, `DecimalText.ScaleAtCap`).
- The lock-order assertion admits deadlocks: crossed per-thread locks, the registry
  lock taken twice, and the registry and send locks nested in opposite orders
  (`SessionOrder.CheckAdmitsCrossedStates` and its neighbours). Together with
  one-at-a-time acquisition it excludes them
  (`SessionOrder.DisciplineExcludesDeadlock`), and that is how the session is free
  of them (`SessionOrder.NoDeadlock`).
- The continued event is sent before the resume so that a stopped event cannot
  overtake it, but a continue-all also resumes threads that stop between the two.
  Then two stopped events of one thread can follow each other
  (`SessionScenario.ContinueAllBreaksOrder`). The order is kept in every
  continuation exactly when no continuation has such a race
  (`SessionRace.AlternationExact`), and a client that saw each thread it resumes
  stop before it sent the request is safe (`SessionWire.AttentiveClient`).
- An exception with an empty message during a step is reported as the step's
  completion (`LineHook.EmptyMessageReportedAsStep`). The line table's filler equals
  a location of -1, -1, which the hook's type admits although nothing is known to
  send it (`LineHook.FillerMatches`); for every other location the return test is
  exact (`LineHook.ReturnsInRun`).
- Sending breakpoints again for a path that is not a file of the program renumbers
  them (`BreakpointRuns.UnresolvedResend`).

## Model

| member | source | states |
|---|---|---|
| SessionLocks.LockInvRun | debugger/source/thread_state_manager.cpp:16-68 | in every state of every run, each session lock is owned exactly by the actor whose program point says so, and never by two |
| SessionOrder.NoDeadlock | debugger/source/dap_session_types.hpp:150-182 | no reachable state has a nonempty set of threads, the protocol thread included, that all wait for session locks held within the set |
| SessionProgress.JoinProgress | debugger/source/debug_execution_lifecycle.cpp:149-168 | in every reachable state in which terminate waits in a join, the join is over or some thread has an enabled step other than a spurious wake-up: locks, condition variables and joins together leave nobody waiting in vain |
| SessionTeardown.ClearsAfterJoin | debugger/source/debug_execution_lifecycle.cpp:149-168 | in every run, while terminate clears the pointers to the virtual machine and destroys it, the main thread has finished |
| SessionTeardown.NothingAfterTerminate | debugger/source/debug_execution_lifecycle.cpp:129-170 | once terminate has returned every thread has finished, for good |
| SessionTeardown.EventsNameThreads | debugger/source/dap_server_execution.cpp:28-36 | every stopped and continued event on the wire is about a thread that exists: a request for an unknown one is refused unannounced |
| SessionOrder.OrderCheckPasses | debugger/source/dap_session_types.hpp:150-182 | every pending acquisition passes the lock-order assertion and is one at a time |
| SessionOrder.CheckAdmitsCrossedStates | debugger/source/dap_session_types.hpp:165-172 | two threads that hold their own states and wait for each other's are deadlocked although both acquisitions pass the assertion |
| SessionOrder.CheckAdmitsRegistryTwice | debugger/source/dap_session_types.hpp:154-164 | so is a thread that takes the registry lock twice |
| SessionOrder.CheckAdmitsCrossedSend | debugger/source/dap_session_types.hpp:150-182 | so are two threads that nest the registry lock and the send lock, which the assertion does not know, in opposite orders |
| SessionOrder.DisciplineExcludesDeadlock | debugger/source/dap_session_types.hpp:150-182 | for any holdings whose pending acquisitions pass the assertion and are one at a time, no set of threads is deadlocked |
| SessionZones.EdgeZones | debugger/source/debug_execution_hooks.cpp:218-308 | every step of a thread's control flow moves between the phases of stopping, counting, waiting and leaving only as the counter argument needs |
| SessionCounter.InvRun | debugger/source/thread_state_manager.cpp:21-68 | the global inductive invariant tying pause marks, registry and counter to program points holds in every state of every run |
| SessionCounter.CounterSound | debugger/source/thread_state_manager.cpp:105-127 | whenever the registry lock is free or held by an execution thread, the counter is at most the number of registered paused threads, and equal when no update is in flight |
| SessionCounter.AllStoppedSound | debugger/source/thread_state_manager.cpp:105-115 | whenever a thread is told that all threads are stopped, every registered thread is paused at the instant the counter is read |
| SessionCounter.AllStoppedExact | debugger/source/thread_state_manager.cpp:105-115 | with no update in flight the answer is exact in both directions |
| SessionWakeup.NoLostWakeup | debugger/source/debug_execution_hooks.cpp:287-308 | a thread asleep in a resume wait has its pause mark with no stop requested, or the protocol thread still owes it a notify |
| SessionWakeup.NoLostConfiguration | debugger/source/debug_execution_lifecycle.cpp:172-189 | a thread asleep waiting for the configuration is waiting for something that has not happened, or a notify is on its way |
| SessionFlags.NothingRunsUnconfigured | debugger/source/debug_execution_lifecycle.cpp:172-189 | in every run, a thread past the configuration wait and not finished, the main thread or a spawned task, is in a session whose configuration is done |
| SessionFlags.GivesUpOnlyOnStop | debugger/source/debug_execution_lifecycle.cpp:183-186 | a main thread that finishes straight from the configuration wait saw a stop request |
| SessionFlags.SignallingConfigures | debugger/source/debug_execution_lifecycle.cpp:172-176 | serving configurationDone, or the same step of terminate, leaves the session configured |
| SessionFlags.FlagExact | debugger/source/debug_execution_engine.cpp:177-184 | in every run a thread carries the mark of an unhandled exception from its last stop on, and no other unfinished thread does |
| SessionWakeup.NeverSleepsAgain | debugger/source/debug_execution_lifecycle.cpp:129-151 | once the forced unpause has passed a thread it never sleeps, or decides to sleep, in a resume wait again |
| SessionWire.StopsAlternate | debugger/source/dap_server_execution.cpp:21-76 | in every run in which no request resumes a thread whose stopped event was not on the wire when the request announced itself, a continued event covering a thread lies between any two of its stopped events |
| SessionWire.AttentiveIsRaceFree | debugger/source/dap_server_execution.cpp:32-36 | a client that resumes, one by one or all at once, only threads whose stopped event was the last record about them when the request began never causes such a race |
| SessionWire.AttentiveClient | debugger/source/dap_server_execution.cpp:21-76 | so it sees a continued event covering a thread between any two of its stopped events |
| SessionWire.IdleLogIsRight | debugger/source/debug_execution_hooks.cpp:263-308 | in a race-free run, while no resume is being served, a thread waiting in a stop it can be resumed from is paused exactly when its stopped event is the last record about it |
| SessionRace.RaceBreaks | debugger/source/debug_execution_control.cpp:82-108 | the first race of any run can be continued to two stopped events of that thread with no continued event covering it between them |
| SessionRace.AlternationExact | debugger/source/dap_server_execution.cpp:21-76 | from a race-free run on, the order is kept in every continuation exactly when no continuation has a race |
| SessionScenario.ContinueAllRaces | debugger/source/debug_execution_control.cpp:20-39 | a run in which the main thread stops between the continued event of a continue-all and its visit, and is found paused unseen |
| SessionScenario.ContinueAllBreaksOrder | debugger/source/dap_server_execution.cpp:32-36 | a run with two stopped events of one thread and no continued event covering it between them |
| SessionWire.SequenceNumbersGrow | debugger/source/dap_protocol_handler.hpp:178-238 | sequence numbers strictly grow in write order, in every run |
| LineHook.ThreadState.UpdateLineState | debugger/source/debug_execution_hooks.cpp:108-132 | the new line table and last depth; the return test on the old table and, mode by mode, the step criterion on the old step state, written out |
| LineHook.ThreadState.ShouldBreak | debugger/source/debug_execution_hooks.cpp:54-83 | a stop request breaks and an unknown thread runs on, both without touching the state; otherwise breaks exactly for a completed step, or for a breakpoint hit at a hook that does not come back, shallower, to the line the table has for its depth, and records the hit; what this means over runs is `HookTrace.HookDecides` |
| LineHook.ThreadState.ResolveStop | debugger/source/debug_execution_hooks.cpp:218-261 | the reported reason by priority with exception text and breakpoint identifier; exactly the reported event and the hit are consumed; the step's reference moves only if a VM is attached |
| LineHook.ThreadState.OnException | debugger/source/debug_execution_hooks.cpp:312-341 | stops exactly when the filter for caught or uncaught exceptions is set, and then records message and kind, pending and shown, and nothing else |
| LineHook.ThreadState.StopForUnhandled | debugger/source/debug_execution_engine.cpp:177-184 | the last stop of the main thread: paused, terminated, and the exception shown |
| LineHook.ThreadState.ResumeThread | debugger/source/debug_execution_control.cpp:110-177 | refused unless paused; otherwise the step mode, with the reference depth and for step over the location if a VM is attached, and the exception no longer shown |
| LineHook.ThreadState.Continue | debugger/source/debug_execution_control.cpp:52-78 | clears the pause mark and the exception shown, and the step mode except in the last stop |
| LineHook.ThreadState.Pause | debugger/source/debug_execution_control.cpp:191-203 | a running thread gets a pending pause and steps into; a paused one is left alone; that this stops the thread is `HookTrace.PauseBreaks` |
| LineHook.TableSummarises | debugger/source/debug_execution_hooks.cpp:118-129 | one hook keeps the table a summary of the whole hook history: for each frame the latest hook at its depth not followed by a shallower one |
| LineHook.TableInRun | debugger/source/debug_execution_hooks.cpp:108-132 | so in every state of every run |
| LineHook.ReturnedExact | debugger/source/debug_execution_hooks.cpp:115-125 | the return test holds exactly when the depth dropped and the location is that of the latest hook at this depth not followed by a shallower one, or is the filler at a depth not seen |
| LineHook.ReturnedExactly | debugger/source/debug_execution_hooks.cpp:115-125 | for locations other than the filler the test is exact |
| LineHook.ReturnsInRun | debugger/source/debug_execution_hooks.cpp:108-132 | so in every run, against the whole hook history |
| LineHook.FillerMatches | debugger/source/debug_execution_hooks.cpp:127-128 | a hook at the filler location, which the hook's type admits, would match a frame no hook was seen in |
| LineHook.StepReportsHonest | debugger/source/debug_execution_hooks.cpp:218-261 | in every run a stop reported as a completed step over or out happened at a hook meeting the criterion of the step last requested, exactly unless its cause was an exception with an empty message or a breakpoint numbered 0 |
| LineHook.HonestRun | debugger/source/debug_execution_control.cpp:110-177 | so every such report is honest in runs without empty messages and breakpoints numbered 0 |
| LineHook.ReportsTheCause | debugger/source/debug_execution_hooks.cpp:223-246 | in every run a breakpoint hit or exception on record, and the identifier and text reported, are those of this very stop, and it is reported as such, during a step as well |
| LineHook.EmptyMessageReportedAsStep | debugger/source/debug_execution_hooks.cpp:227-246 | a run in which an exception with an empty message is reported as the completion of a step over |
| HookTrace.AccountsInRun | debugger/source/debug_execution_control.cpp:52-203 | in every state of every run, step state, pending events, standing and shown exception are those that the history of events gives |
| HookTrace.HookDecides | debugger/source/debug_execution_hooks.cpp:54-132 | in every run a hook completes the step exactly when it meets the command in force by the history (anywhere, no deeper and elsewhere, or shallower); otherwise it stops for a breakpoint exactly when there is one and the depth did not drop to a line the hook history already has for this frame; otherwise it runs on |
| HookTrace.StepIntoCompletes | debugger/source/debug_execution_hooks.cpp:88-92 | after an accepted step into the very next hook completes it |
| HookTrace.StepOverCompletes | debugger/source/debug_execution_hooks.cpp:94-96 | a step over requested at a depth and location completes at the first later hook no deeper and at another location, with nothing but hooks and refused requests between |
| HookTrace.StepOutCompletes | debugger/source/debug_execution_hooks.cpp:98-99 | a step out requested at a depth completes at the first later hook shallower than it |
| HookTrace.ContinueRunsFree | debugger/source/debug_execution_control.cpp:65-78 | after a continue no hook completes a step |
| HookTrace.StopReports | debugger/source/debug_execution_hooks.cpp:218-261 | every stop reports, by the history alone, an exception thrown since the last stop, else the stop on entry if due, else a pause if due, else the breakpoint hit, else a step if one was in force, with exactly its text and identifier |
| HookTrace.ExceptionShown | debugger/source/debug_execution_control.cpp:52-78 | the exception a client may ask about is that of the last stop for one, until the thread is resumed |
| HookTrace.PauseBreaks | debugger/source/debug_execution_control.cpp:191-203 | a pause asked of a running thread stops it at the next hook |
| HookTrace.PauseReported | debugger/source/debug_execution_hooks.cpp:223-246 | that stop is reported as a pause, or as the entry if that is still due, and a pause reported is no longer due |
| HookTrace.PauseReportedOnce | debugger/source/debug_execution_hooks.cpp:223-246 | before the first stop reported as a pause, and between any two, the thread was asked to pause while not stopped |
| HookTrace.PauseOfStopped | debugger/source/debug_execution_control.cpp:191-203 | a pause asked of a stopped thread changes nothing |
| HookTrace.EntryStops | debugger/source/debug_execution_hooks.cpp:223-246 | a thread that is to stop on entry stops at its first hook and reports the entry, once |
| Breakpoints.SnapExact | debugger/source/line_breakpoint_manager.cpp:15-27 | a line snaps to the least executable line not before it, or to the last of all |
| Breakpoints.SnapIdempotent | debugger/source/line_breakpoint_manager.cpp:15-27 | a snapped line stays where it is |
| Breakpoints.BindIds | debugger/source/line_breakpoint_manager.cpp:48-88 | replacing a file's breakpoints, each keeps an old identifier, takes its request's or gets a new one, and no two are the same |
| Breakpoints.BindCounts | debugger/source/line_breakpoint_manager.cpp:48-75 | a kept identifier keeps its hit count, any other starts at zero |
| BreakpointAdoption.Adopted | debugger/source/line_breakpoint_manager.cpp:48-88 | request by request: with r earlier requests for the same snapped line and condition fields, it gets identifier and hit count of the old breakpoint number r there; if there is none, zero hits and its own identifier or exactly the next unused one |
| BreakpointAdoption.NumbersUsed | debugger/source/line_breakpoint_manager.cpp:86-88 | exactly as many numbers are used up as requests are numbered |
| BreakpointAdoption.BucketKept | debugger/source/line_breakpoint_manager.cpp:48-71 | of the breakpoints on a line with the same fields, as many of the first ones as are still asked for stay as they are, whatever else the list adds or removes, and there are as many as asked for |
| BreakpointAdoption.SetAdopts | debugger/source/line_breakpoint_manager.cpp:92-152 | a list sent for a path leaves its requests there in order with their lines and fields, under the identifiers they were bound with or, where the path is no file, under their own or the next new ones; nothing else changes |
| BreakpointAdoption.BreakpointStays | debugger/source/line_breakpoint_manager.cpp:92-197 | over every stretch of every run in which each list sent for the file still asks for m breakpoints on a line with the same fields, the first m there keep their identifiers, and their counts are the old ones plus the hits since, saturated |
| BreakpointFields.FieldsNeverChange | debugger/source/line_breakpoint_manager.cpp:75-197 | over every run an identifier stands for one condition, hit condition and log message, wherever and whenever it is bound or pending |
| BreakpointFields.ResolvedAsAsked | debugger/source/line_breakpoint_manager.cpp:157-197 | in every run, after a resolution each request pending at a path that is a file is bound in that file under its identifier and with its fields |
| BreakpointFields.ResolutionAddsPending | debugger/source/line_breakpoint_manager.cpp:172-193 | what a resolution adds to a file follows what was there, and each is a request pending at a path naming the file, under its identifier, which was not bound there, on its snapped line, with its fields and no hits |
| BreakpointRuns.BoundIdsDistinct | debugger/source/line_breakpoint_manager.cpp:92-197 | over every run of replacements, resolutions, compilations and hits, with distinct negative pre-assigned identifiers, bound identifiers are pairwise distinct across all files and never 0 |
| BreakpointRuns.ResendChangesNothing | debugger/source/line_breakpoint_manager.cpp:99-132 | in every run, sending the same list again for a file changes no identifier, hit count or line, whatever came between as long as nothing was set for that file, its executable lines stayed and no other path naming it was resolved |
| BreakpointRuns.UnresolvedResend | debugger/source/line_breakpoint_manager.cpp:135-151 | for a path that is not a file this holds exactly when every request carries its identifier |
| BreakpointRuns.SecondResolveBindsNothing | debugger/source/line_breakpoint_manager.cpp:157-197 | a second resolution, in any order of the paths, binds nothing |
| BreakpointRuns.HitCountsExact | debugger/source/breakpoint_manager.cpp:88-154 | over every run each hit count is the saturated number of times its line was reached with its condition holding since it was bound |
| BreakpointManager.LineBreakpoints.SetBreakpoints | debugger/source/line_breakpoint_manager.cpp:92-152 | the whole new registry, that identifiers stay distinct, which old breakpoint each request of a file adopts, and that each response carries the identifier, verification and line recorded |
| BreakpointManager.LineBreakpoints.SetCompiledProgram | debugger/source/breakpoint_manager.cpp:26-32 | a new program that keeps the file of every path keeps the registry in order |
| BreakpointManager.LineBreakpoints.ResolvePending | debugger/source/line_breakpoint_manager.cpp:157-197 | the whole new registry after visiting the paths in the given order, and the list of exactly what was added to each file, each entry a request pending at a path naming that file, with its identifier, snapped line and fields and no hits |
| BreakpointManager.LineBreakpoints.RecordHit | debugger/source/line_breakpoint_manager.cpp:241-266 | counts one hit, saturating at the largest int, for the first breakpoint with this identifier on the line, or reports that there is none |
| BreakpointManager.LineBreakpoints.CheckBreakpoint | debugger/source/breakpoint_manager.cpp:88-154 | exactly the qualifying breakpoints of the line count a hit; every acting logpoint logs in order; the line stops at the first acting breakpoint that is no logpoint, and otherwise not; written out by conditions, so that a breakpoint of the line with no condition, hit condition or message always stops |
| Magnitude.MagTrim | core/common/decimal.cpp:16-20 | removes leading zeros and keeps the number |
| Magnitude.MagCompare | core/common/decimal.cpp:23-33 | compares trimmed magnitudes as numbers |
| Magnitude.MagAdd | core/common/decimal.cpp:36-50 | the sum of the numbers |
| Magnitude.MagSub | core/common/decimal.cpp:53-69 | the difference of the numbers, trimmed |
| Magnitude.MulRow | core/common/decimal.cpp:78-91 | one row of the product in place: every index in range and every carry at most 9 |
| Magnitude.MagMul | core/common/decimal.cpp:72-95 | the product of the numbers |
| Magnitude.MagMulSmall | core/common/decimal.cpp:98-115 | the product with one digit |
| Magnitude.MagShiftLeft | core/common/decimal.cpp:118-124 | multiplication by a power of ten |
| Magnitude.QuotientDigit | core/common/decimal.cpp:136-147 | the binary search finds the one digit q with q * d <= r < (q + 1) * d |
| Magnitude.MagDivmod | core/common/decimal.cpp:128-151 | n = q * d + r with r < d |
| Decimals.RoundingCorrect | core/common/decimal.cpp:157-182 | the increment decision implements each of the seven modes as defined over the reals |
| Decimals.RoundsToUnique | core/common/decimal.hpp:33-41 | each mode determines its result |
| Decimals.Normalized | core/common/decimal.cpp:250-257 | restores the representation invariant and keeps the coefficient |
| Decimals.Add | core/common/decimal.cpp:404-427 | the exact rational sum at the larger scale, invariant kept |
| Decimals.Subtract | core/common/decimal.cpp:428-430 | the exact rational difference, invariant kept |
| Decimals.Multiply | core/common/decimal.cpp:432-455 | the exact rational product at the summed scale; refused exactly beyond the digit cap |
| Decimals.Divide | core/common/decimal.cpp:457-504 | refused exactly for a zero divisor, a negative scale or operands beyond the cap; otherwise the exact quotient at the requested scale rounded as the mode specifies |
| Decimals.Round | core/common/decimal.cpp:506-565 | the exact value at the clamped number of places rounded as the mode specifies |
| Decimals.RoundIsDivideByOne | core/common/decimal.cpp:457-565 | rounding and dividing by one agree digit for digit in every mode whenever the division returns a value |
| Decimals.RoundBothWays | core/common/decimal.cpp:457-565 | calling both gives the same decimal, and the division refuses exactly beyond the cap |
| Decimals.CeilingOfNegation | core/common/decimal.cpp:506-565 | the ceiling of -x is minus the floor of x |
| Decimals.CeilingByFloor | core/common/decimal.cpp:506-565 | minus the floor of the negation is the ceiling |
| Decimals.Compare | core/common/decimal.cpp:567-581 | the three-way order of the exact rational values, whatever the scales |
| Decimals.Negate | core/common/decimal.cpp:583-589 | the negated value, invariant kept |
| Decimals.Canonical | core/common/decimal.cpp:604-615 | a form without insignificant fractional zeros and of the same value |
| Decimals.EqualIffSameCanonical | core/common/decimal.cpp:567-615 | two decimals compare equal exactly when their canonical forms are structurally identical |
| Decimals.SameCanonical | core/common/decimal.cpp:604-615 | comparing the computed canonical forms decides equality of values |
| DecimalText.SpellInjective | core/common/decimal.cpp:259-310 | the literal grammar is unambiguous |
| DecimalText.Parse | core/common/decimal.cpp:259-349 | accepts exactly the texts that spell a literal within the caps, and gives the decimal of the rational number spelled, at the scale the exponent leaves |
| DecimalText.ToString | core/common/decimal.cpp:364-397 | plain notation: sign, no exponent, exactly scale fraction digits, no superfluous leading zero, and the coefficient's digits |
| DecimalText.PrintUnique | core/common/decimal.cpp:364-397 | a value has one such text |
| DecimalText.RoundTrip | core/common/decimal.cpp:323-391 | parsing the printed text rebuilds sign, digits and scale exactly when the digits are within the cap and the scale is below it, and is refused otherwise |
| DecimalText.PrintAndParse | core/common/decimal.cpp:259-397 | printing and parsing again rebuilds the value, or is refused, under exactly that condition |
| DecimalText.ScaleAtCap | core/common/decimal.cpp:342-344 | every literal of scale exactly the cap is parsed, yet its printed form is refused |
| DecimalText.EdgeLiteral | core/common/decimal.cpp:342-344 | there is such a literal |
| DecimalText.SameHashText | core/common/decimal.cpp:604-619 | two decimals have the same hash input text exactly when they are equal in value |
| DecimalText.SameHash | core/common/decimal.cpp:604-619 | comparing the computed hash texts decides equality of values |
| Levenshtein.DistIsLeastCost | core/common/string_utils.cpp:12-14 | the recursive distance is the least cost of an edit script from one text to the other |
| Levenshtein.FillRow | core/common/string_utils.cpp:40-50 | one row of the table in place, and its least entry |
| Levenshtein.Distance | core/common/string_utils.cpp:21-72 | without threshold the distance; with one, the distance unless the lengths or a whole row exceed the threshold, and then one more than it |
| Levenshtein.Bounded | core/common/string_utils.cpp:52-61 | the answer is within the threshold exactly when the distance is, and then equals it; otherwise it is the distance or one past the threshold |
| Levenshtein.BeyondThreshold | core/common/string_utils.hpp:69-74 | beyond the threshold the answer is one past it exactly when the program gave up or the distance is that |
| Levenshtein.MayExceedByMore | core/common/string_utils.hpp:69-74 | pairs like "ab" and "bcd" with threshold 1 give 3 |
| Levenshtein.SuggestName | core/common/string_utils.cpp:74-97 | suggests the first candidate other than the needle at least true distance within the threshold, or nothing when there is none |
| Levenshtein.BestUnique | core/common/string_utils.cpp:79-90 | there is only one such candidate |
| Glob.GlobMatch | core/common/string_utils.hpp:158-186 | terminates; a true answer means the pattern matches, and the answer is exact whenever the pattern or the text has no star |
| Glob.TrueIsRight | core/common/string_utils.hpp:158-186 | a true answer always means that the pattern matches |
| Glob.RightWithoutStarInText | core/common/string_utils.hpp:165-182 | for texts without a star the answer is exact: remembering only the last star loses no match |
| Glob.RememberLive | core/common/string_utils.hpp:168-175 | forgetting an earlier star at a later one keeps a successful continuation |
| Glob.TextsJudgedRightly | core/common/string_utils.hpp:152-171 | all patterns are judged rightly on a text exactly when it has no star |
| Glob.PatternsJudgingRightly | core/common/string_utils.hpp:152-171 | a pattern is judged rightly on all texts exactly when it has no star |
| Utf8.EncodeShape | core/common/utf8.hpp:190-214 | encodings have the lead bytes and continuation ranges that section 4 of RFC 3629 permits |
| Utf8.ShapedIsEncoding | core/common/utf8.hpp:92-138 | every permitted byte run is the encoding of its payload, a scalar value |
| Utf8.PrefixFree | core/common/utf8.hpp:190-214 | no two scalar values have encodings that start the same text |
| Utf8.EncodeOrder | core/common/utf8.hpp:190-214 | byte order of encodings is the order of scalar values |
| Utf8.Decode | core/common/utf8.hpp:73-139 | yields the scalar value whose encoding stands at the position with its length, U+FFFD and 1 when none does, and U+FFFD and 0 at the end |
| Utf8.DecodeEncode | core/common/utf8.hpp:73-214 | decoding the concatenated encodings of any scalar values gives them back |
| Utf8.EncodeDecode | core/common/utf8.hpp:73-214 | re-encoding what was read gives the text back exactly when it is well formed |
| Utf8.NeverSkipsValidText | core/common/utf8.hpp:65-71 | valid text is read as itself whatever bytes precede it |
| Utf8.PieceLength | core/common/utf8_iterator.hpp:17-70 | on arbitrary bytes the walk splits the text into pieces of 1 to 4 bytes |
| Utf8.Iterator.Next | core/common/utf8_iterator.hpp:27-31 | yields the next value of the walk and moves past it, and stays put at the end with U+FFFD |
| Utf8.Iterator.Advance | core/common/utf8_iterator.hpp:35-37 | moves past one piece, stopping at the end |
| Utf8.CodepointCount | core/common/utf8.hpp:145-151 | the number of pieces |
| Utf8.ByteOffset | core/common/utf8_iterator.hpp:94-100 | the offset after n pieces, the start for negative n, saturating at the end |
| Utf8.CodepointIndex | core/common/utf8_iterator.hpp:106-113 | the number of the first piece boundary at or after the position |
| Utf8.IndexOfOffset | core/common/utf8_iterator.hpp:89-113 | the index of the offset of n pieces is n, saturating |
| Utf8.OffsetOfIndex | core/common/utf8_iterator.hpp:89-113 | the offset of the index of a position is the position exactly at piece boundaries, and the end of the text past it |
| Crc32.MakeTable | core/common/crc32.hpp:31-50 | each entry is the register after eight shifts of its index |
| Crc32.TableStep | core/common/crc32.hpp:69 | one lookup does the work of taking in a byte bit by bit |
| Crc32.Crc32Hash | core/common/crc32.hpp:65-73 | for every byte string the table-driven checksum is the bit-at-a-time one |
| Crc32.PolynomialTerms | core/common/crc32.hpp:27-34 | the constant holds exactly the generator's terms below the 32nd, reversed |
| Crc32.CheckValue | core/common/crc32.hpp:56-73 | the checksum of the digits 1 to 9 is 0xCBF43926, which fixes polynomial, bit order and both masks |
| Crc32.Affine | core/common/crc32.hpp:31-73 | for texts of one length the checksum of a xor b xor c is the xor of the three checksums |
| Crc32.BurstDetected | core/common/crc32.hpp:6-9 | a change confined to four consecutive bytes always changes the checksum |
| LruCaches.LruCache.Get | core/common/lru_cache.hpp:70-80 | the value if present, which moves to the front; nothing else changes |
| LruCaches.LruCache.Put | core/common/lru_cache.hpp:41-67 | the entry goes to the front, replacing the key's own entry or, in a full cache, the least recent one, and its value is returned |
| LruCaches.LruCache.Erase | core/common/lru_cache.hpp:88-99 | removes exactly the key's entry |
| LruCaches.LruCache.ContentsBounded | core/common/lru_cache.hpp:141-152 | list and index describe one duplicate-free recency sequence of at most the maximum size |
| LruCaches.NewCache | core/common/lru_cache.hpp:134-139 | refused exactly for a capacity of zero |
| LruCaches.Evaluator.LookupOrCompile | debugger/source/expression_evaluator.cpp:158-190 | answers as a plain compile would, counts the hit or miss, and caches successes only |
| LruCaches.LookupsAnswerCompile | debugger/source/expression_evaluator.cpp:158-190 | however the gets, compiles and puts of any number of lookups and cache clears interleave, each lookup answers as a plain compile would, and the cache holds nothing but compile results within its size |
| LruCaches.RecentByUse | core/common/lru_cache.hpp:147-149 | the recency list holds each successfully used key once, ordered by latest use |
| LruCaches.RunHoldsRecent | core/common/lru_cache.hpp:41-80 | a cache of any size holds the most recently used keys, as many as fit |
| LruCaches.Inclusion | core/common/lru_cache.hpp:41-80 | on one get-then-put-on-miss trace a smaller cache's recency list is a prefix of a larger one's |
| LruCaches.MoreRoomMoreHits | core/common/lru_cache.hpp:41-80 | so a larger cache never hits less often |
| LruLaws.HoldsLatest | core/common/lru_cache.hpp:41-105 | after every history of gets, puts, erases and clears the cache holds under each key what was last put there and not removed since, at most the maximum, in order of latest use |
| LruLaws.ComesAndGoes | core/common/lru_cache.hpp:41-105 | a key comes in exactly by being put; it leaves exactly by being erased or cleared, or as the least recently used of a full cache when a new key is put |

## Left out

- The compiler, VM, type checker, JSON, transport, stdio redirection and request parsing: the VM is an arbitrary source of hook events, and conditions, hit conditions and compilation are arbitrary functions or outcomes.
- VM pointers of threads and pause-check requests of the session model: they affect no lock, mark, counter or message.
- Weak-memory effects: steps are sequentially consistent.
- Liveness and fairness: that a woken thread is eventually scheduled is not stated.
- The disconnect callback and the message loop of the protocol handler: thin wrappers; only numbering and writing are modelled.
- Widths: identifiers, sequence numbers, scales and cache counters are unbounded integers; hit counts saturate as in the code.
- The line buckets of a file's breakpoints are one sequence in binding order; std::set and std::list iterators are ordered sequences and node identifiers.
- BreakpointManager.LineBreakpoints.CheckBreakpoint: the outcome of one check is stated without interference between its phases; what interference does to hit counts is covered in `BreakpointRuns.HitCountsExact`, where a check is any number of recording events.
- File paths and canonicalisation: a map from paths to files that only grows when the program is compiled.
- Exception breakpoint filters, response texts, log-message templates and the active flag: easy members.
- `from_double`, `to_double`, number formatting, hex, URL, Base64 and byte-order codecs, path, terminal and platform helpers, watch caching across display formats: floating-point library behaviour, operating-system calls or easy members.
