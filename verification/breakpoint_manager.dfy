/**
 The breakpoint registry as the debugger updates it, proved against the registry's
 operations, and the check made when a line is reached.
 */
module BreakpointManager {
  import opened Options
  import opened Breakpoints
  import opened BreakpointRuns
  import opened BreakpointAdoption
  import opened BreakpointFields

  // ----- the registry as the debugger updates it -----

  /** What the client is told: the identifier, whether it is bound, and where. */
  datatype Response = Response(id: int, verified: bool, line: int, moved: bool)

  /** What reaching a line comes to. */
  datatype Outcome = Outcome(breaks: bool, hitId: int, logs: seq<string>)

  /** A breakpoint of the line that has just counted a hit and passes its hit condition. */
  predicate Acts(info: Info, line: int, hits: set<int>, gate: (string, nat) -> bool) {
    && info.line == line && info.id in hits
    && (info.fields.hitCondition == "" || gate(info.fields.hitCondition, info.timesHit))
  }

  predicate Stops(info: Info, line: int, hits: set<int>, gate: (string, nat) -> bool) {
    Acts(info, line, hits, gate) && info.fields.logMessage == ""
  }

  function LogsOf(infos: seq<Info>, line: int, hits: set<int>, gate: (string, nat) -> bool): seq<string> {
    if infos == [] then []
    else
      var last := infos[|infos| - 1];
      LogsOf(infos[..|infos| - 1], line, hits, gate) +
      if Acts(last, line, hits, gate) && last.fields.logMessage != "" then [last.fields.logMessage] else []
  }

  /** Every acting logpoint logs, in order; the line stops at the first acting breakpoint that is none. */
  predicate IsOutcome(r: Outcome, infos: seq<Info>, line: int, hits: set<int>, gate: (string, nat) -> bool) {
    && r.logs == LogsOf(infos, line, hits, gate)
    && if r.breaks
       then exists k | 0 <= k < |infos| ::
              && Stops(infos[k], line, hits, gate) && r.hitId == infos[k].id
              && forall j | 0 <= j < k :: !Stops(infos[j], line, hits, gate)
       else r.hitId == 0 && forall j | 0 <= j < |infos| :: !Stops(infos[j], line, hits, gate)
  }

  /** A breakpoint of the line whose condition, if any, holds and whose hit condition, if
      any, accepts the hits counted. */
  predicate Passes(info: Info, line: int, holds: set<int>, gate: (string, nat) -> bool) {
    && info.line == line && (info.fields.condition == "" || info.id in holds)
    && (info.fields.hitCondition == "" || gate(info.fields.hitCondition, info.timesHit))
  }

  /** What reaching a line comes to, by conditions: exactly the breakpoints of the line
      whose condition holds count a hit; the messages logged are those of the logpoints
      that pass; the thread stops exactly if another breakpoint passes, so at one with no
      condition, hit condition or message always. */
  ghost predicate Comes(
      r: Outcome, before: seq<Info>, after: seq<Info>, line: int, holds: set<int>, gate: (string, nat) -> bool)
  {
    && |after| == |before|
    && (forall i | 0 <= i < |before| ::
          var hit := before[i].line == line && (before[i].fields.condition == "" || before[i].id in holds);
          var times := before[i].timesHit;
          after[i] == before[i].(timesHit := if hit && times < INT_MAX then times + 1 else times))
    && (forall message :: message in r.logs <==>
          message != "" && exists i | 0 <= i < |after| ::
            Passes(after[i], line, holds, gate) && after[i].fields.logMessage == message)
    && (r.breaks <==> exists i | 0 <= i < |after| ::
          Passes(after[i], line, holds, gate) && after[i].fields.logMessage == "")
    && (forall i | 0 <= i < |after| :: after[i].line == line && after[i].fields == Fields("", "", "") ==> r.breaks)
  }

  datatype Single = Single(info: Info, left: seq<Info>, nextId: int)

  /** One request bound: the breakpoint, the old ones left, the next identifier. */
  function BindOne(prior: seq<Info>, req: Request, line: int, nextId: int): Single {
    var i := Match(prior, line, req.fields);
    if i < |prior| then Single(Info(prior[i].id, line, req.fields, prior[i].timesHit), RemoveAt(prior, i), nextId)
    else if req.id == 0 then Single(Info(nextId, line, req.fields, 0), prior, nextId + 1)
    else Single(Info(req.id, line, req.fields, 0), prior, nextId)
  }

  lemma BindNext(prior: seq<Info>, reqs: seq<Request>, k: nat, executable: seq<int>, nextId: int, done: seq<Info>)
    requires k < |reqs|
    ensures var one := BindOne(prior, reqs[k], SnapLine(reqs[k].line, executable), nextId);
            var rest := Bind(one.left, reqs[k + 1..], executable, one.nextId);
            var all := Bind(prior, reqs[k..], executable, nextId);
            done + all.infos == (done + [one.info]) + rest.infos && all.nextId == rest.nextId
  {
    assert reqs[k..][1..] == reqs[k + 1..];
  }

  /** A breakpoint that a resolution bound, and the line requested for it. */
  datatype Newly = Newly(file: FileId, info: Info, requested: int)

  /** Those of one file, in order. */
  function Of(newly: seq<Newly>, f: FileId): seq<Info> {
    if newly == [] then []
    else
      var last := newly[|newly| - 1];
      Of(newly[..|newly| - 1], f) + if last.file == f then [last.info] else []
  }

  predicate AllIn(newly: seq<Newly>, f: FileId) {
    forall k | 0 <= k < |newly| :: newly[k].file == f
  }

  /** Each is what one of these requests is bound as. */
  predicate AllAsked(newly: seq<Newly>, reqs: seq<Request>, executable: seq<int>) {
    forall k | 0 <= k < |newly| :: AskedBy(newly[k], reqs, executable)
  }

  predicate AskedBy(n: Newly, reqs: seq<Request>, executable: seq<int>) {
    exists i | 0 <= i < |reqs| :: n.requested == reqs[i].line && BindsAs(n.info, reqs[i], executable)
  }

  /** Each was pending, with an identifier, at a path that names its file. */
  ghost predicate AllPending(newly: seq<Newly>, pending: map<Path, seq<Request>>, program: Program) {
    forall k | 0 <= k < |newly| :: WasPending(newly[k], pending, program)
  }

  ghost predicate WasPending(n: Newly, pending: map<Path, seq<Request>>, program: Program) {
    exists p | p in pending ::
      && IsFile(program, p, n.file) && !Asks(pending[p], 0)
      && AskedBy(n, pending[p], Lines(program, n.file))
  }

  /** File by file, `t` has the breakpoints of `s` followed by exactly the new ones,
      each of them pending in `s`. */
  ghost predicate Added(s: Registry, t: Registry, program: Program, newly: seq<Newly>) {
    && AllPending(newly, s.pending, program) && t.pending == s.pending
    && forall f :: BoundIn(t, f) == BoundIn(s, f) + Of(newly, f)
  }

  lemma OfSnoc(newly: seq<Newly>, n: Newly, f: FileId)
    ensures Of(newly + [n], f) == Of(newly, f) + if n.file == f then [n.info] else []
  {
    assert (newly + [n])[..|newly|] == newly;
  }

  lemma {:induction false} OfAppend(a: seq<Newly>, b: seq<Newly>, f: FileId)
    ensures Of(a + b, f) == Of(a, f) + Of(b, f)
  {
    if b == [] {
      assert a + b == a;
    } else {
      var k := |b| - 1;
      assert a + b == (a + b[..k]) + [b[k]];
      OfAppend(a, b[..k], f);
      OfSnoc(a + b[..k], b[k], f);
    }
  }

  lemma {:induction false} OfOther(newly: seq<Newly>, f: FileId, g: FileId)
    requires AllIn(newly, f) && f != g
    ensures Of(newly, g) == []
  {
    if newly != [] {
      OfOther(newly[..|newly| - 1], f, g);
    }
  }

  lemma AddedTo(s: Registry, t: Registry, program: Program, newly: seq<Newly>, p: Path, f: FileId)
    requires IsFile(program, p, f) && p in s.pending && !Asks(s.pending[p], 0) && t.pending == s.pending
    requires AllIn(newly, f) && AllAsked(newly, s.pending[p], Lines(program, f))
    requires BoundIn(t, f) == BoundIn(s, f) + Of(newly, f) && forall g | g != f :: BoundIn(t, g) == BoundIn(s, g)
    ensures Added(s, t, program, newly)
  {
    forall k | 0 <= k < |newly| ensures WasPending(newly[k], s.pending, program) {
      assert AskedBy(newly[k], s.pending[p], Lines(program, f));
    }
    forall g
      ensures BoundIn(t, g) == BoundIn(s, g) + Of(newly, g)
    {
      if g != f {
        OfOther(newly, f, g);
      }
    }
  }

  lemma AddedTrans(s: Registry, t: Registry, u: Registry, program: Program, a: seq<Newly>, b: seq<Newly>)
    requires Added(s, t, program, a) && Added(t, u, program, b)
    ensures Added(s, u, program, a + b)
  {
    forall f
      ensures BoundIn(u, f) == BoundIn(s, f) + Of(a + b, f)
    {
      OfAppend(a, b, f);
    }
  }

  class LineBreakpoints {
    var bound: map<FileId, seq<Info>>
    var pending: map<Path, seq<Request>>
    var nextId: int
    var program: Program
    ghost var used: set<int>

    /** What every operation keeps: distinct identifiers, all of them issued. */
    ghost predicate Valid()
      reads this
    {
      Inv(View(), program, used)
    }

    ghost function View(): Registry
      reads this
    {
      Registry(bound, pending, nextId)
    }

    constructor (program: Program)
      ensures Valid() && View() == EMPTY && this.program == program && used == {}
    {
      bound, pending, nextId := map[], map[], 1;
      this.program := program;
      used := {};
    }

    /** A new program may add files and change lines, but keeps the file of every path. */
    method SetCompiledProgram(program: Program)
      requires Valid() && forall p | p in this.program.files :: IsFile(program, p, this.program.files[p])
      modifies this`program
      ensures Valid() && this.program == program
    {
      this.program := program;
    }

    /** Adopts the first match's identifier and hit count, consuming it, or numbers the request. */
    method PreserveHitCounts(prior: seq<Info>, req: Request, line: int) returns (info: Info, rest: seq<Info>)
      modifies this`nextId
      ensures Single(info, rest, nextId) == BindOne(prior, req, line, old(nextId))
    {
      var i := Match(prior, line, req.fields);
      if i < |prior| {
        return Info(prior[i].id, line, req.fields, prior[i].timesHit), RemoveAt(prior, i);
      }
      var id := req.id;
      if id == 0 {
        id := nextId;
        nextId := nextId + 1;
      }
      return Info(id, line, req.fields, 0), prior;
    }

    method BindRequests(prior: seq<Info>, reqs: seq<Request>, executable: seq<int>) returns (infos: seq<Info>)
      modifies this`nextId
      ensures Binding(infos, nextId) == Bind(prior, reqs, executable, old(nextId))
    {
      infos := [];
      var left := prior;
      for k := 0 to |reqs|
        invariant var rest := Bind(left, reqs[k..], executable, nextId);
                  Bind(prior, reqs, executable, old(nextId)) == Binding(infos + rest.infos, rest.nextId)
      {
        BindNext(left, reqs, k, executable, nextId, infos);
        var info, rest := PreserveHitCounts(left, reqs[k], SnapLine(reqs[k].line, executable));
        infos, left := infos + [info], rest;
      }
    }

    method SetBreakpoints(path: Path, reqs: seq<Request>) returns (r: seq<Response>)
      requires Valid() && FreshRequests(reqs, used)
      modifies this
      ensures Valid() && program == old(program) && used == old(used) + Preassigned(reqs)
      ensures View() == Set(old(View()), program, path, reqs)
      ensures |r| == |reqs| && forall i | 0 <= i < |reqs| :: r[i].id == pending[path][i].id
      ensures forall i | 0 <= i < |reqs| :: r[i].verified == (path in program.files)
      ensures forall i | 0 <= i < |reqs| ::
                if path in program.files
                then r[i].line == bound[program.files[path]][i].line && r[i].moved == (r[i].line != reqs[i].line)
                else r[i].line == reqs[i].line
      ensures path in program.files ==>
                var f := program.files[path];
                forall i | 0 <= i < |reqs| ::
                  Takes(bound[f][i], BoundIn(old(View()), f), reqs, Lines(program, f), old(nextId), i)
    {
      SetAdopts(View(), program, path, reqs);
      SetKeeps(View(), program, path, reqs, used);
      used := used + Preassigned(reqs);
      if path in program.files {
        var f := program.files[path];
        var prior := if f in bound then bound[f] else [];
        var executable := if f in program.executable then program.executable[f] else [];
        var infos := BindRequests(prior, reqs, executable);
        bound := bound[f := infos];
        pending := pending[path := StoredAs(reqs, infos)];
        return seq(|reqs|, i requires 0 <= i < |reqs| && |infos| == |reqs| =>
                     Response(infos[i].id, true, infos[i].line, infos[i].line != reqs[i].line));
      }
      var infos := BindRequests([], reqs, []);
      pending := pending[path := StoredAs(reqs, infos)];
      return seq(|reqs|, i requires 0 <= i < |reqs| && |infos| == |reqs| =>
                   Response(infos[i].id, false, reqs[i].line, false));
    }

    /** Binds what is not bound yet of one path, and says what that was. */
    method ResolveAt(path: Path) returns (newly: seq<Newly>)
      requires Valid() && path in pending
      modifies this
      ensures Valid() && program == old(program) && used == old(used)
      ensures View() == ResolvePath(old(View()), program, path)
      ensures Added(old(View()), View(), program, newly)
    {
      newly := [];
      ResolvePathKeeps(View(), program, path, used);
      if path !in program.files {
        return;
      }
      var f := program.files[path];
      var existing := if f in bound then bound[f] else [];
      var infos;
      infos, newly := BindMissing(existing, pending[path], f);
      bound := bound[f := infos];
      assert !PendingAt(old(View()), path, 0);
      AddedTo(old(View()), View(), program, newly, path, f);
    }

    method BindMissing(existing: seq<Info>, reqs: seq<Request>, f: FileId) returns (infos: seq<Info>, newly: seq<Newly>)
      modifies this`nextId
      ensures Binding(infos, nextId) == Extend(existing, reqs, Lines(program, f), old(nextId))
      ensures infos == existing + Of(newly, f) && AllIn(newly, f)
      ensures AllAsked(newly, reqs, Lines(program, f))
    {
      infos, newly := existing, [];
      var executable := if f in program.executable then program.executable[f] else [];
      for k := 0 to |reqs|
        invariant Extend(infos, reqs[k..], executable, nextId) == Extend(existing, reqs, executable, old(nextId))
        invariant infos == existing + Of(newly, f) && AllIn(newly, f)
        invariant AllAsked(newly, reqs, executable)
      {
        assert reqs[k..][1..] == reqs[k + 1..];
        var req := reqs[k];
        if !HasId(infos, req.id) {
          var id := req.id;
          if id == 0 {
            id := nextId;
            nextId := nextId + 1;
          }
          var info := Info(id, SnapLine(req.line, executable), req.fields, 0);
          infos := infos + [info];
          OfSnoc(newly, Newly(f, info, req.line), f);
          newly := newly + [Newly(f, info, req.line)];
          assert AskedBy(Newly(f, info, req.line), reqs, executable);
        }
      }
    }

    /** Visits the pending paths in some order; returns exactly what was added. */
    method ResolvePending(order: seq<Path>) returns (newly: seq<Newly>)
      requires Valid() && forall i | 0 <= i < |order| :: order[i] in pending
      modifies this
      ensures Valid() && program == old(program) && used == old(used)
      ensures View() == Resolve(old(View()), program, order)
      ensures Added(old(View()), View(), program, newly)
    {
      newly := [];
      for k := 0 to |order|
        invariant Valid() && pending == old(pending) && program == old(program) && used == old(used)
        invariant Resolve(View(), program, order[k..]) == Resolve(old(View()), program, order)
        invariant Added(old(View()), View(), program, newly)
      {
        assert order[k..][1..] == order[k + 1..];
        ghost var mid := View();
        var more := ResolveAt(order[k]);
        AddedTrans(old(View()), mid, View(), program, newly, more);
        newly := newly + more;
      }
    }

    /** Counts a hit, saturating, for the breakpoint with this identifier on the line. */
    method RecordHit(f: FileId, line: int, id: int) returns (r: Option<nat>)
      modifies this`bound
      ensures r.None? ==>
                && bound == old(bound)
                && (f in bound ==> forall i | 0 <= i < |bound[f]| :: bound[f][i].id != id || bound[f][i].line != line)
      ensures r.Some? ==>
                f in old(bound) && exists i | 0 <= i < |old(bound)[f]| ::
                  var info := old(bound)[f][i];
                  && info.id == id && info.line == line
                  && (forall j | 0 <= j < i :: old(bound)[f][j].id != id || old(bound)[f][j].line != line)
                  && r.value == (if info.timesHit < INT_MAX then info.timesHit + 1 else info.timesHit)
                  && bound == old(bound)[f := old(bound)[f][i := info.(timesHit := r.value)]]
    {
      if f !in bound {
        return None;
      }
      var infos := bound[f];
      for i := 0 to |infos|
        invariant bound == old(bound)
        invariant forall j | 0 <= j < i :: infos[j].id != id || infos[j].line != line
      {
        if infos[i].id == id && infos[i].line == line {
          var times := infos[i].timesHit;
          if times < INT_MAX {
            times := times + 1;
          }
          bound := bound[f := infos[i := infos[i].(timesHit := times)]];
          return Some(times);
        }
      }
      return None;
    }

    /** With distinct identifiers, the hit goes to the breakpoint meant. */
    method RecordHitAt(f: FileId, line: int, id: int, ghost i: nat) returns (r: Option<nat>)
      requires f in bound && DistinctIds(bound[f]) && i < |bound[f]| && bound[f][i].id == id && bound[f][i].line == line
      modifies this`bound
      ensures var info := old(bound)[f][i];
              && r == Some(if info.timesHit < INT_MAX then info.timesHit + 1 else info.timesHit)
              && bound == old(bound)[f := old(bound)[f][i := info.(timesHit := r.value)]]
    {
      r := RecordHit(f, line, id);
    }

    method CheckOne(
        f: FileId, line: int, holds: set<int>, gate: (string, nat) -> bool, info: Info, r: Outcome,
        ghost i: nat, ghost hits: set<int>)
      returns (r': Outcome)
      requires f in bound && DistinctIds(bound[f]) && i < |bound[f]| && bound[f][i] == info
      requires info.id in hits <==> Qualifies(info, holds)
      modifies this`bound
      ensures bound == old(bound)[f := old(bound)[f][i := Counts(info, line, hits)]]
      ensures r' == Acted(r, Counts(info, line, hits), line, hits, gate)
    {
      r' := r;
      assert old(bound)[f][i := info] == old(bound)[f] && old(bound)[f := old(bound)[f]] == old(bound);
      if info.line != line || !Qualifies(info, holds) {
        return;
      }
      var times := RecordHitAt(f, line, info.id, i);
      if info.fields.hitCondition != "" && !gate(info.fields.hitCondition, times.value) {
        return;
      }
      if info.fields.logMessage != "" {
        r' := r.(logs := r.logs + [info.fields.logMessage]);
      } else if !r.breaks {
        r' := r.(breaks := true, hitId := info.id);
      }
    }

    method CheckMatches(f: FileId, line: int, holds: set<int>, gate: (string, nat) -> bool) returns (r: Outcome)
      requires f in bound && DistinctIds(bound[f])
      modifies this`bound
      ensures var hits := Qualifying(old(bound)[f], holds);
              && bound == old(bound)[f := Reach(old(bound)[f], line, hits)]
              && r == OutcomeOf(Reach(old(bound)[f], line, hits), line, hits, gate)
    {
      r := Outcome(false, 0, []);
      var matches := bound[f];
      ghost var hits := Qualifying(matches, holds);
      MidEnds(matches, line, hits);
      UpdateTwice(bound, f, matches, matches);
      for i := 0 to |matches|
        invariant bound == old(bound)[f := Mid(matches, line, hits, i)]
        invariant r == OutcomeOf(Reach(matches, line, hits)[..i], line, hits, gate)
      {
        MidStep(matches, line, hits, i);
        OutcomeNext(Reach(matches, line, hits)[..i], Counts(matches[i], line, hits), line, hits, gate);
        UpdateTwice(old(bound), f, bound[f], Mid(matches, line, hits, i + 1));
        QualifyingExact(matches, holds, i);
        r := CheckOne(f, line, holds, gate, matches[i], r, i, hits);
      }
    }

    /** Reaching a line; `gate` decides hit conditions. */
    method CheckBreakpoint(f: FileId, line: int, holds: set<int>, gate: (string, nat) -> bool) returns (r: Outcome)
      requires Valid()
      modifies this`bound
      ensures Valid()
      ensures var hits := Qualifying(BoundIn(old(View()), f), holds);
              View() == Check(old(View()), f, line, hits) && IsOutcome(r, BoundIn(View(), f), line, hits, gate)
      ensures Comes(r, BoundIn(old(View()), f), BoundIn(View(), f), line, holds, gate)
    {
      if f !in bound {
        return Outcome(false, 0, []);
      }
      CheckKeeps(View(), program, f, line, Qualifying(bound[f], holds), used);
      r := CheckMatches(f, line, holds, gate);
      OutcomeIs(bound[f], line, Qualifying(old(bound)[f], holds), gate);
      OutcomeComes(r, old(bound)[f], line, holds, gate);
    }
  }

  function OutcomeOf(infos: seq<Info>, line: int, hits: set<int>, gate: (string, nat) -> bool): Outcome {
    if infos == [] then Outcome(false, 0, [])
    else Acted(OutcomeOf(infos[..|infos| - 1], line, hits, gate), infos[|infos| - 1], line, hits, gate)
  }

  lemma OutcomeNext(seen: seq<Info>, info: Info, line: int, hits: set<int>, gate: (string, nat) -> bool)
    ensures OutcomeOf(seen + [info], line, hits, gate) ==
            Acted(OutcomeOf(seen, line, hits, gate), info, line, hits, gate)
  {
    assert (seen + [info])[..|seen|] == seen;
  }

  lemma {:induction false} OutcomeIs(infos: seq<Info>, line: int, hits: set<int>, gate: (string, nat) -> bool)
    ensures IsOutcome(OutcomeOf(infos, line, hits, gate), infos, line, hits, gate)
  {
    if infos != [] {
      var seen, info := infos[..|infos| - 1], infos[|infos| - 1];
      OutcomeIs(seen, line, hits, gate);
      OutcomeStep(OutcomeOf(seen, line, hits, gate), seen, info, line, hits, gate);
      assert infos == seen + [info];
    }
  }

  lemma UpdateTwice(m: map<FileId, seq<Info>>, f: FileId, a: seq<Info>, b: seq<Info>)
    ensures m[f := a][f := b] == m[f := b]
    ensures f in m ==> m[f := m[f]] == m
  {}

  /** The breakpoints once the first `i` have been checked. */
  function Mid(matches: seq<Info>, line: int, hits: set<int>, i: nat): seq<Info>
    requires i <= |matches|
  {
    Reach(matches, line, hits)[..i] + matches[i..]
  }

  lemma MidEnds(matches: seq<Info>, line: int, hits: set<int>)
    ensures Mid(matches, line, hits, 0) == matches
    ensures Mid(matches, line, hits, |matches|) == Reach(matches, line, hits)
    ensures Reach(matches, line, hits)[..|matches|] == Reach(matches, line, hits)
  {}

  lemma MidStep(matches: seq<Info>, line: int, hits: set<int>, i: nat)
    requires i < |matches|
    ensures var mid, after := Mid(matches, line, hits, i), Reach(matches, line, hits);
            && (DistinctIds(matches) ==> DistinctIds(mid)) && |mid| == |matches| && mid[i] == matches[i]
            && mid[i := Counts(matches[i], line, hits)] == Mid(matches, line, hits, i + 1)
            && after[..i + 1] == after[..i] + [Counts(matches[i], line, hits)]
  {
    var mid := Mid(matches, line, hits, i);
    assert forall j | 0 <= j < |matches| :: mid[j].id == matches[j].id;
  }

  function Acted(r: Outcome, info: Info, line: int, hits: set<int>, gate: (string, nat) -> bool): Outcome {
    if !Acts(info, line, hits, gate) then r
    else if info.fields.logMessage != "" then r.(logs := r.logs + [info.fields.logMessage])
    else if r.breaks then r
    else r.(breaks := true, hitId := info.id)
  }

  lemma OutcomeStep(r: Outcome, seen: seq<Info>, info: Info, line: int, hits: set<int>, gate: (string, nat) -> bool)
    requires IsOutcome(r, seen, line, hits, gate)
    ensures IsOutcome(Acted(r, info, line, hits, gate), seen + [info], line, hits, gate)
  {
    var all := seen + [info];
    assert all[..|seen|] == seen && all[|seen|] == info;
    assert forall j | 0 <= j < |seen| :: all[j] == seen[j];
  }

  lemma ActsPasses(infos: seq<Info>, line: int, holds: set<int>, gate: (string, nat) -> bool, i: nat)
    requires DistinctIds(infos) && i < |infos|
    ensures var hits := Qualifying(infos, holds);
            var info := Reach(infos, line, hits)[i];
            Acts(info, line, hits, gate) <==> Passes(info, line, holds, gate)
  {
    QualifyingExact(infos, holds, i);
  }

  lemma {:induction false} LogsHold(
      infos: seq<Info>, line: int, hits: set<int>, gate: (string, nat) -> bool, message: string)
    ensures message in LogsOf(infos, line, hits, gate) <==>
            message != "" && exists i | 0 <= i < |infos| ::
              Acts(infos[i], line, hits, gate) && infos[i].fields.logMessage == message
  {
    if infos != [] {
      LogsHold(infos[..|infos| - 1], line, hits, gate, message);
    }
  }

  lemma OutcomeComes(r: Outcome, before: seq<Info>, line: int, holds: set<int>, gate: (string, nat) -> bool)
    requires DistinctIds(before)
    requires var hits := Qualifying(before, holds); IsOutcome(r, Reach(before, line, hits), line, hits, gate)
    ensures Comes(r, before, Reach(before, line, Qualifying(before, holds)), line, holds, gate)
  {
    var hits := Qualifying(before, holds);
    var after := Reach(before, line, hits);
    forall i | 0 <= i < |before|
      ensures Acts(after[i], line, hits, gate) <==> Passes(after[i], line, holds, gate)
      ensures before[i].id in hits <==> Qualifies(before[i], holds)
    {
      ActsPasses(before, line, holds, gate, i);
      QualifyingExact(before, holds, i);
    }
    forall message
      ensures message in r.logs <==>
              message != "" && exists i | 0 <= i < |after| ::
                Passes(after[i], line, holds, gate) && after[i].fields.logMessage == message
    {
      LogsHold(after, line, hits, gate, message);
    }
    assert r.breaks <==> exists i | 0 <= i < |after| :: Stops(after[i], line, hits, gate);
  }
}
