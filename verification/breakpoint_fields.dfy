/**
 What an identifier stands for: the condition, hit condition and log message it was
 given out for, in every list and every resolution of a run.
 */
module BreakpointFields {
  import opened Breakpoints
  import opened BreakpointRuns
  import opened BreakpointAdoption

  predicate BoundAs(infos: seq<Info>, x: int, fields: Fields) {
    exists k | 0 <= k < |infos| :: infos[k].id == x && infos[k].fields == fields
  }

  predicate AskedAs(reqs: seq<Request>, x: int, fields: Fields) {
    exists k | 0 <= k < |reqs| :: reqs[k].id == x && reqs[k].fields == fields
  }

  /** The registry has the identifier, bound or pending, with those fields. */
  ghost predicate Known(s: Registry, x: int, fields: Fields) {
    || (exists f | f in s.bound :: BoundAs(s.bound[f], x, fields))
    || (exists p | p in s.pending :: AskedAs(s.pending[p], x, fields))
  }

  ghost predicate GivenOut(w: World, x: int) {
    Issued(x, w.registry.nextId, w.used)
  }

  lemma KnownIssued(w: World, x: int, fields: Fields)
    requires WorldInv(w) && Known(w.registry, x, fields)
    ensures GivenOut(w, x)
  {
    var s := w.registry;
    if f :| f in s.bound && BoundAs(s.bound[f], x, fields) {
      assert BoundAt(s, f, x);
    } else {
      var p :| p in s.pending && AskedAs(s.pending[p], x, fields);
      assert PendingAt(s, p, x);
    }
  }

  // ----- a list -----

  lemma BindKnown(prior: seq<Info>, reqs: seq<Request>, executable: seq<int>, nextId: int, k: nat)
    requires k < |reqs|
    ensures var info := Bind(prior, reqs, executable, nextId).infos[k];
            BoundAs(prior, info.id, info.fields) || info.id == reqs[k].id != 0 || info.id >= nextId
  {
    var r, line, fields := Rank(reqs, executable, k), SnapLine(reqs[k].line, executable), reqs[k].fields;
    Adopted(prior, reqs, executable, nextId, k);
    if r < |Candidates(prior, reqs, executable, k)| {
      var m := BucketMember(prior, line, fields, r);
    }
  }

  /** What a list becomes: bound, or numbered until its path is a file. */
  function Results(w: World, path: Path, reqs: seq<Request>): seq<Info> {
    var s := w.registry;
    if path in w.program.files then
      var f := w.program.files[path];
      Bind(BoundIn(s, f), reqs, Lines(w.program, f), s.nextId).infos
    else Bind([], reqs, [], s.nextId).infos
  }

  lemma ResultsDistinct(w: World, path: Path, reqs: seq<Request>)
    requires WorldInv(w) && FreshRequests(reqs, w.used)
    ensures DistinctIds(Results(w, path, reqs))
  {
    var s := w.registry;
    if path in w.program.files {
      var f := w.program.files[path];
      forall x | HasId(BoundIn(s, f), x) ensures Issued(x, s.nextId, w.used) {
        assert BoundAt(s, f, x);
      }
      BindIds(BoundIn(s, f), reqs, Lines(w.program, f), s.nextId, w.used);
    } else {
      BindIds([], reqs, [], s.nextId, w.used);
    }
  }

  /** A result under an identifier given out before has the fields of that one. */
  lemma ResultKnown(w: World, path: Path, reqs: seq<Request>, x: int, fields: Fields)
    requires WorldInv(w) && FreshRequests(reqs, w.used) && BoundAs(Results(w, path, reqs), x, fields)
    ensures Known(w.registry, x, fields) || !GivenOut(w, x)
  {
    var s, infos := w.registry, Results(w, path, reqs);
    var k :| 0 <= k < |infos| && infos[k].id == x && infos[k].fields == fields;
    if path in w.program.files {
      var f := w.program.files[path];
      BindKnown(BoundIn(s, f), reqs, Lines(w.program, f), s.nextId, k);
    } else {
      BindKnown([], reqs, [], s.nextId, k);
    }
  }

  lemma StoredKnown(w: World, path: Path, reqs: seq<Request>, x: int, fields: Fields)
    requires AskedAs(Set(w.registry, w.program, path, reqs).pending[path], x, fields)
    ensures BoundAs(Results(w, path, reqs), x, fields)
  {
    var stored, infos := Set(w.registry, w.program, path, reqs).pending[path], Results(w, path, reqs);
    if path in w.program.files {
      var f := w.program.files[path];
      BindFulfils(BoundIn(w.registry, f), reqs, Lines(w.program, f), w.registry.nextId);
    } else {
      BindFulfils([], reqs, [], w.registry.nextId);
    }
    var k :| 0 <= k < |stored| && stored[k].id == x && stored[k].fields == fields;
    assert infos[k].id == x;
  }

  lemma SetKnown(w: World, path: Path, reqs: seq<Request>, x: int, fields: Fields)
    requires WorldInv(w) && FreshRequests(reqs, w.used)
    requires Known(Set(w.registry, w.program, path, reqs), x, fields)
    ensures Known(w.registry, x, fields) || (!GivenOut(w, x) && BoundAs(Results(w, path, reqs), x, fields))
  {
    var t := Set(w.registry, w.program, path, reqs);
    if AskedAs(t.pending[path], x, fields) {
      StoredKnown(w, path, reqs, x, fields);
    }
    if BoundAs(Results(w, path, reqs), x, fields) {
      ResultKnown(w, path, reqs, x, fields);
    } else if f :| f in t.bound && BoundAs(t.bound[f], x, fields) {
      assert t.bound[f] == w.registry.bound[f];
    } else {
      var p :| p in t.pending && AskedAs(t.pending[p], x, fields);
      assert t.pending[p] == w.registry.pending[p];
    }
  }

  // ----- a resolution -----

  /** The breakpoint that a pending request is bound as. */
  predicate BindsAs(info: Info, req: Request, executable: seq<int>) {
    && info.line == SnapLine(req.line, executable) && info.fields == req.fields && info.timesHit == 0
    && (req.id != 0 ==> info.id == req.id)
  }

  predicate BindsOne(info: Info, reqs: seq<Request>, executable: seq<int>) {
    exists k | 0 <= k < |reqs| :: BindsAs(info, reqs[k], executable)
  }

  /** A request pending at a path that names the file is bound as this breakpoint. */
  ghost predicate FromPending(pending: map<Path, seq<Request>>, program: Program, f: FileId, info: Info) {
    exists p | p in pending :: IsFile(program, p, f) && BindsOne(info, pending[p], Lines(program, f))
  }

  lemma {:induction false} ExtendBinds(
      existing: seq<Info>, reqs: seq<Request>, executable: seq<int>, nextId: int, i: nat)
    requires |existing| <= i < |Extend(existing, reqs, executable, nextId).infos|
    ensures BindsOne(Extend(existing, reqs, executable, nextId).infos[i], reqs, executable)
    decreases |reqs|
  {
    var req, rest, b := reqs[0], reqs[1..], Extend(existing, reqs, executable, nextId);
    if HasId(existing, req.id) {
      ExtendBinds(existing, rest, executable, nextId, i);
    } else {
      var id := if req.id == 0 then nextId else req.id;
      var more := existing + [Info(id, SnapLine(req.line, executable), req.fields, 0)];
      var next := if req.id == 0 then nextId + 1 else nextId;
      if i == |existing| {
        ExtendGrows(more, rest, executable, next);
        assert b.infos[i] == more[i];
        assert BindsAs(b.infos[i], reqs[0], executable);
      } else {
        ExtendBinds(more, rest, executable, next, i);
      }
    }
    if k :| 0 <= k < |rest| && BindsAs(b.infos[i], rest[k], executable) {
      assert BindsAs(b.infos[i], reqs[k + 1], executable);
    }
  }

  lemma {:induction false} ExtendGrows(existing: seq<Info>, reqs: seq<Request>, executable: seq<int>, nextId: int)
    ensures existing <= Extend(existing, reqs, executable, nextId).infos
    decreases |reqs|
  {
    if reqs != [] {
      var req, rest := reqs[0], reqs[1..];
      if HasId(existing, req.id) {
        ExtendGrows(existing, rest, executable, nextId);
      } else {
        var id := if req.id == 0 then nextId else req.id;
        var more := existing + [Info(id, SnapLine(req.line, executable), req.fields, 0)];
        ExtendGrows(more, rest, executable, if req.id == 0 then nextId + 1 else nextId);
        assert existing <= more;
      }
    }
  }

  /** Resolution adds, after what a file has, only what is pending at a path naming it. */
  lemma {:induction false} ResolveAdds(
      s: Registry, program: Program, order: seq<Path>, used: set<int>, f: FileId, i: nat)
    requires Inv(s, program, used) && forall i | 0 <= i < |order| :: order[i] in s.pending
    requires |BoundIn(s, f)| <= i < |BoundIn(Resolve(s, program, order), f)|
    ensures FromPending(s.pending, program, f, BoundIn(Resolve(s, program, order), f)[i])
    decreases |order|
  {
    var p := order[0];
    var t := ResolvePath(s, program, p);
    ResolvePathKeeps(s, program, p, used);
    ResolveExtends(t, program, order[1..], used, f);
    if i >= |BoundIn(t, f)| {
      ResolveAdds(t, program, order[1..], used, f, i);
    } else {
      assert IsFile(program, p, f);
      ExtendBinds(BoundIn(s, f), s.pending[p], Lines(program, f), s.nextId, i);
    }
  }

  lemma {:induction false} ResolveNumbers(s: Registry, program: Program, order: seq<Path>, used: set<int>)
    requires Inv(s, program, used) && forall i | 0 <= i < |order| :: order[i] in s.pending
    ensures Resolve(s, program, order).nextId == s.nextId && Resolve(s, program, order).pending == s.pending
    decreases |order|
  {
    if order != [] {
      var p := order[0];
      if p in program.files {
        PendingExtends(s, program, p, used);
      }
      ResolvePathKeeps(s, program, p, used);
      ResolveNumbers(ResolvePath(s, program, p), program, order[1..], used);
    }
  }

  /** Where it comes from, it is known under the same fields. */
  lemma PendingKnown(s: Registry, program: Program, used: set<int>, f: FileId, info: Info)
    requires Inv(s, program, used) && FromPending(s.pending, program, f, info)
    ensures Known(s, info.id, info.fields)
  {
    var p :| p in s.pending && IsFile(program, p, f) && BindsOne(info, s.pending[p], Lines(program, f));
    var k :| 0 <= k < |s.pending[p]| && BindsAs(info, s.pending[p][k], Lines(program, f));
    assert PendingAt(s, p, s.pending[p][k].id);
    assert AskedAs(s.pending[p], info.id, info.fields);
  }

  lemma ResolveKnown(s: Registry, program: Program, order: seq<Path>, used: set<int>, x: int, fields: Fields)
    requires Inv(s, program, used) && forall i | 0 <= i < |order| :: order[i] in s.pending
    requires Known(Resolve(s, program, order), x, fields)
    ensures Known(s, x, fields)
  {
    var t := Resolve(s, program, order);
    ResolveNumbers(s, program, order, used);
    if f :| f in t.bound && BoundAs(t.bound[f], x, fields) {
      var k :| 0 <= k < |t.bound[f]| && t.bound[f][k].id == x && t.bound[f][k].fields == fields;
      ResolveExtends(s, program, order, used, f);
      if k < |BoundIn(s, f)| {
        assert BoundIn(s, f)[k] == t.bound[f][k];
        assert BoundAs(s.bound[f], x, fields);
      } else {
        ResolveAdds(s, program, order, used, f, k);
        PendingKnown(s, program, used, f, t.bound[f][k]);
      }
    }
  }

  lemma CheckKnown(s: Registry, f: FileId, line: int, hits: set<int>, x: int, fields: Fields)
    requires Known(Check(s, f, line, hits), x, fields)
    ensures Known(s, x, fields)
  {
    var t := Check(s, f, line, hits);
    if g :| g in t.bound && BoundAs(t.bound[g], x, fields) {
      var k :| 0 <= k < |t.bound[g]| && t.bound[g][k].id == x && t.bound[g][k].fields == fields;
      assert s.bound[g][k].id == x && s.bound[g][k].fields == fields;
    }
  }

  // ----- over runs -----

  /** What is known after a step was known before, or is a new result of a list. */
  lemma StepKnown(w: World, e: Event, x: int, fields: Fields)
    requires WorldInv(w) && Enabled(w, e) && Known(Apply(w, e).registry, x, fields)
    ensures || Known(w.registry, x, fields)
            || (!GivenOut(w, x) && e.SetBreakpoints? && BoundAs(Results(w, e.path, e.reqs), x, fields))
  {
    match e
    case SetBreakpoints(path, reqs) => SetKnown(w, path, reqs, x, fields);
    case ResolvePending(order) => ResolveKnown(w.registry, w.program, order, w.used, x, fields);
    case ReachLine(f, line, hits) => CheckKnown(w.registry, f, line, hits, x, fields);
    case Compile(_) =>
  }

  lemma StepIssued(w: World, e: Event, x: int)
    requires WorldInv(w) && Enabled(w, e) && GivenOut(w, x)
    ensures GivenOut(Apply(w, e), x)
  {
    match e
    case SetBreakpoints(path, reqs) =>
      if path in w.program.files {
        var f := w.program.files[path];
        NumbersUsed(BoundIn(w.registry, f), reqs, Lines(w.program, f), w.registry.nextId);
      } else {
        NumbersUsed([], reqs, [], w.registry.nextId);
      }
    case ResolvePending(order) => ResolveNumbers(w.registry, w.program, order, w.used);
    case _ =>
  }

  lemma {:induction false} IssuedStays(run: seq<World>, events: seq<Event>, i: nat, j: nat, x: int)
    requires IsRun(run, events) && i <= j <= |events| && GivenOut(run[i], x)
    ensures GivenOut(run[j], x)
  {
    if i < j {
      IssuedStays(run, events, i, j - 1, x);
      BoundIdsDistinct(run, events, j - 1);
      assert StepAt(run, events, j - 1);
      StepIssued(run[j - 1], events[j - 1], x);
    }
  }

  lemma {:induction false} OneMeaning(run: seq<World>, events: seq<Event>, i: nat, x: int, a: Fields, b: Fields)
    requires IsRun(run, events) && i <= |events|
    requires Known(run[i].registry, x, a) && Known(run[i].registry, x, b)
    ensures a == b
  {
    if i > 0 {
      var w, e := run[i - 1], events[i - 1];
      BoundIdsDistinct(run, events, i - 1);
      assert StepAt(run, events, i - 1);
      StepKnown(w, e, x, a);
      StepKnown(w, e, x, b);
      if GivenOut(w, x) {
        OneMeaning(run, events, i - 1, x, a, b);
      } else {
        NewMeaning(w, e, x, a, b);
      }
    }
  }

  lemma NewMeaning(w: World, e: Event, x: int, a: Fields, b: Fields)
    requires WorldInv(w) && Enabled(w, e) && !GivenOut(w, x)
    requires Known(Apply(w, e).registry, x, a) && Known(Apply(w, e).registry, x, b)
    ensures a == b
  {
    StepKnown(w, e, x, a);
    StepKnown(w, e, x, b);
    if Known(w.registry, x, a) {
      KnownIssued(w, x, a);
    } else if Known(w.registry, x, b) {
      KnownIssued(w, x, b);
    } else {
      ResultsDistinct(w, e.path, e.reqs);
    }
  }

  /** Over every run an identifier stands for one condition, hit condition and log
      message, wherever and whenever it is bound or pending. */
  lemma {:induction false} FieldsNeverChange(
      run: seq<World>, events: seq<Event>, i: nat, j: nat, x: int, a: Fields, b: Fields)
    requires IsRun(run, events) && i <= j <= |events|
    requires Known(run[i].registry, x, a) && Known(run[j].registry, x, b)
    ensures a == b
  {
    if i == j {
      OneMeaning(run, events, i, x, a, b);
    } else {
      BoundIdsDistinct(run, events, i);
      KnownIssued(run[i], x, a);
      IssuedStays(run, events, i, j - 1, x);
      BoundIdsDistinct(run, events, j - 1);
      assert StepAt(run, events, j - 1);
      StepKnown(run[j - 1], events[j - 1], x, b);
      FieldsNeverChange(run, events, i, j - 1, x, a, b);
    }
  }

  /** In every run, after a resolution each request pending at a path that is a file is
      bound in that file under its identifier, with its condition fields. */
  lemma ResolvedAsAsked(run: seq<World>, events: seq<Event>, i: nat, p: Path, k: nat)
    requires IsRun(run, events) && i < |events| && events[i].ResolvePending?
    requires p in run[i].registry.pending && k < |run[i].registry.pending[p]| && p in run[i].program.files
    ensures var req := run[i].registry.pending[p][k];
            BoundAs(BoundIn(run[i + 1].registry, run[i].program.files[p]), req.id, req.fields)
  {
    var w, order := run[i], events[i].order;
    var t, f, req := run[i + 1].registry, w.program.files[p], w.registry.pending[p][k];
    BoundIdsDistinct(run, events, i);
    assert StepAt(run, events, i);
    ResolveSettles(w.registry, w.program, order, w.used);
    assert p in order && Settled(t, w.program, p);
    assert PendingAt(t, p, req.id) && AskedAs(t.pending[p], req.id, req.fields);
    assert BoundAt(t, f, req.id);
    var a :| 0 <= a < |t.bound[f]| && t.bound[f][a].id == req.id;
    assert BoundAs(t.bound[f], req.id, t.bound[f][a].fields);
    OneMeaning(run, events, i + 1, req.id, t.bound[f][a].fields, req.fields);
  }

  /** What a resolution adds to a file follows what was there, and each is a request
      pending at a path naming the file, with its identifier, which was not bound
      before, on the line it snaps to, with its fields and no hits. */
  lemma ResolutionAddsPending(run: seq<World>, events: seq<Event>, i: nat, f: FileId, a: nat)
    requires IsRun(run, events) && i < |events| && events[i].ResolvePending?
    requires |BoundIn(run[i].registry, f)| <= a < |BoundIn(run[i + 1].registry, f)|
    ensures BoundIn(run[i].registry, f) <= BoundIn(run[i + 1].registry, f)
    ensures FromPending(run[i].registry.pending, run[i].program, f, BoundIn(run[i + 1].registry, f)[a])
    ensures !BoundAt(run[i].registry, f, BoundIn(run[i + 1].registry, f)[a].id)
    ensures forall p | p in run[i].registry.pending :: !Asks(run[i].registry.pending[p], 0)
  {
    var w, order := run[i], events[i].order;
    BoundIdsDistinct(run, events, i);
    BoundIdsDistinct(run, events, i + 1);
    assert StepAt(run, events, i);
    ResolveExtends(w.registry, w.program, order, w.used, f);
    ResolveAdds(w.registry, w.program, order, w.used, f, a);
    forall p | p in w.registry.pending ensures !Asks(w.registry.pending[p], 0) {
      assert !PendingAt(w.registry, p, 0);
    }
  }
}
