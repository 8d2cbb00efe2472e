/**
 What every run of replacements, resolutions, compilations and hits keeps of the
 breakpoint registry: distinct identifiers, settled requests and exact hit counts.
 */
module BreakpointRuns {
  import opened Breakpoints

  // ----- what every run keeps -----

  predicate BoundAt(s: Registry, f: FileId, x: int) {
    f in s.bound && HasId(s.bound[f], x)
  }

  predicate PendingAt(s: Registry, p: Path, x: int) {
    p in s.pending && Asks(s.pending[p], x)
  }

  ghost predicate AllDistinct(s: Registry) {
    && (forall f | f in s.bound :: DistinctIds(s.bound[f]))
    && (forall f, g, x :: BoundAt(s, f, x) && BoundAt(s, g, x) ==> f == g)
  }

  predicate IsFile(program: Program, p: Path, f: FileId) {
    p in program.files && program.files[p] == f
  }

  ghost predicate Inv(s: Registry, program: Program, used: set<int>) {
    && s.nextId > 0 && AllDistinct(s) && (forall x | x in used :: x < 0)
    && (forall f, x | BoundAt(s, f, x) :: Issued(x, s.nextId, used))
    && (forall p, x | PendingAt(s, p, x) :: Issued(x, s.nextId, used))
    && (forall p, f, x | PendingAt(s, p, x) && BoundAt(s, f, x) :: IsFile(program, p, f))
    && (forall p, q, x | PendingAt(s, p, x) && PendingAt(s, q, x) && p != q ::
          p in program.files && IsFile(program, q, program.files[p]))
  }

  function Preassigned(reqs: seq<Request>): set<int> {
    set i | 0 <= i < |reqs| && reqs[i].id != 0 :: reqs[i].id
  }

  lemma StoredIds(reqs: seq<Request>, infos: seq<Info>, x: int)
    requires |reqs| == |infos|
    ensures Asks(StoredAs(reqs, infos), x) <==> HasId(infos, x)
  {
    var r := StoredAs(reqs, infos);
    if i :| 0 <= i < |infos| && infos[i].id == x {
      assert r[i].id == x;
    }
    if i :| 0 <= i < |r| && r[i].id == x {
      assert infos[i].id == x;
    }
  }

  /** `t` differs from `s` in what is pending for `p` and, if that is a file `f`, in
      what is bound in it: both now have the identifiers of `infos`. */
  ghost predicate Replaced(s: Registry, t: Registry, program: Program, p: Path, infos: seq<Info>) {
    && (forall q, x :: PendingAt(t, q, x) <==> if q == p then HasId(infos, x) else PendingAt(s, q, x))
    && (forall g, x :: BoundAt(t, g, x) <==> if IsFile(program, p, g) then HasId(infos, x) else BoundAt(s, g, x))
  }

  /** Where the identifiers of a replacement come from. */
  ghost predicate Sourced(
      s: Registry, program: Program, p: Path, infos: seq<Info>, next: int, used: set<int>, used': set<int>)
  {
    && next >= s.nextId && used <= used' && (forall x | x in used' :: x < 0)
    && forall x | HasId(infos, x) ::
         || (p in program.files && BoundAt(s, program.files[p], x))
         || s.nextId <= x < next || (x in used' && x !in used)
  }

  lemma ReplacedInv(
      s: Registry, t: Registry, program: Program, p: Path, infos: seq<Info>, used: set<int>, used': set<int>)
    requires Inv(s, program, used) && Replaced(s, t, program, p, infos)
    requires Sourced(s, program, p, infos, t.nextId, used, used')
    requires forall f | f in t.bound :: DistinctIds(t.bound[f])
    ensures Inv(t, program, used')
  {
    assert forall x | Issued(x, s.nextId, used) && HasId(infos, x) ::
        p in program.files && BoundAt(s, program.files[p], x);
  }

  lemma SetReplaces(s: Registry, program: Program, path: Path, reqs: seq<Request>, f: FileId)
    requires IsFile(program, path, f)
    ensures Replaced(s, Set(s, program, path, reqs), program, path,
                     Bind(BoundIn(s, f), reqs, Lines(program, f), s.nextId).infos)
  {
    var t, infos := Set(s, program, path, reqs), Bind(BoundIn(s, f), reqs, Lines(program, f), s.nextId).infos;
    forall x ensures Asks(t.pending[path], x) <==> HasId(infos, x) {
      StoredIds(reqs, infos, x);
    }
  }

  lemma SetKeeps(s: Registry, program: Program, path: Path, reqs: seq<Request>, used: set<int>)
    requires Inv(s, program, used) && FreshRequests(reqs, used)
    ensures Inv(Set(s, program, path, reqs), program, used + Preassigned(reqs))
  {
    if path in program.files {
      SetBoundKeeps(s, program, path, reqs, used, program.files[path]);
    } else {
      SetPendingKeeps(s, program, path, reqs, used);
    }
  }

  lemma SetBoundKeeps(s: Registry, program: Program, path: Path, reqs: seq<Request>, used: set<int>, f: FileId)
    requires Inv(s, program, used) && FreshRequests(reqs, used) && IsFile(program, path, f)
    ensures Inv(Set(s, program, path, reqs), program, used + Preassigned(reqs))
  {
    var t := Set(s, program, path, reqs);
    forall x | HasId(BoundIn(s, f), x) ensures Issued(x, s.nextId, used) {
      assert BoundAt(s, f, x);
    }
    BindIds(BoundIn(s, f), reqs, Lines(program, f), s.nextId, used);
    SetReplaces(s, program, path, reqs, f);
    ReplacedInv(s, t, program, path, t.bound[f], used, used + Preassigned(reqs));
  }

  lemma SetPendingKeeps(s: Registry, program: Program, path: Path, reqs: seq<Request>, used: set<int>)
    requires Inv(s, program, used) && FreshRequests(reqs, used) && path !in program.files
    ensures Inv(Set(s, program, path, reqs), program, used + Preassigned(reqs))
  {
    var t, infos := Set(s, program, path, reqs), Bind([], reqs, [], s.nextId).infos;
    BindIds([], reqs, [], s.nextId, used);
    forall x ensures Asks(t.pending[path], x) <==> HasId(infos, x) {
      StoredIds(reqs, infos, x);
    }
    ReplacedInv(s, t, program, path, infos, used, used + Preassigned(reqs));
  }

  // ----- resolution -----

  lemma SnocIds(rest: seq<Info>, a: Info, x: int)
    ensures HasId(rest + [a], x) <==> HasId(rest, x) || a.id == x
    ensures DistinctIds(rest) && !HasId(rest, a.id) ==> DistinctIds(rest + [a])
  {
    var s := rest + [a];
    assert s[|rest|] == a && forall i | 0 <= i < |rest| :: s[i] == rest[i];
    if i :| 0 <= i < |rest| && rest[i].id == x {
      assert s[i].id == x;
    }
  }

  /** Resolution adds the identifiers not bound yet, with no hits, and nothing else. */
  lemma {:induction false} ExtendIds(existing: seq<Info>, reqs: seq<Request>, executable: seq<int>, nextId: int)
    requires DistinctIds(existing) && !Asks(reqs, 0)
    ensures var b := Extend(existing, reqs, executable, nextId);
            && b.nextId == nextId && DistinctIds(b.infos) && existing <= b.infos
            && (forall x :: HasId(b.infos, x) <==> HasId(existing, x) || Asks(reqs, x))
            && (forall i | |existing| <= i < |b.infos| :: b.infos[i].timesHit == 0)
    decreases |reqs|
  {
    if reqs != [] {
      var req, rest := reqs[0], reqs[1..];
      AsksHead(reqs);
      if HasId(existing, req.id) {
        ExtendIds(existing, rest, executable, nextId);
      } else {
        var info := Info(req.id, SnapLine(req.line, executable), req.fields, 0);
        forall x ensures HasId(existing + [info], x) <==> HasId(existing, x) || x == req.id {
          SnocIds(existing, info, x);
        }
        SnocIds(existing, info, 0);
        ExtendIds(existing + [info], rest, executable, nextId);
        assert existing <= existing + [info];
      }
    }
  }

  lemma AsksHead(reqs: seq<Request>)
    requires reqs != []
    ensures forall x :: Asks(reqs, x) <==> x == reqs[0].id || Asks(reqs[1..], x)
  {
    var rest := reqs[1..];
    forall x ensures Asks(reqs, x) <==> x == reqs[0].id || Asks(rest, x) {
      if i :| 0 <= i < |rest| && rest[i].id == x {
        assert reqs[i + 1].id == x;
      }
      if i :| 0 <= i < |reqs| && reqs[i].id == x {
        assert i > 0 ==> rest[i - 1].id == x;
      }
    }
  }

  lemma ResolvePathKeeps(s: Registry, program: Program, p: Path, used: set<int>)
    requires Inv(s, program, used) && p in s.pending
    ensures Inv(ResolvePath(s, program, p), program, used)
  {
    if p in program.files {
      var f := program.files[p];
      var t := ResolvePath(s, program, p);
      PendingExtends(s, program, p, used);
      assert forall g, x :: BoundAt(t, g, x) <==> BoundAt(s, g, x) || (g == f && PendingAt(s, p, x));
      assert forall q, x :: PendingAt(t, q, x) <==> PendingAt(s, q, x);
    }
  }

  lemma PendingExtends(s: Registry, program: Program, p: Path, used: set<int>)
    requires Inv(s, program, used) && p in s.pending && p in program.files
    ensures var f := program.files[p];
            var b := Extend(BoundIn(s, f), s.pending[p], Lines(program, f), s.nextId);
            && b.nextId == s.nextId && DistinctIds(b.infos) && BoundIn(s, f) <= b.infos
            && (forall x :: HasId(b.infos, x) <==> BoundAt(s, f, x) || PendingAt(s, p, x))
            && (forall i | |BoundIn(s, f)| <= i < |b.infos| :: b.infos[i].timesHit == 0)
  {
    assert !PendingAt(s, p, 0);
    ExtendIds(BoundIn(s, program.files[p]), s.pending[p], Lines(program, program.files[p]), s.nextId);
  }

  lemma {:induction false} ResolveKeeps(s: Registry, program: Program, order: seq<Path>, used: set<int>)
    requires Inv(s, program, used) && forall i | 0 <= i < |order| :: order[i] in s.pending
    ensures Inv(Resolve(s, program, order), program, used)
    decreases |order|
  {
    if order != [] {
      ResolvePathKeeps(s, program, order[0], used);
      ResolveKeeps(ResolvePath(s, program, order[0]), program, order[1..], used);
    }
  }

  /** Everything asked for at a path that is a file is bound in that file. */
  ghost predicate Settled(s: Registry, program: Program, p: Path) {
    p in s.pending && (p in program.files ==>
      program.files[p] in s.bound && forall x | PendingAt(s, p, x) :: BoundAt(s, program.files[p], x))
  }

  lemma ResolvePathSettles(s: Registry, program: Program, p: Path, used: set<int>)
    requires Inv(s, program, used) && p in s.pending
    ensures Settled(ResolvePath(s, program, p), program, p)
    ensures forall q | Settled(s, program, q) :: Settled(ResolvePath(s, program, p), program, q)
  {
    if p in program.files {
      var t := ResolvePath(s, program, p);
      PendingExtends(s, program, p, used);
      assert forall g, x | BoundAt(s, g, x) :: BoundAt(t, g, x);
      assert forall q, x | PendingAt(t, q, x) :: PendingAt(s, q, x);
    }
  }

  lemma {:induction false} ResolveSettles(s: Registry, program: Program, order: seq<Path>, used: set<int>)
    requires Inv(s, program, used) && forall i | 0 <= i < |order| :: order[i] in s.pending
    ensures forall p | p in order || Settled(s, program, p) :: Settled(Resolve(s, program, order), program, p)
    ensures Resolve(s, program, order).pending == s.pending
    decreases |order|
  {
    if order != [] {
      var p := order[0];
      ResolvePathKeeps(s, program, p, used);
      ResolvePathSettles(s, program, p, used);
      ResolveSettles(ResolvePath(s, program, p), program, order[1..], used);
    }
  }

  lemma {:induction false} NothingToExtend(existing: seq<Info>, reqs: seq<Request>, executable: seq<int>, nextId: int)
    requires forall i | 0 <= i < |reqs| :: HasId(existing, reqs[i].id)
    ensures Extend(existing, reqs, executable, nextId) == Binding(existing, nextId)
    decreases |reqs|
  {
    if reqs != [] {
      NothingToExtend(existing, reqs[1..], executable, nextId);
    }
  }

  lemma SettledStays(s: Registry, program: Program, p: Path)
    requires Settled(s, program, p)
    ensures ResolvePath(s, program, p) == s
  {
    if p in program.files {
      var f, reqs := program.files[p], s.pending[p];
      forall i | 0 <= i < |reqs| ensures HasId(s.bound[f], reqs[i].id) {
        assert PendingAt(s, p, reqs[i].id);
        assert BoundAt(s, f, reqs[i].id);
      }
      NothingToExtend(s.bound[f], reqs, Lines(program, f), s.nextId);
      assert s.bound[f := s.bound[f]] == s.bound;
    }
  }

  lemma {:induction false} AllSettledStays(s: Registry, program: Program, order: seq<Path>)
    requires forall i | 0 <= i < |order| :: order[i] in s.pending && Settled(s, program, order[i])
    ensures Resolve(s, program, order) == s
    decreases |order|
  {
    if order != [] {
      SettledStays(s, program, order[0]);
      AllSettledStays(s, program, order[1..]);
    }
  }

  /** A second resolution, in whatever order, binds nothing. */
  lemma SecondResolveBindsNothing(s: Registry, program: Program, first: seq<Path>, second: seq<Path>, used: set<int>)
    requires Inv(s, program, used)
    requires forall p :: p in first <==> p in s.pending
    requires forall p | p in second :: p in s.pending
    ensures var t := Resolve(s, program, first);
            t.pending == s.pending && Resolve(t, program, second) == t
  {
    ResolveSettles(s, program, first, used);
    AllSettledStays(Resolve(s, program, first), program, second);
  }

  // ----- hits -----

  lemma ReachIds(infos: seq<Info>, line: int, hits: set<int>)
    ensures forall x :: HasId(Reach(infos, line, hits), x) <==> HasId(infos, x)
    ensures DistinctIds(infos) ==> DistinctIds(Reach(infos, line, hits))
  {
    var r := Reach(infos, line, hits);
    assert forall i | 0 <= i < |infos| :: r[i].id == infos[i].id;
    forall x ensures HasId(r, x) <==> HasId(infos, x) {
      if i :| 0 <= i < |infos| && infos[i].id == x {
        assert r[i].id == x;
      }
      if i :| 0 <= i < |r| && r[i].id == x {
        assert infos[i].id == x;
      }
    }
  }

  lemma CheckKeeps(s: Registry, program: Program, f: FileId, line: int, hits: set<int>, used: set<int>)
    requires Inv(s, program, used)
    ensures Inv(Check(s, f, line, hits), program, used)
  {
    if f in s.bound {
      var t := Check(s, f, line, hits);
      ReachIds(s.bound[f], line, hits);
      assert forall g, x :: BoundAt(t, g, x) <==> BoundAt(s, g, x);
      assert forall q, x :: PendingAt(t, q, x) <==> PendingAt(s, q, x);
    }
  }

  // ----- runs -----

  /** A check whose steps interleave with other requests is several `ReachLine`
      events, each recording some of the hits. */
  datatype Event =
    | SetBreakpoints(path: Path, reqs: seq<Request>)
    | ResolvePending(order: seq<Path>)
    | ReachLine(file: FileId, line: int, hits: set<int>)
    | Compile(program: Program)

  datatype World = World(registry: Registry, program: Program, used: set<int>)

  /** Pre-assigned identifiers are new; resolution visits every pending path;
      compiling never changes the file of a path that already has one. */
  ghost predicate Enabled(w: World, e: Event) {
    match e
    case SetBreakpoints(_, reqs) => FreshRequests(reqs, w.used)
    case ResolvePending(order) => forall p :: p in order <==> p in w.registry.pending
    case ReachLine(_, _, _) => true
    case Compile(program) => forall p | p in w.program.files :: IsFile(program, p, w.program.files[p])
  }

  ghost function Apply(w: World, e: Event): World
    requires Enabled(w, e)
  {
    match e
    case SetBreakpoints(path, reqs) =>
      World(Set(w.registry, w.program, path, reqs), w.program, w.used + Preassigned(reqs))
    case ResolvePending(order) => w.(registry := Resolve(w.registry, w.program, order))
    case ReachLine(f, line, hits) => w.(registry := Check(w.registry, f, line, hits))
    case Compile(program) => w.(program := program)
  }

  const EMPTY := Registry(map[], map[], 1)

  ghost predicate StepAt(run: seq<World>, events: seq<Event>, i: nat)
    requires i < |events| < |run|
  {
    Enabled(run[i], events[i]) && run[i + 1] == Apply(run[i], events[i])
  }

  ghost predicate IsRun(run: seq<World>, events: seq<Event>) {
    && |run| == |events| + 1 && run[0].registry == EMPTY && run[0].used == {}
    && forall i | 0 <= i < |events| :: StepAt(run, events, i)
  }

  ghost predicate WorldInv(w: World) {
    Inv(w.registry, w.program, w.used)
  }

  lemma StepKeeps(w: World, e: Event)
    requires WorldInv(w) && Enabled(w, e)
    ensures WorldInv(Apply(w, e))
  {
    match e
    case SetBreakpoints(path, reqs) => SetKeeps(w.registry, w.program, path, reqs, w.used);
    case ResolvePending(order) => ResolveKeeps(w.registry, w.program, order, w.used);
    case ReachLine(f, line, hits) => CheckKeeps(w.registry, w.program, f, line, hits, w.used);
    case Compile(program) =>
  }

  /** Over every run, no two bound breakpoints have the same identifier, and none
      has the reserved identifier 0. */
  lemma {:induction false} BoundIdsDistinct(run: seq<World>, events: seq<Event>, i: nat)
    requires IsRun(run, events) && i <= |events|
    ensures WorldInv(run[i]) && AllDistinct(run[i].registry)
    ensures forall f :: !BoundAt(run[i].registry, f, 0)
  {
    if i > 0 {
      BoundIdsDistinct(run, events, i - 1);
      assert StepAt(run, events, i - 1);
      StepKeeps(run[i - 1], events[i - 1]);
    }
  }

  // ----- sending a list again -----

  datatype Arrival = Arrival(file: FileId, line: int, hits: set<int>)

  /** The registry holds what a request list for `path` asks for, under the
      identifiers recorded for the path. */
  predicate Serves(s: Registry, program: Program, path: Path, reqs: seq<Request>)
    requires path in program.files
  {
    var f := program.files[path];
    && f in s.bound && Fulfils(s.bound[f], reqs, Lines(program, f))
    && path in s.pending && s.pending[path] == StoredAs(reqs, s.bound[f])
  }

  lemma CheckServes(s: Registry, program: Program, path: Path, reqs: seq<Request>, a: Arrival)
    requires path in program.files && Serves(s, program, path, reqs)
    ensures Serves(Check(s, a.file, a.line, a.hits), program, path, reqs)
  {}

  /** Between two sends: nothing is set for the file, its executable lines stay, and no
      other path naming it is resolved. */
  ghost predicate Undisturbed(w: World, e: Event, path: Path, f: FileId) {
    match e
    case SetBreakpoints(q, _) => q != path && !IsFile(w.program, q, f)
    case ResolvePending(order) => forall q | q in order && q != path :: !IsFile(w.program, q, f)
    case ReachLine(_, _, _) => true
    case Compile(program) => Lines(program, f) == Lines(w.program, f)
  }

  lemma ServesAll(s: Registry, program: Program, path: Path, reqs: seq<Request>)
    requires path in program.files && Serves(s, program, path, reqs)
    ensures Settled(s, program, path)
  {
    var f := program.files[path];
    forall x | PendingAt(s, path, x)
      ensures BoundAt(s, f, x)
    {
      StoredIds(reqs, s.bound[f], x);
    }
  }

  lemma ResolvePathServes(s: Registry, program: Program, path: Path, reqs: seq<Request>, q: Path)
    requires path in program.files && Serves(s, program, path, reqs) && q in s.pending
    requires q != path ==> !IsFile(program, q, program.files[path])
    ensures Serves(ResolvePath(s, program, q), program, path, reqs)
  {
    if q == path {
      ServesAll(s, program, path, reqs);
      SettledStays(s, program, path);
    }
  }

  lemma {:induction false} ResolveServes(
      s: Registry, program: Program, path: Path, reqs: seq<Request>, order: seq<Path>)
    requires path in program.files && Serves(s, program, path, reqs)
    requires forall i | 0 <= i < |order| :: order[i] in s.pending
    requires forall i | 0 <= i < |order| :: order[i] != path ==> !IsFile(program, order[i], program.files[path])
    ensures Serves(Resolve(s, program, order), program, path, reqs)
    decreases |order|
  {
    if order != [] {
      ResolvePathServes(s, program, path, reqs, order[0]);
      ResolveServes(ResolvePath(s, program, order[0]), program, path, reqs, order[1..]);
    }
  }

  lemma UndisturbedServes(w: World, e: Event, path: Path, reqs: seq<Request>)
    requires Enabled(w, e) && path in w.program.files && Serves(w.registry, w.program, path, reqs)
    requires Undisturbed(w, e, path, w.program.files[path])
    ensures var w' := Apply(w, e);
            IsFile(w'.program, path, w.program.files[path]) && Serves(w'.registry, w'.program, path, reqs)
  {
    match e
    case SetBreakpoints(_, _) =>
    case ResolvePending(order) => ResolveServes(w.registry, w.program, path, reqs, order);
    case ReachLine(f, line, hits) => CheckServes(w.registry, w.program, path, reqs, Arrival(f, line, hits));
    case Compile(_) =>
  }

  lemma {:induction false} ServesInRun(
      run: seq<World>, events: seq<Event>, i: nat, j: nat, path: Path, reqs: seq<Request>, f: FileId)
    requires IsRun(run, events) && i < j <= |events|
    requires events[i] == SetBreakpoints(path, reqs) && IsFile(run[i].program, path, f)
    requires forall k | i < k < j :: Undisturbed(run[k], events[k], path, f)
    ensures IsFile(run[j].program, path, f) && Serves(run[j].registry, run[j].program, path, reqs)
  {
    assert StepAt(run, events, j - 1);
    if j == i + 1 {
      BindFulfils(BoundIn(run[i].registry, f), reqs, Lines(run[i].program, f), run[i].registry.nextId);
    } else {
      ServesInRun(run, events, i, j - 1, path, reqs, f);
      assert Undisturbed(run[j - 1], events[j - 1], path, f);
      UndisturbedServes(run[j - 1], events[j - 1], path, reqs);
    }
  }

  lemma ServedStays(s: Registry, program: Program, path: Path, reqs: seq<Request>)
    requires path in program.files && Serves(s, program, path, reqs)
    ensures Set(s, program, path, reqs) == s
  {
    var f := program.files[path];
    Rebind(s.bound[f], reqs, Lines(program, f), s.nextId);
    assert s.bound[f := s.bound[f]] == s.bound;
    assert s.pending[path := s.pending[path]] == s.pending;
  }

  /** In every run, sending the same list for a file again changes nothing, no
      identifier, hit count or line, whatever came between as long as it set nothing
      for that file and left its executable lines alone. */
  lemma ResendChangesNothing(
      run: seq<World>, events: seq<Event>, i: nat, j: nat, path: Path, reqs: seq<Request>, f: FileId)
    requires IsRun(run, events) && i < j <= |events|
    requires events[i] == SetBreakpoints(path, reqs) && IsFile(run[i].program, path, f)
    requires forall k | i < k < j :: Undisturbed(run[k], events[k], path, f)
    ensures Set(run[j].registry, run[j].program, path, reqs) == run[j].registry
  {
    ServesInRun(run, events, i, j, path, reqs, f);
    ServedStays(run[j].registry, run[j].program, path, reqs);
  }

  /** For a path that is not a file yet this holds exactly when every request
      carries its identifier: the others are numbered anew each time. */
  lemma UnresolvedResend(s: Registry, program: Program, path: Path, reqs: seq<Request>)
    requires path !in program.files
    ensures var t := Set(s, program, path, reqs);
            Set(t, program, path, reqs) == t <==> !Asks(reqs, 0)
  {
    var t := Set(s, program, path, reqs);
    BindNumbers(reqs, s.nextId, t.nextId);
    BindNumbers(reqs, t.nextId, t.nextId);
    assert t.pending[path := t.pending[path]] == t.pending;
  }

  lemma {:induction false} BindNumbers(reqs: seq<Request>, nextId: int, other: int)
    ensures Bind([], reqs, [], nextId).nextId >= nextId
    ensures Bind([], reqs, [], nextId).nextId == nextId <==> !Asks(reqs, 0)
    ensures !Asks(reqs, 0) ==> Bind([], reqs, [], nextId).infos == Bind([], reqs, [], other).infos
    decreases |reqs|
  {
    if reqs != [] {
      AsksHead(reqs);
      BindNumbers(reqs[1..], if reqs[0].id == 0 then nextId + 1 else nextId, other);
    }
  }

  // ----- hit counts over runs -----

  ghost predicate IsBound(w: World, x: int) {
    exists f :: BoundAt(w.registry, f, x)
  }

  /** The event records a hit of breakpoint `x`: its line was reached with its condition holding. */
  predicate Fires(w: World, e: Event, x: int) {
    && e.ReachLine? && e.file in w.registry.bound
    && exists i | 0 <= i < |w.registry.bound[e.file]| ::
         var info := w.registry.bound[e.file][i];
         info.id == x && info.line == e.line && info.id in e.hits
  }

  /** How often `x` has fired since it was bound. */
  ghost function Fired(run: seq<World>, events: seq<Event>, i: nat, x: int): nat
    requires i <= |events| < |run|
  {
    if i == 0 || !IsBound(run[i - 1], x) then 0
    else Fired(run, events, i - 1, x) + if Fires(run[i - 1], events[i - 1], x) then 1 else 0
  }

  /** A breakpoint bound afterwards was bound before with the same count, or was
      not bound at all and has none. */
  ghost predicate Carried(s: Registry, t: Registry) {
    forall f, x, n :: f in t.bound && Counted(t.bound[f], x, n) ==>
      if BoundAt(s, f, x) then Counted(s.bound[f], x, n) else n == 0 && forall g :: !BoundAt(s, g, x)
  }

  lemma CountedHas(infos: seq<Info>, x: int, n: nat)
    requires Counted(infos, x, n)
    ensures HasId(infos, x)
  {}

  lemma SetCarries(s: Registry, program: Program, path: Path, reqs: seq<Request>, used: set<int>)
    requires Inv(s, program, used) && FreshRequests(reqs, used)
    ensures Carried(s, Set(s, program, path, reqs))
  {
    var t := Set(s, program, path, reqs);
    if path in program.files {
      var file := program.files[path];
      var prior := BoundIn(s, file);
      forall x | HasId(prior, x) ensures Issued(x, s.nextId, used) {
        assert BoundAt(s, file, x);
      }
      BindIds(prior, reqs, Lines(program, file), s.nextId, used);
      forall x, n | Counted(t.bound[file], x, n)
        ensures if BoundAt(s, file, x) then Counted(prior, x, n) else n == 0 && forall g :: !BoundAt(s, g, x)
      {
        CountedHas(t.bound[file], x, n);
        BindCounts(prior, reqs, Lines(program, file), s.nextId, used, x, n);
      }
    }
    forall f, x, n | f in t.bound && !IsFile(program, path, f) && Counted(t.bound[f], x, n) ensures BoundAt(s, f, x) {
      CountedHas(t.bound[f], x, n);
    }
  }

  lemma ResolvePathCarries(s: Registry, program: Program, p: Path, used: set<int>)
    requires Inv(s, program, used) && p in s.pending
    ensures Carried(s, ResolvePath(s, program, p))
  {
    var t := ResolvePath(s, program, p);
    if p in program.files {
      PendingExtends(s, program, p, used);
    }
    forall f, x, n | f in t.bound && Counted(t.bound[f], x, n)
      ensures if BoundAt(s, f, x) then Counted(s.bound[f], x, n) else n == 0 && forall g :: !BoundAt(s, g, x)
    {
      var i :| 0 <= i < |t.bound[f]| && t.bound[f][i].id == x && t.bound[f][i].timesHit == n;
      assert BoundAt(t, f, x);
      if i < |BoundIn(s, f)| {
        assert BoundIn(s, f)[i] == t.bound[f][i];
      } else {
        assert forall j | 0 <= j < |BoundIn(s, f)| :: BoundIn(s, f)[j] == t.bound[f][j];
        assert PendingAt(s, p, x);
      }
    }
  }

  lemma CarriedTrans(s: Registry, t: Registry, u: Registry)
    requires Carried(s, t) && Carried(t, u) && forall f, x | BoundAt(s, f, x) :: BoundAt(t, f, x)
    ensures Carried(s, u)
  {
    forall f, x, n | f in u.bound && Counted(u.bound[f], x, n)
      ensures if BoundAt(s, f, x) then Counted(s.bound[f], x, n) else n == 0 && forall g :: !BoundAt(s, g, x)
    {
      if BoundAt(t, f, x) {
        assert Counted(t.bound[f], x, n);
      }
    }
  }

  lemma {:induction false} ResolveCarries(s: Registry, program: Program, order: seq<Path>, used: set<int>)
    requires Inv(s, program, used) && forall i | 0 <= i < |order| :: order[i] in s.pending
    ensures Carried(s, Resolve(s, program, order))
    decreases |order|
  {
    if order == [] {
      forall f, x, n | f in s.bound && Counted(s.bound[f], x, n) ensures BoundAt(s, f, x) {
        CountedHas(s.bound[f], x, n);
      }
    } else {
      var p := order[0];
      var t := ResolvePath(s, program, p);
      ResolvePathCarries(s, program, p, used);
      ResolvePathKeeps(s, program, p, used);
      if p in program.files {
        PendingExtends(s, program, p, used);
      }
      ResolveCarries(t, program, order[1..], used);
      CarriedTrans(s, t, Resolve(t, program, order[1..]));
    }
  }

  /** Over every run each hit count is the number of times the line was reached
      with the condition holding since the breakpoint was bound, saturated. */
  lemma {:induction false} HitCountsExact(run: seq<World>, events: seq<Event>, i: nat, f: FileId, x: int, n: nat)
    requires IsRun(run, events) && i <= |events|
    requires f in run[i].registry.bound && Counted(run[i].registry.bound[f], x, n)
    ensures n == Saturated(Fired(run, events, i, x))
  {
    if i > 0 {
      var w, e := run[i - 1], events[i - 1];
      BoundIdsDistinct(run, events, i - 1);
      assert StepAt(run, events, i - 1);
      CountedHas(run[i].registry.bound[f], x, n);
      if e.ReachLine? {
        var m := ReachCounts(w, e, f, x, n);
        assert BoundAt(w.registry, f, x);
        HitCountsExact(run, events, i - 1, f, x, m);
      } else {
        StepCarries(w, e);
        if BoundAt(w.registry, f, x) {
          HitCountsExact(run, events, i - 1, f, x, n);
        }
      }
    }
  }

  lemma StepCarries(w: World, e: Event)
    requires WorldInv(w) && Enabled(w, e) && !e.ReachLine?
    ensures Carried(w.registry, Apply(w, e).registry)
  {
    match e
    case SetBreakpoints(path, reqs) => SetCarries(w.registry, w.program, path, reqs, w.used);
    case ResolvePending(order) => ResolveCarries(w.registry, w.program, order, w.used);
    case Compile(program) => ResolveCarries(w.registry, w.program, [], w.used);
  }

  lemma ReachCounts(w: World, e: Event, f: FileId, x: int, n: nat) returns (m: nat)
    requires WorldInv(w) && e.ReachLine? && f in w.registry.bound && Enabled(w, e)
    requires Counted(Apply(w, e).registry.bound[f], x, n)
    ensures Counted(w.registry.bound[f], x, m)
    ensures n == if Fires(w, e, x) then (if m < INT_MAX then m + 1 else m) else m
  {
    var before, after := w.registry.bound[f], Apply(w, e).registry.bound[f];
    var i :| 0 <= i < |after| && after[i].id == x && after[i].timesHit == n;
    m := before[i].timesHit;
    assert before[i].id == x;
    assert BoundAt(w.registry, f, x);
    if Fires(w, e, x) {
      assert BoundAt(w.registry, e.file, x);
    }
  }
}
