/**
 Which old breakpoint each request of a list adopts, without reference to the order
 of the search, and hence what a breakpoint that stays in the list keeps over runs.
 */
module BreakpointAdoption {
  import opened Breakpoints
  import opened BreakpointRuns

  // ----- one list -----

  predicate Alike(info: Info, line: int, fields: Fields) {
    info.line == line && info.fields == fields
  }

  predicate Wants(req: Request, executable: seq<int>, line: int, fields: Fields) {
    SnapLine(req.line, executable) == line && req.fields == fields
  }

  /** The breakpoints on a line with the same condition fields, in order. */
  function Bucket(infos: seq<Info>, line: int, fields: Fields): seq<Info>
    decreases |infos|
  {
    if infos == [] then []
    else (if Alike(infos[0], line, fields) then [infos[0]] else []) + Bucket(infos[1..], line, fields)
  }

  /** How many requests ask for a breakpoint there with those fields. */
  function Asked(reqs: seq<Request>, executable: seq<int>, line: int, fields: Fields): nat
    decreases |reqs|
  {
    if reqs == [] then 0
    else (if Wants(reqs[0], executable, line, fields) then 1 else 0) + Asked(reqs[1..], executable, line, fields)
  }

  /** The old breakpoints that request `k` could adopt. */
  function Candidates(prior: seq<Info>, reqs: seq<Request>, executable: seq<int>, k: nat): seq<Info>
    requires k < |reqs|
  {
    Bucket(prior, SnapLine(reqs[k].line, executable), reqs[k].fields)
  }

  /** How many requests before `k` ask for the same. */
  function Rank(reqs: seq<Request>, executable: seq<int>, k: nat): nat
    requires k < |reqs|
  {
    Asked(reqs[..k], executable, SnapLine(reqs[k].line, executable), reqs[k].fields)
  }

  /** Requests before `k` that get a new number: they bring none, and those before
      them that ask for the same already use up the old breakpoints. */
  function Numbered(prior: seq<Info>, reqs: seq<Request>, executable: seq<int>, k: nat): nat
    requires k <= |reqs|
  {
    if k == 0 then 0
    else
      Numbered(prior, reqs, executable, k - 1) +
      if reqs[k - 1].id == 0 && Rank(reqs, executable, k - 1) >= |Candidates(prior, reqs, executable, k - 1)| then 1
      else 0
  }

  /** What request `k` is bound as: if `r` requests before it ask for the same, it gets
      the identifier and hit count of the old breakpoint number `r` on that line with
      those fields; if there is none it starts at zero hits under its own identifier or,
      having none, under the next new one. */
  predicate Takes(info: Info, prior: seq<Info>, reqs: seq<Request>, executable: seq<int>, nextId: int, k: nat)
    requires k < |reqs|
  {
    var req, r, all := reqs[k], Rank(reqs, executable, k), Candidates(prior, reqs, executable, k);
    && info.line == SnapLine(req.line, executable) && info.fields == req.fields
    && if r < |all| then info.id == all[r].id && info.timesHit == all[r].timesHit
       else
         && info.timesHit == 0
         && info.id == if req.id != 0 then req.id else nextId + Numbered(prior, reqs, executable, k)
  }

  /** The old breakpoints left when a request has taken its match. */
  function Left(prior: seq<Info>, req: Request, executable: seq<int>): seq<Info> {
    var i := Match(prior, SnapLine(req.line, executable), req.fields);
    if i < |prior| then RemoveAt(prior, i) else prior
  }

  lemma {:induction false} MatchFirst(prior: seq<Info>, line: int, fields: Fields, l: int, g: Fields)
    ensures var i, same := Match(prior, line, fields), Bucket(prior, l, g);
            if i == |prior| then l == line && g == fields ==> same == []
            else if l == line && g == fields then same == [prior[i]] + Bucket(RemoveAt(prior, i), l, g)
            else Bucket(RemoveAt(prior, i), l, g) == same
    decreases |prior|
  {
    if prior != [] {
      var i := Match(prior, line, fields);
      if Alike(prior[0], line, fields) {
        assert RemoveAt(prior, i) == prior[1..];
      } else {
        MatchFirst(prior[1..], line, fields, l, g);
        if i < |prior| {
          assert RemoveAt(prior, i) == [prior[0]] + RemoveAt(prior[1..], i - 1);
        }
      }
    }
  }

  /** A request takes the first of those like it and no other. */
  lemma LeftBucket(prior: seq<Info>, req: Request, executable: seq<int>, line: int, fields: Fields)
    ensures var same, rest := Bucket(prior, line, fields), Bucket(Left(prior, req, executable), line, fields);
            var i := Match(prior, line, fields);
            if Wants(req, executable, line, fields)
            then if same == [] then i == |prior| && rest == []
                 else i < |prior| && prior[i] == same[0] && rest == same[1..]
            else rest == same
  {
    MatchFirst(prior, SnapLine(req.line, executable), req.fields, line, fields);
  }

  lemma RankShift(prior: seq<Info>, reqs: seq<Request>, executable: seq<int>, k: nat)
    requires 0 < k < |reqs|
    ensures var left := Left(prior, reqs[0], executable);
            var r, s := Rank(reqs, executable, k), Rank(reqs[1..], executable, k - 1);
            var all, rest := Candidates(prior, reqs, executable, k), Candidates(left, reqs[1..], executable, k - 1);
            && (r < |all| <==> s < |rest|)
            && (r < |all| ==> all[r] == rest[s])
  {
    LeftBucket(prior, reqs[0], executable, SnapLine(reqs[k].line, executable), reqs[k].fields);
    assert reqs[..k][1..] == reqs[1..][..k - 1];
  }

  lemma {:induction false} NumberedShift(prior: seq<Info>, reqs: seq<Request>, executable: seq<int>, k: nat)
    requires 0 < k <= |reqs|
    ensures Numbered(prior, reqs, executable, k) ==
            Numbered(prior, reqs, executable, 1) +
            Numbered(Left(prior, reqs[0], executable), reqs[1..], executable, k - 1)
  {
    if k > 1 {
      NumberedShift(prior, reqs, executable, k - 1);
      RankShift(prior, reqs, executable, k - 1);
    }
  }

  /** Binding a list does this for every request. */
  lemma {:induction false} Adopted(prior: seq<Info>, reqs: seq<Request>, executable: seq<int>, nextId: int, k: nat)
    requires k < |reqs|
    ensures Takes(Bind(prior, reqs, executable, nextId).infos[k], prior, reqs, executable, nextId, k)
    decreases |reqs|
  {
    if k == 0 {
      FirstTakes(prior, reqs, executable, nextId);
    } else {
      var left, next := Left(prior, reqs[0], executable), nextId + Numbered(prior, reqs, executable, 1);
      var info := Bind(left, reqs[1..], executable, next).infos[k - 1];
      Adopted(left, reqs[1..], executable, next, k - 1);
      TakesShift(info, prior, reqs, executable, nextId, k);
      NextNumber(prior, reqs, executable, nextId);
    }
  }

  lemma FirstTakes(prior: seq<Info>, reqs: seq<Request>, executable: seq<int>, nextId: int)
    requires reqs != []
    ensures Takes(Bind(prior, reqs, executable, nextId).infos[0], prior, reqs, executable, nextId, 0)
  {
    LeftBucket(prior, reqs[0], executable, SnapLine(reqs[0].line, executable), reqs[0].fields);
  }

  lemma TakesShift(info: Info, prior: seq<Info>, reqs: seq<Request>, executable: seq<int>, nextId: int, k: nat)
    requires 0 < k < |reqs|
    requires Takes(info, Left(prior, reqs[0], executable), reqs[1..], executable,
                   nextId + Numbered(prior, reqs, executable, 1), k - 1)
    ensures Takes(info, prior, reqs, executable, nextId, k)
  {
    RankShift(prior, reqs, executable, k);
    NumberedShift(prior, reqs, executable, k);
  }

  lemma NextNumber(prior: seq<Info>, reqs: seq<Request>, executable: seq<int>, nextId: int)
    requires reqs != []
    ensures var next := nextId + Numbered(prior, reqs, executable, 1);
            var rest := Bind(Left(prior, reqs[0], executable), reqs[1..], executable, next);
            var b := Bind(prior, reqs, executable, nextId);
            b.infos[1..] == rest.infos && b.nextId == rest.nextId
  {
    LeftBucket(prior, reqs[0], executable, SnapLine(reqs[0].line, executable), reqs[0].fields);
    assert Numbered(prior, reqs, executable, 0) == 0;
    assert Rank(reqs, executable, 0) == 0;
  }

  /** As many numbers are used up as requests are numbered. */
  lemma {:induction false} NumbersUsed(prior: seq<Info>, reqs: seq<Request>, executable: seq<int>, nextId: int)
    ensures Bind(prior, reqs, executable, nextId).nextId == nextId + Numbered(prior, reqs, executable, |reqs|)
    decreases |reqs|
  {
    if reqs != [] {
      var left, rest, n := Left(prior, reqs[0], executable), reqs[1..], Numbered(prior, reqs, executable, 1);
      var all := Numbered(prior, reqs, executable, |reqs|);
      NumbersUsed(left, rest, executable, nextId + n);
      NumberedShift(prior, reqs, executable, |reqs|);
      assert |rest| == |reqs| - 1;
      assert all == n + Numbered(left, rest, executable, |rest|);
      NextNumber(prior, reqs, executable, nextId);
    }
  }

  /** What a list sent for a path leaves there: its requests in order, each under the
      identifier it was bound with or, where the path is no file, under its own or the
      next new one.  Nothing else changes. */
  lemma SetAdopts(s: Registry, program: Program, path: Path, reqs: seq<Request>)
    ensures
      var t := Set(s, program, path, reqs);
      && t.pending.Keys == s.pending.Keys + {path}
      && (forall q | q in s.pending && q != path :: t.pending[q] == s.pending[q])
      && (forall g :: !IsFile(program, path, g) ==> BoundIn(t, g) == BoundIn(s, g))
      && |t.pending[path]| == |reqs|
      && (forall k | 0 <= k < |reqs| ::
            t.pending[path][k].line == reqs[k].line && t.pending[path][k].fields == reqs[k].fields)
      && if path in program.files then
           var f := program.files[path];
           && |BoundIn(t, f)| == |reqs|
           && forall k | 0 <= k < |reqs| ::
                && Takes(BoundIn(t, f)[k], BoundIn(s, f), reqs, Lines(program, f), s.nextId, k)
                && t.pending[path][k].id == BoundIn(t, f)[k].id
         else
           forall k | 0 <= k < |reqs| ::
             t.pending[path][k].id == if reqs[k].id != 0 then reqs[k].id else s.nextId + Numbered([], reqs, [], k)
  {
    var f := if path in program.files then program.files[path] else 0;
    var prior, executable := if path in program.files then BoundIn(s, f) else [],
                             if path in program.files then Lines(program, f) else [];
    forall k | 0 <= k < |reqs|
      ensures Takes(Bind(prior, reqs, executable, s.nextId).infos[k], prior, reqs, executable, s.nextId, k)
    {
      Adopted(prior, reqs, executable, s.nextId, k);
    }
  }

  /** So of the breakpoints on a line with the same fields, as many of the first ones as
      are still asked for stay as they are, whatever else the list adds or removes. */
  lemma {:induction false} BucketKept(
      prior: seq<Info>, reqs: seq<Request>, executable: seq<int>, nextId: int, line: int, fields: Fields)
    ensures
      var all, now := Bucket(prior, line, fields), Bucket(Bind(prior, reqs, executable, nextId).infos, line, fields);
      |now| == Asked(reqs, executable, line, fields) && Agree(all, now)
    decreases |reqs|
  {
    if reqs != [] {
      var left, next := Left(prior, reqs[0], executable), nextId + Numbered(prior, reqs, executable, 1);
      BucketKept(left, reqs[1..], executable, next, line, fields);
      BindHead(prior, reqs, executable, nextId, line, fields);
      AgreeCons(Bucket(prior, line, fields), Bucket(left, line, fields),
                Bucket(Bind(prior, reqs, executable, nextId).infos, line, fields),
                Bucket(Bind(left, reqs[1..], executable, next).infos, line, fields),
                Wants(reqs[0], executable, line, fields));
    }
  }

  /** As far as both go. */
  predicate Agree(a: seq<Info>, b: seq<Info>) {
    forall r | 0 <= r < |a| && r < |b| :: a[r] == b[r]
  }

  lemma AgreeCons(all: seq<Info>, left: seq<Info>, now: seq<Info>, rest: seq<Info>, wanted: bool)
    requires Agree(left, rest)
    requires if wanted then now != [] && now[1..] == rest else now == rest
    requires left == if wanted && all != [] then all[1..] else all
    requires wanted && all != [] ==> now[0] == all[0]
    ensures Agree(all, now)
  {
    if wanted {
      forall r | 0 <= r < |all| && r < |now| ensures all[r] == now[r] {
        assert r > 0 ==> all[1..][r - 1] == now[1..][r - 1];
      }
    }
  }

  lemma BindHead(prior: seq<Info>, reqs: seq<Request>, executable: seq<int>, nextId: int, line: int, fields: Fields)
    requires reqs != []
    ensures
      var left, next := Left(prior, reqs[0], executable), nextId + Numbered(prior, reqs, executable, 1);
      var all, wanted := Bucket(prior, line, fields), Wants(reqs[0], executable, line, fields);
      var now := Bucket(Bind(prior, reqs, executable, nextId).infos, line, fields);
      var rest := Bucket(Bind(left, reqs[1..], executable, next).infos, line, fields);
      && (if wanted then now != [] && now[1..] == rest else now == rest)
      && Bucket(left, line, fields) == (if wanted && all != [] then all[1..] else all)
      && (wanted && all != [] ==> now[0] == all[0])
  {
    LeftBucket(prior, reqs[0], executable, line, fields);
    NextNumber(prior, reqs, executable, nextId);
  }

  // ----- over runs -----

  lemma {:induction false} BucketAppend(a: seq<Info>, b: seq<Info>, line: int, fields: Fields)
    ensures Bucket(a + b, line, fields) == Bucket(a, line, fields) + Bucket(b, line, fields)
    decreases |a|
  {
    if a == [] {
      assert a + b == b;
    } else {
      BucketAppend(a[1..], b, line, fields);
      assert (a + b)[1..] == a[1..] + b;
    }
  }

  lemma {:induction false} BucketReach(infos: seq<Info>, at: int, hits: set<int>, line: int, fields: Fields)
    ensures var all, now := Bucket(infos, line, fields), Bucket(Reach(infos, at, hits), line, fields);
            |now| == |all| && forall r | 0 <= r < |all| :: now[r] == Counts(all[r], at, hits)
    decreases |infos|
  {
    if infos != [] {
      BucketReach(infos[1..], at, hits, line, fields);
      assert Reach(infos, at, hits)[1..] == Reach(infos[1..], at, hits);
    }
  }

  lemma {:induction false} ResolveExtends(s: Registry, program: Program, order: seq<Path>, used: set<int>, f: FileId)
    requires Inv(s, program, used) && forall i | 0 <= i < |order| :: order[i] in s.pending
    ensures BoundIn(s, f) <= BoundIn(Resolve(s, program, order), f)
    decreases |order|
  {
    if order != [] {
      var p := order[0];
      if p in program.files {
        PendingExtends(s, program, p, used);
      }
      ResolvePathKeeps(s, program, p, used);
      ResolveExtends(ResolvePath(s, program, p), program, order[1..], used, f);
    }
  }

  lemma {:induction false} BucketMember(infos: seq<Info>, line: int, fields: Fields, r: nat) returns (k: nat)
    requires r < |Bucket(infos, line, fields)|
    ensures k < |infos| && infos[k] == Bucket(infos, line, fields)[r] && Alike(infos[k], line, fields)
    decreases |infos|
  {
    if Alike(infos[0], line, fields) {
      if r == 0 {
        k := 0;
      } else {
        k := BucketMember(infos[1..], line, fields, r - 1);
        k := k + 1;
      }
    } else {
      k := BucketMember(infos[1..], line, fields, r);
      k := k + 1;
    }
  }

  /** The breakpoints of a file on a line with those fields. */
  function Here(w: World, f: FileId, line: int, fields: Fields): seq<Info> {
    Bucket(BoundIn(w.registry, f), line, fields)
  }

  /** A list sent for the file still asks for `m` breakpoints there with those fields. */
  predicate StillAsks(w: World, e: Event, f: FileId, line: int, fields: Fields, m: nat) {
    e.SetBreakpoints? && IsFile(w.program, e.path, f) ==> Asked(e.reqs, Lines(w.program, f), line, fields) >= m
  }

  /** The event records a hit of breakpoint `x` of that file and line. */
  predicate Strikes(e: Event, f: FileId, line: int, x: int) {
    e.ReachLine? && e.file == f && e.line == line && x in e.hits
  }

  function StrikesIn(events: seq<Event>, i: nat, j: nat, f: FileId, line: int, x: int): nat
    requires i <= j <= |events|
  {
    if i == j then 0
    else StrikesIn(events, i, j - 1, f, line, x) + if Strikes(events[j - 1], f, line, x) then 1 else 0
  }

  lemma StepKeepsBucket(w: World, e: Event, f: FileId, line: int, fields: Fields, m: nat, r: nat)
    requires WorldInv(w) && Enabled(w, e) && StillAsks(w, e, f, line, fields, m)
    requires r < m <= |Here(w, f, line, fields)|
    ensures var all, now := Here(w, f, line, fields), Here(Apply(w, e), f, line, fields);
            && |now| >= m
            && now[r] == if e.ReachLine? && e.file == f then Counts(all[r], e.line, e.hits) else all[r]
  {
    var infos := BoundIn(w.registry, f);
    match e
    case SetBreakpoints(path, reqs) =>
      if IsFile(w.program, path, f) {
        BucketKept(infos, reqs, Lines(w.program, f), w.registry.nextId, line, fields);
      }
    case ResolvePending(order) =>
      ResolveExtends(w.registry, w.program, order, w.used, f);
      var more := BoundIn(Apply(w, e).registry, f)[|infos|..];
      BucketAppend(infos, more, line, fields);
      assert BoundIn(Apply(w, e).registry, f) == infos + more;
    case ReachLine(g, at, hits) =>
      BucketReach(infos, at, hits, line, fields);
    case Compile(_) =>
  }

  /** Over every stretch of every run in which each list sent for the file still asks
      for `m` breakpoints on a line with the same fields, the first `m` there keep their
      identifiers, and their counts are the old ones plus the hits since, saturated,
      whatever else is set, removed, resolved or compiled meanwhile. */
  lemma {:induction false} BreakpointStays(
      run: seq<World>, events: seq<Event>, i: nat, j: nat, f: FileId, line: int, fields: Fields, m: nat, r: nat)
    requires IsRun(run, events) && i <= j <= |events| && r < m <= |Here(run[i], f, line, fields)|
    requires forall k | i <= k < j :: StillAsks(run[k], events[k], f, line, fields, m)
    ensures
      var before, after := Here(run[i], f, line, fields), Here(run[j], f, line, fields);
      && |after| >= m && after[r].id == before[r].id
      && after[r].timesHit ==
         Saturated(before[r].timesHit + StrikesIn(events, i, j, f, line, before[r].id))
  {
    if i == j {
      CountBounded(run, events, i, f, line, fields, r);
    } else {
      BreakpointStays(run, events, i, j - 1, f, line, fields, m, r);
      BoundIdsDistinct(run, events, j - 1);
      assert StepAt(run, events, j - 1);
      assert StillAsks(run[j - 1], events[j - 1], f, line, fields, m);
      StepKeepsBucket(run[j - 1], events[j - 1], f, line, fields, m, r);
      var k := BucketMember(BoundIn(run[j - 1].registry, f), line, fields, r);
    }
  }

  lemma CountBounded(run: seq<World>, events: seq<Event>, i: nat, f: FileId, line: int, fields: Fields, r: nat)
    requires IsRun(run, events) && i <= |events| && r < |Here(run[i], f, line, fields)|
    ensures Here(run[i], f, line, fields)[r].timesHit <= INT_MAX
  {
    var infos := BoundIn(run[i].registry, f);
    var k := BucketMember(infos, line, fields, r);
    assert Counted(infos, infos[k].id, infos[k].timesHit);
    HitCountsExact(run, events, i, f, infos[k].id, infos[k].timesHit);
  }
}
