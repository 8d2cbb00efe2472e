/**
 The line-breakpoint registry: pending requests by path, bound breakpoints by
 file, the identifiers given to the client, and hit counts.  The buckets that hold
 a file's breakpoints line by line are one sequence per file in order of binding;
 the bucket of a line is its subsequence with that line.
 */
module Breakpoints {
  type Path = string

  type FileId = nat

  datatype Fields = Fields(condition: string, hitCondition: string, logMessage: string)

  datatype Request = Request(line: int, fields: Fields, id: int)

  datatype Info = Info(id: int, line: int, fields: Fields, timesHit: nat)

  /** Which paths are files of the program, and the executable lines of each file in order. */
  datatype Program = Program(files: map<Path, FileId>, executable: map<FileId, seq<int>>)

  datatype Registry = Registry(bound: map<FileId, seq<Info>>, pending: map<Path, seq<Request>>, nextId: int)

  const INT_MAX: nat := 0x7FFF_FFFF

  // ----- snapping -----

  predicate Ascending(s: seq<int>) {
    forall i, j | 0 <= i < j < |s| :: s[i] < s[j]
  }

  /** The nearest executable line at or after the requested one, or else the last. */
  function SnapLine(requested: int, executable: seq<int>): (line: int)
    ensures executable == [] ==> line == requested
    ensures executable != [] ==> line in executable
  {
    if executable == [] then requested
    else if executable[0] >= requested || |executable| == 1 then executable[0]
    else SnapLine(requested, executable[1..])
  }

  /** The snapped line is the least executable one not before the request, or the
      greatest of all when every one is before it. */
  lemma {:induction false} SnapExact(requested: int, executable: seq<int>, i: nat)
    requires Ascending(executable) && i < |executable|
    ensures var line := SnapLine(requested, executable);
            && (executable[i] == requested ==> line == requested)
            && (line >= requested ==> executable[i] >= line || executable[i] < requested)
            && (line < requested ==> executable[i] <= line)
    decreases |executable|
  {
    var rest := executable[1..];
    if executable[0] < requested && |executable| > 1 {
      SnapExact(requested, rest, if i > 0 then i - 1 else 0);
      assert i > 0 ==> rest[i - 1] == executable[i];
    }
  }

  lemma SnapIdempotent(requested: int, executable: seq<int>)
    requires Ascending(executable)
    ensures SnapLine(SnapLine(requested, executable), executable) == SnapLine(requested, executable)
  {
    var line := SnapLine(requested, executable);
    if executable != [] {
      var i :| 0 <= i < |executable| && executable[i] == line;
      SnapExact(line, executable, i);
    }
  }

  // ----- binding a request list -----

  function RemoveAt<T>(s: seq<T>, i: nat): seq<T>
    requires i < |s|
  {
    s[..i] + s[i + 1..]
  }

  /** The first breakpoint at the line with the same condition fields, or the length. */
  function Match(prior: seq<Info>, line: int, fields: Fields): (i: nat)
    ensures i <= |prior| && (i < |prior| ==> prior[i].line == line && prior[i].fields == fields)
    ensures forall j | 0 <= j < i :: prior[j].line != line || prior[j].fields != fields
  {
    if prior == [] || (prior[0].line == line && prior[0].fields == fields) then 0
    else 1 + Match(prior[1..], line, fields)
  }

  datatype Binding = Binding(infos: seq<Info>, nextId: int)

  /** Each request in turn adopts the identifier and hit count of the first match
      left among the old breakpoints, or else its own identifier or a new one. */
  function Bind(prior: seq<Info>, reqs: seq<Request>, executable: seq<int>, nextId: int): (b: Binding)
    ensures |b.infos| == |reqs|
    decreases |reqs|
  {
    if reqs == [] then Binding([], nextId)
    else
      var req := reqs[0];
      var line := SnapLine(req.line, executable);
      var i := Match(prior, line, req.fields);
      if i < |prior| then
        var rest := Bind(RemoveAt(prior, i), reqs[1..], executable, nextId);
        Binding([Info(prior[i].id, line, req.fields, prior[i].timesHit)] + rest.infos, rest.nextId)
      else
        var rest := Bind(prior, reqs[1..], executable, if req.id == 0 then nextId + 1 else nextId);
        Binding([Info(if req.id == 0 then nextId else req.id, line, req.fields, 0)] + rest.infos, rest.nextId)
  }

  function StoredAs(reqs: seq<Request>, infos: seq<Info>): (r: seq<Request>)
    requires |reqs| == |infos|
    ensures |r| == |reqs| && forall i | 0 <= i < |r| :: r[i] == reqs[i].(id := infos[i].id)
  {
    seq(|reqs|, i requires 0 <= i < |reqs| => reqs[i].(id := infos[i].id))
  }

  // ----- identifiers stay distinct -----

  predicate DistinctIds(infos: seq<Info>) {
    forall i, j | 0 <= i < j < |infos| :: infos[i].id != infos[j].id
  }

  predicate HasId(infos: seq<Info>, x: int) {
    exists i | 0 <= i < |infos| :: infos[i].id == x
  }

  predicate Asks(reqs: seq<Request>, x: int) {
    exists i | 0 <= i < |reqs| :: reqs[i].id == x
  }

  /** The identifier was allocated here, or pre-assigned by the client side. */
  predicate Issued(x: int, nextId: int, used: set<int>) {
    0 < x < nextId || x in used
  }

  /** Pre-assigned identifiers are negative, new and pairwise distinct. */
  predicate FreshRequests(reqs: seq<Request>, used: set<int>) {
    && (forall i | 0 <= i < |reqs| :: reqs[i].id <= 0 && reqs[i].id !in used)
    && forall i, j | 0 <= i < j < |reqs| && reqs[i].id != 0 :: reqs[i].id != reqs[j].id
  }

  lemma RemovedIds(prior: seq<Info>, i: nat, x: int)
    requires i < |prior| && DistinctIds(prior)
    ensures DistinctIds(RemoveAt(prior, i))
    ensures HasId(RemoveAt(prior, i), x) ==> HasId(prior, x) && x != prior[i].id
  {}

  lemma ConsIds(a: Info, rest: seq<Info>, x: int)
    ensures HasId([a] + rest, x) <==> x == a.id || HasId(rest, x)
    ensures DistinctIds(rest) && !HasId(rest, a.id) ==> DistinctIds([a] + rest)
  {
    var s := [a] + rest;
    assert s[0] == a && forall i | 0 <= i < |rest| :: s[i + 1] == rest[i];
    if i :| 0 <= i < |rest| && rest[i].id == x {
      assert s[i + 1].id == x;
    }
  }

  /** What binding does to identifiers: each result keeps an old one, takes its
      request's own, or gets a new one, and no two are the same. */
  lemma {:induction false} BindIds(
      prior: seq<Info>, reqs: seq<Request>, executable: seq<int>, nextId: int, used: set<int>)
    requires nextId > 0 && DistinctIds(prior) && FreshRequests(reqs, used)
    requires forall x | HasId(prior, x) :: Issued(x, nextId, used)
    requires forall x | x in used :: x < 0
    ensures var b := Bind(prior, reqs, executable, nextId);
            && b.nextId >= nextId && DistinctIds(b.infos)
            && forall x | HasId(b.infos, x) :: HasId(prior, x) || nextId <= x < b.nextId || (x < 0 && Asks(reqs, x))
    decreases |reqs|
  {
    if reqs != [] {
      var req, rest := reqs[0], reqs[1..];
      var line := SnapLine(req.line, executable);
      var i := Match(prior, line, req.fields);
      var b := Bind(prior, reqs, executable, nextId);
      RestFresh(reqs, used);
      if i < |prior| {
        forall x ensures HasId(RemoveAt(prior, i), x) ==> HasId(prior, x) && x != prior[i].id {
          RemovedIds(prior, i, x);
        }
        BindIds(RemoveAt(prior, i), rest, executable, nextId, used);
        assert b.infos[1..] == Bind(RemoveAt(prior, i), rest, executable, nextId).infos;
        assert HasId(prior, prior[i].id);
      } else {
        var next := if req.id == 0 then nextId + 1 else nextId;
        BindIds(prior, rest, executable, next, used);
        assert b.infos[1..] == Bind(prior, rest, executable, next).infos;
      }
      assert b.infos == [b.infos[0]] + b.infos[1..];
      assert !HasId(b.infos[1..], b.infos[0].id);
      ConsIds(b.infos[0], b.infos[1..], 0);
      forall x ensures HasId(b.infos, x) <==> x == b.infos[0].id || HasId(b.infos[1..], x) {
        ConsIds(b.infos[0], b.infos[1..], x);
      }
    }
  }

  lemma RestFresh(reqs: seq<Request>, used: set<int>)
    requires reqs != [] && FreshRequests(reqs, used)
    ensures FreshRequests(reqs[1..], used)
    ensures forall x | Asks(reqs[1..], x) :: Asks(reqs, x) && (reqs[0].id != 0 ==> x != reqs[0].id)
    ensures Asks(reqs, reqs[0].id)
  {
    var rest := reqs[1..];
    assert forall i | 0 <= i < |rest| :: rest[i] == reqs[i + 1];
  }

  predicate Counted(infos: seq<Info>, x: int, n: nat) {
    exists i | 0 <= i < |infos| :: infos[i].id == x && infos[i].timesHit == n
  }

  lemma ConsCounted(a: Info, rest: seq<Info>, x: int, n: nat)
    ensures Counted([a] + rest, x, n) <==> (a.id == x && a.timesHit == n) || Counted(rest, x, n)
  {
    var s := [a] + rest;
    assert s[0] == a && forall i | 0 <= i < |rest| :: s[i + 1] == rest[i];
    if i :| 0 <= i < |rest| && rest[i].id == x && rest[i].timesHit == n {
      assert s[i + 1].id == x && s[i + 1].timesHit == n;
    }
  }

  /** What binding does to hit counts: a kept identifier keeps its count, any other
      starts at zero. */
  lemma {:induction false} BindCounts(
      prior: seq<Info>, reqs: seq<Request>, executable: seq<int>, nextId: int, used: set<int>, x: int, n: nat)
    requires nextId > 0 && DistinctIds(prior) && FreshRequests(reqs, used)
    requires forall x | HasId(prior, x) :: Issued(x, nextId, used)
    requires forall x | x in used :: x < 0
    requires Counted(Bind(prior, reqs, executable, nextId).infos, x, n)
    ensures if HasId(prior, x) then Counted(prior, x, n) else n == 0
    decreases |reqs|
  {
    BindIds(prior, reqs, executable, nextId, used);
    var req, rest := reqs[0], reqs[1..];
    var i := Match(prior, SnapLine(req.line, executable), req.fields);
    var b := Bind(prior, reqs, executable, nextId);
    assert b.infos == [b.infos[0]] + b.infos[1..];
    ConsCounted(b.infos[0], b.infos[1..], x, n);
    RestFresh(reqs, used);
    if i < |prior| {
      assert b.infos[1..] == Bind(RemoveAt(prior, i), rest, executable, nextId).infos;
      forall y ensures HasId(RemoveAt(prior, i), y) ==> HasId(prior, y) && y != prior[i].id {
        RemovedIds(prior, i, y);
      }
      if b.infos[0].id != x {
        BindCounts(RemoveAt(prior, i), rest, executable, nextId, used, x, n);
        RemovedCounted(prior, i, x, n);
      } else {
        assert b.infos[0].id == prior[i].id;
        assert forall j | 0 < j < |b.infos| :: b.infos[j].id != b.infos[0].id;
      }
    } else {
      var next := if req.id == 0 then nextId + 1 else nextId;
      assert b.infos[1..] == Bind(prior, rest, executable, next).infos;
      if b.infos[0].id != x {
        BindCounts(prior, rest, executable, next, used, x, n);
      } else {
        assert forall j | 0 < j < |b.infos| :: b.infos[j].id != b.infos[0].id;
      }
    }
  }

  lemma RemovedCounted(prior: seq<Info>, i: nat, x: int, n: nat)
    requires i < |prior|
    ensures Counted(RemoveAt(prior, i), x, n) ==> Counted(prior, x, n)
    ensures HasId(prior, x) && x != prior[i].id ==> HasId(RemoveAt(prior, i), x)
  {
    var r := RemoveAt(prior, i);
    if j :| 0 <= j < |prior| && prior[j].id == x && x != prior[i].id {
      assert r[if j < i then j else j - 1].id == x;
    }
  }

  // ----- sending the same list again -----

  /** The breakpoints a request list asks for, in order. */
  predicate Fulfils(infos: seq<Info>, reqs: seq<Request>, executable: seq<int>) {
    && |infos| == |reqs|
    && forall i | 0 <= i < |reqs| ::
         infos[i].line == SnapLine(reqs[i].line, executable) && infos[i].fields == reqs[i].fields
  }

  lemma {:induction false} BindFulfils(prior: seq<Info>, reqs: seq<Request>, executable: seq<int>, nextId: int)
    ensures Fulfils(Bind(prior, reqs, executable, nextId).infos, reqs, executable)
    decreases |reqs|
  {
    if reqs != [] {
      var req := reqs[0];
      var i := Match(prior, SnapLine(req.line, executable), req.fields);
      if i < |prior| {
        BindFulfils(RemoveAt(prior, i), reqs[1..], executable, nextId);
      } else {
        BindFulfils(prior, reqs[1..], executable, if req.id == 0 then nextId + 1 else nextId);
      }
    }
  }

  /** Binding the same list again changes nothing, whatever has been hit meanwhile. */
  lemma {:induction false} Rebind(infos: seq<Info>, reqs: seq<Request>, executable: seq<int>, nextId: int)
    requires Fulfils(infos, reqs, executable)
    ensures Bind(infos, reqs, executable, nextId) == Binding(infos, nextId)
    decreases |reqs|
  {
    if reqs != [] {
      RebindHead(infos, reqs, executable, nextId);
      Rebind(infos[1..], reqs[1..], executable, nextId);
      assert infos == [infos[0]] + infos[1..];
    }
  }

  lemma RebindHead(infos: seq<Info>, reqs: seq<Request>, executable: seq<int>, nextId: int)
    requires reqs != [] && Fulfils(infos, reqs, executable)
    ensures Fulfils(infos[1..], reqs[1..], executable)
    ensures var rest := Bind(infos[1..], reqs[1..], executable, nextId);
            Bind(infos, reqs, executable, nextId) == Binding([infos[0]] + rest.infos, rest.nextId)
  {
    assert Match(infos, SnapLine(reqs[0].line, executable), reqs[0].fields) == 0;
    assert RemoveAt(infos, 0) == infos[1..];
  }

  // ----- the registry's operations -----

  function BoundIn(s: Registry, f: FileId): seq<Info> {
    if f in s.bound then s.bound[f] else []
  }

  function Lines(program: Program, f: FileId): seq<int> {
    if f in program.executable then program.executable[f] else []
  }

  /** Replaces a path's breakpoints: bound at once when the path is a file of the
      program, otherwise kept with their identifiers until it is. */
  function Set(s: Registry, program: Program, path: Path, reqs: seq<Request>): Registry {
    if path in program.files then
      var f := program.files[path];
      var b := Bind(BoundIn(s, f), reqs, Lines(program, f), s.nextId);
      Registry(s.bound[f := b.infos], s.pending[path := StoredAs(reqs, b.infos)], b.nextId)
    else
      var b := Bind([], reqs, [], s.nextId);
      Registry(s.bound, s.pending[path := StoredAs(reqs, b.infos)], b.nextId)
  }

  /** Binds, in turn, each request whose identifier is not bound yet. */
  function Extend(existing: seq<Info>, reqs: seq<Request>, executable: seq<int>, nextId: int): Binding
    decreases |reqs|
  {
    if reqs == [] then Binding(existing, nextId)
    else if HasId(existing, reqs[0].id) then Extend(existing, reqs[1..], executable, nextId)
    else
      var req := reqs[0];
      var id := if req.id == 0 then nextId else req.id;
      Extend(existing + [Info(id, SnapLine(req.line, executable), req.fields, 0)], reqs[1..], executable,
             if req.id == 0 then nextId + 1 else nextId)
  }

  function ResolvePath(s: Registry, program: Program, path: Path): Registry
    requires path in s.pending
  {
    if path !in program.files then s
    else
      var f := program.files[path];
      var b := Extend(BoundIn(s, f), s.pending[path], Lines(program, f), s.nextId);
      s.(bound := s.bound[f := b.infos], nextId := b.nextId)
  }

  /** Resolution visits the pending paths in some order. */
  function Resolve(s: Registry, program: Program, order: seq<Path>): Registry
    requires forall i | 0 <= i < |order| :: order[i] in s.pending
    decreases |order|
  {
    if order == [] then s else Resolve(ResolvePath(s, program, order[0]), program, order[1..])
  }

  /** A breakpoint qualifies when it has no condition or its condition holds;
      `holds` are the breakpoints whose condition evaluates to true. */
  predicate Qualifies(info: Info, holds: set<int>) {
    info.fields.condition == "" || info.id in holds
  }

  function Qualifying(infos: seq<Info>, holds: set<int>): set<int> {
    set i | 0 <= i < |infos| && Qualifies(infos[i], holds) :: infos[i].id
  }

  lemma QualifyingExact(infos: seq<Info>, holds: set<int>, i: nat)
    requires DistinctIds(infos) && i < |infos|
    ensures infos[i].id in Qualifying(infos, holds) <==> Qualifies(infos[i], holds)
  {}

  function Saturated(n: nat): nat {
    if n < INT_MAX then n else INT_MAX
  }

  function Counts(info: Info, line: int, hits: set<int>): Info {
    if info.line == line && info.id in hits && info.timesHit < INT_MAX then info.(timesHit := info.timesHit + 1)
    else info
  }

  /** Recording hits on a line for some of its breakpoints. */
  function Reach(infos: seq<Info>, line: int, hits: set<int>): (r: seq<Info>)
    ensures |r| == |infos| && forall i | 0 <= i < |r| :: r[i] == Counts(infos[i], line, hits)
  {
    seq(|infos|, i requires 0 <= i < |infos| => Counts(infos[i], line, hits))
  }

  function Check(s: Registry, f: FileId, line: int, hits: set<int>): Registry {
    if f in s.bound then s.(bound := s.bound[f := Reach(s.bound[f], line, hits)]) else s
  }
}
