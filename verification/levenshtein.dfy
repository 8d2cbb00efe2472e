/**
 Edit distance: the two-row dynamic program with its early exits, proved against
 the least cost of an edit script, and the name suggestion built on it.
 */
module Levenshtein {
  import opened Options

  // ----- edit scripts -----

  datatype Edit = Keep(c: char) | Insert(c: char) | Delete(c: char) | Replace(from: char, into: char)

  function Before(e: Edit): string {
    match e
    case Keep(c) => [c]
    case Insert(_) => ""
    case Delete(c) => [c]
    case Replace(c, _) => [c]
  }

  function After(e: Edit): string {
    match e
    case Keep(c) => [c]
    case Insert(c) => [c]
    case Delete(_) => ""
    case Replace(_, c) => [c]
  }

  /** The text a script reads. */
  function Source(s: seq<Edit>): string {
    if s == [] then "" else Source(s[..|s| - 1]) + Before(s[|s| - 1])
  }

  /** The text a script writes. */
  function Target(s: seq<Edit>): string {
    if s == [] then "" else Target(s[..|s| - 1]) + After(s[|s| - 1])
  }

  function EditCost(e: Edit): nat {
    if e.Keep? then 0 else 1
  }

  function Cost(s: seq<Edit>): nat {
    if s == [] then 0 else Cost(s[..|s| - 1]) + EditCost(s[|s| - 1])
  }

  predicate Rewrites(s: seq<Edit>, a: string, b: string) {
    Source(s) == a && Target(s) == b
  }

  // ----- the recursive distance is the least cost -----

  function Min(x: nat, y: nat): nat {
    if x <= y then x else y
  }

  function Mismatch(c: char, d: char): nat {
    if c == d then 0 else 1
  }

  function Init(s: string): string
    requires s != ""
  {
    s[..|s| - 1]
  }

  function Dist(a: string, b: string): nat
    decreases |a| + |b|
  {
    if a == "" then |b|
    else if b == "" then |a|
    else Min(Min(Dist(Init(a), b) + 1, Dist(a, Init(b)) + 1),
             Dist(Init(a), Init(b)) + Mismatch(a[|a| - 1], b[|b| - 1]))
  }

  lemma ExtendBoth(a: string, c: char, b: string, d: char)
    ensures Dist(a + [c], b + [d]) <= Dist(a, b) + Mismatch(c, d)
    ensures Dist(a + [c], b) <= Dist(a, b) + 1
    ensures Dist(a, b + [d]) <= Dist(a, b) + 1
  {
    assert Init(a + [c]) == a && Init(b + [d]) == b;
  }

  lemma ExtendByEdit(a: string, b: string, e: Edit)
    ensures Dist(a + Before(e), b + After(e)) <= Dist(a, b) + EditCost(e)
  {
    assert a + "" == a && b + "" == b;
    ExtendBoth(a, if e.Replace? then e.from else e.c, b, if e.Replace? then e.into else e.c);
  }

  /** No script is cheaper than the distance. */
  lemma {:induction false} ScriptsCostAtLeast(s: seq<Edit>)
    ensures Dist(Source(s), Target(s)) <= Cost(s)
  {
    if s != [] {
      ScriptsCostAtLeast(s[..|s| - 1]);
      ExtendByEdit(Source(s[..|s| - 1]), Target(s[..|s| - 1]), s[|s| - 1]);
    }
  }

  lemma Snoc(s: seq<Edit>, e: Edit)
    ensures Source(s + [e]) == Source(s) + Before(e)
    ensures Target(s + [e]) == Target(s) + After(e)
    ensures Cost(s + [e]) == Cost(s) + EditCost(e)
  {
    assert (s + [e])[..|s|] == s;
  }

  /** The edit that ends a cheapest script, and the texts before it. */
  lemma LastEdit(a: string, b: string) returns (a': string, b': string, e: Edit)
    requires a + b != ""
    ensures a == a' + Before(e) && b == b' + After(e) && Dist(a, b) == Dist(a', b') + EditCost(e)
  {
    if a == "" || (b != "" && Dist(a, b) == Dist(a, Init(b)) + 1) {
      a', b', e := a, Init(b), Insert(b[|b| - 1]);
    } else if b == "" || Dist(a, b) == Dist(Init(a), b) + 1 {
      a', b', e := Init(a), b, Delete(a[|a| - 1]);
    } else if a[|a| - 1] == b[|b| - 1] {
      a', b', e := Init(a), Init(b), Keep(a[|a| - 1]);
    } else {
      a', b', e := Init(a), Init(b), Replace(a[|a| - 1], b[|b| - 1]);
    }
  }

  /** A script that costs exactly the distance. */
  lemma {:induction false} CheapestScript(a: string, b: string) returns (s: seq<Edit>)
    ensures Rewrites(s, a, b) && Cost(s) == Dist(a, b)
    decreases |a| + |b|
  {
    if a + b == "" {
      s := [];
    } else {
      var a', b', e := LastEdit(a, b);
      s := CheapestScript(a', b');
      Snoc(s, e);
      s := s + [e];
    }
  }

  /** The recursive distance is the least cost of rewriting `a` into `b`. */
  lemma DistIsLeastCost(a: string, b: string)
    ensures exists s :: Rewrites(s, a, b) && Cost(s) == Dist(a, b)
    ensures forall s | Rewrites(s, a, b) :: Cost(s) >= Dist(a, b)
  {
    var s := CheapestScript(a, b);
    forall s | Rewrites(s, a, b) ensures Cost(s) >= Dist(a, b) {
      ScriptsCostAtLeast(s);
    }
  }

  // ----- the table -----

  /** The distance between the first `i` and the first `j` characters. */
  function D(a: string, b: string, i: nat, j: nat): nat
    requires i <= |a| && j <= |b|
  {
    Dist(a[..i], b[..j])
  }

  lemma Cell(a: string, b: string, i: nat, j: nat)
    requires i <= |a| && j <= |b|
    ensures i == 0 ==> D(a, b, i, j) == j
    ensures j == 0 ==> D(a, b, i, j) == i
    ensures i > 0 && j > 0 ==>
              D(a, b, i, j) == Min(Min(D(a, b, i - 1, j) + 1, D(a, b, i, j - 1) + 1),
                                   D(a, b, i - 1, j - 1) + Mismatch(a[i - 1], b[j - 1]))
  {
    if i > 0 && j > 0 {
      assert Init(a[..i]) == a[..i - 1] && Init(b[..j]) == b[..j - 1];
    }
  }

  /** Every later cell is at least the least cell of a row. */
  lemma {:induction false} RowBounds(a: string, b: string, row: nat, k: nat, i: nat, j: nat)
    requires row <= i <= |a| && j <= |b|
    requires forall t | 0 <= t <= |b| :: k <= D(a, b, row, t)
    ensures k <= D(a, b, i, j)
    decreases i + j
  {
    if row < i {
      Cell(a, b, i, j);
      Cell(a, b, i - 1, j);
      RowBounds(a, b, row, k, i - 1, j);
      if j > 0 {
        RowBounds(a, b, row, k, i, j - 1);
        RowBounds(a, b, row, k, i - 1, j - 1);
      }
    }
  }

  /** The distance is at least the difference in length. */
  lemma {:induction false} LengthBounds(a: string, b: string)
    ensures |a| - |b| <= Dist(a, b) && |b| - |a| <= Dist(a, b)
    decreases |a| + |b|
  {
    if a != "" && b != "" {
      LengthBounds(Init(a), b);
      LengthBounds(a, Init(b));
      LengthBounds(Init(a), Init(b));
    }
  }

  // ----- the two-row program -----

  method FillRow(a: string, b: string, i: nat, prev: array<nat>, curr: array<nat>) returns (rowMin: nat)
    requires 0 < i <= |a| && prev != curr && prev.Length == curr.Length == |b| + 1
    requires forall k | 0 <= k <= |b| :: prev[k] == D(a, b, i - 1, k)
    modifies curr
    ensures forall k | 0 <= k <= |b| :: curr[k] == D(a, b, i, k) && rowMin <= D(a, b, i, k)
    ensures exists k | 0 <= k <= |b| :: rowMin == curr[k]
  {
    curr[0] := i;
    Cell(a, b, i, 0);
    rowMin := curr[0];
    ghost var least := 0;
    for j := 1 to |b| + 1
      invariant forall k | 0 <= k < j :: curr[k] == D(a, b, i, k) && rowMin <= curr[k]
      invariant 0 <= least < j && rowMin == curr[least]
    {
      var cost := Mismatch(a[i - 1], b[j - 1]);
      curr[j] := Min(Min(prev[j] + 1, curr[j - 1] + 1), prev[j - 1] + cost);
      Cell(a, b, i, j);
      if curr[j] < rowMin {
        rowMin := curr[j];
        least := j;
      }
    }
  }

  predicate RowOver(a: string, b: string, i: nat, max: nat)
    requires i <= |a|
  {
    forall j | 0 <= j <= |b| :: D(a, b, i, j) > max
  }

  /** The lengths, or some whole row of the table, already exceed the threshold. */
  predicate GivesUp(a: string, b: string, max: nat) {
    || |a| - |b| > max || |b| - |a| > max
    || exists i | 1 <= i <= |a| :: RowOver(a, b, i, max)
  }

  /** What a threshold leaves of the distance: exact unless the program gives up. */
  function Bounded(a: string, b: string, bound: Option<nat>): (r: nat)
    ensures bound.None? ==> r == Dist(a, b)
    ensures bound.Some? ==> (r <= bound.value <==> Dist(a, b) <= bound.value)
    ensures bound.Some? && r <= bound.value ==> r == Dist(a, b)
    ensures bound.Some? && r > bound.value ==> r == Dist(a, b) || r == bound.value + 1
  {
    if bound.Some? && GivesUp(a, b, bound.value) then
      GivingUpIsRight(a, b, bound.value);
      bound.value + 1
    else Dist(a, b)
  }

  lemma GivingUpIsRight(a: string, b: string, max: nat)
    requires GivesUp(a, b, max)
    ensures Dist(a, b) > max
  {
    LengthBounds(a, b);
    if i :| 1 <= i <= |a| && RowOver(a, b, i, max) {
      RowBounds(a, b, i, max + 1, |a|, |b|);
      assert a[..|a|] == a && b[..|b|] == b;
    }
  }

  method Distance(a: string, b: string, bound: Option<nat>) returns (r: nat)
    ensures r == Bounded(a, b, bound)
  {
    var m, n := |a|, |b|;
    if bound.Some? && ((m > n && m - n > bound.value) || (n > m && n - m > bound.value)) {
      return bound.value + 1;
    }
    var prev, curr := new nat[n + 1], new nat[n + 1];
    for j := 0 to n + 1
      invariant forall k | 0 <= k < j :: prev[k] == D(a, b, 0, k)
    {
      prev[j] := j;
      Cell(a, b, 0, j);
    }
    for i := 1 to m + 1
      invariant prev != curr && prev.Length == curr.Length == n + 1 && fresh(prev) && fresh(curr)
      invariant forall k | 0 <= k <= n :: prev[k] == D(a, b, i - 1, k)
      invariant bound.Some? ==> forall k | 1 <= k < i :: !RowOver(a, b, k, bound.value)
    {
      var rowMin := FillRow(a, b, i, prev, curr);
      if bound.Some? && rowMin > bound.value {
        assert RowOver(a, b, i, bound.value);
        return bound.value + 1;
      }
      prev, curr := curr, prev;
    }
    assert a[..m] == a && b[..n] == b;
    return prev[n];
  }

  // ----- suggestions -----

  /** A typo in a short name, two in a longer one. */
  function Threshold(needle: string): nat {
    if |needle| < 5 then 1 else 2
  }

  predicate Close(needle: string, candidate: string) {
    candidate != needle && Dist(needle, candidate) <= Threshold(needle)
  }

  /** The first of the closest candidates. */
  predicate IsBest(candidates: seq<string>, needle: string, k: nat) {
    && k < |candidates| && Close(needle, candidates[k])
    && forall i | 0 <= i < |candidates| && Close(needle, candidates[i]) ::
         && Dist(needle, candidates[k]) <= Dist(needle, candidates[i])
         && (i < k ==> Dist(needle, candidates[k]) < Dist(needle, candidates[i]))
  }

  function Message(name: string): string {
    "did you mean '" + name + "'?"
  }

  /** What the running best says about the candidates seen so far. */
  predicate Found(seen: seq<string>, needle: string, best: string, bestDist: nat, at: nat) {
    if bestDist <= Threshold(needle)
    then IsBest(seen, needle, at) && best == seen[at] && bestDist == Dist(needle, best)
    else bestDist == Threshold(needle) + 1 && forall i | 0 <= i < |seen| :: !Close(needle, seen[i])
  }

  lemma FoundStep(seen: seq<string>, candidate: string, needle: string, best: string, bestDist: nat, at: nat)
    requires Found(seen, needle, best, bestDist, at)
    ensures if Close(needle, candidate) && Dist(needle, candidate) < bestDist
            then Found(seen + [candidate], needle, candidate, Dist(needle, candidate), |seen|)
            else Found(seen + [candidate], needle, best, bestDist, at)
  {}

  method SuggestName(candidates: seq<string>, needle: string) returns (r: string)
    ensures (exists k: nat :: IsBest(candidates, needle, k) && r == Message(candidates[k])) ||
            (r == "" && forall i | 0 <= i < |candidates| :: !Close(needle, candidates[i]))
  {
    var max := if |needle| <= 4 then 1 else 2;
    var best, bestDist := "", max + 1;
    ghost var at := 0;
    for n := 0 to |candidates|
      invariant Found(candidates[..n], needle, best, bestDist, at)
    {
      var candidate := candidates[n];
      FoundStep(candidates[..n], candidate, needle, best, bestDist, at);
      assert candidates[..n + 1] == candidates[..n] + [candidate];
      if candidate != needle {
        var d := Distance(needle, candidate, Some(max));
        if d < bestDist {
          best, bestDist, at := candidate, d, n;
        }
      }
    }
    assert candidates[..|candidates|] == candidates;
    if bestDist <= max {
      return Message(best);
    }
    return "";
  }

  /** There is at most one first-of-the-closest candidate. */
  lemma BestUnique(candidates: seq<string>, needle: string, j: nat, k: nat)
    requires IsBest(candidates, needle, j) && IsBest(candidates, needle, k)
    ensures j == k
  {}

  /** Beyond the threshold the answer is one past it unless the program never
      gives up and the true distance is larger still. */
  lemma BeyondThreshold(a: string, b: string, max: nat)
    requires Dist(a, b) > max
    ensures Bounded(a, b, Some(max)) == max + 1 <==> GivesUp(a, b, max) || Dist(a, b) == max + 1
  {}

  /** Which happens: with threshold 1, "ab" and "bcd" give 3, and so do all such pairs. */
  lemma MayExceedByMore(a: string, b: string)
    requires |a| == 2 && |b| == 3 && a[1] == b[0]
    requires a[0] !in b && a[1] !in b[1..]
    ensures Dist(a, b) == 3 && Bounded(a, b, Some(1)) == 3
  {
    FirstRow(a, b);
    SecondRow(a, b);
    assert !RowOver(a, b, 1, 1) && !RowOver(a, b, 2, 1);
    assert a[..2] == a && b[..3] == b;
  }

  lemma FirstRow(a: string, b: string)
    requires |a| == 2 && |b| == 3 && a[0] !in b
    ensures D(a, b, 1, 0) == 1 && D(a, b, 1, 1) == 1 && D(a, b, 1, 2) == 2 && D(a, b, 1, 3) == 3
  {
    forall i, j | 0 <= i <= 1 && 0 <= j <= 3 {
      Cell(a, b, i, j);
    }
  }

  lemma SecondRow(a: string, b: string)
    requires |a| == 2 && |b| == 3 && a[1] == b[0] && a[1] !in b[1..]
    requires D(a, b, 1, 0) == 1 && D(a, b, 1, 1) == 1 && D(a, b, 1, 2) == 2 && D(a, b, 1, 3) == 3
    ensures D(a, b, 2, 1) == 1 && D(a, b, 2, 3) == 3
  {
    assert b[1..][0] == b[1] && b[1..][1] == b[2];
    forall j | 0 <= j <= 3 {
      Cell(a, b, 2, j);
    }
  }
}
