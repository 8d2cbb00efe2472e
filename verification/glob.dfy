/**
 Wildcard matching that remembers only the last star, proved against the
 recursive meaning of a pattern.
 */
module Glob {

  /** The meaning of a pattern: `*` is any text, `?` any one character. */
  predicate Matches(p: string, t: string)
    decreases |p| + |t|
  {
    if p == "" then t == ""
    else if p[0] == '*' then Matches(p[1..], t) || (t != "" && Matches(p, t[1..]))
    else t != "" && (p[0] == '?' || p[0] == t[0]) && Matches(p[1..], t[1..])
  }

  // ----- facts about the meaning -----

  lemma {:induction false} MatchesAppend(p: string, t: string, q: string, u: string)
    requires Matches(p, t) && Matches(q, u)
    ensures Matches(p + q, t + u)
    decreases |p| + |t|
  {
    if p == "" {
      assert p + q == q && t + u == u;
    } else {
      assert (p + q)[1..] == p[1..] + q;
      assert t != "" ==> (t + u)[1..] == t[1..] + u;
      if p[0] == '*' && Matches(p[1..], t) {
        MatchesAppend(p[1..], t, q, u);
      } else if p[0] == '*' {
        MatchesAppend(p, t[1..], q, u);
      } else {
        MatchesAppend(p[1..], t[1..], q, u);
      }
    }
  }

  lemma {:induction false} StarMatches(t: string)
    ensures Matches("*", t)
  {
    assert "*"[1..] == "";
    if t != "" {
      StarMatches(t[1..]);
    }
  }

  lemma OneMatches(p: char, c: char)
    requires p == '?' || p == c
    ensures Matches([p], [c])
  {
    assert [p][1..] == "" && [c][1..] == "";
    if p == '*' {
      StarMatches([c]);
    }
  }

  predicate AllStars(p: string) {
    forall i | 0 <= i < |p| :: p[i] == '*'
  }

  lemma {:induction false} EmptyText(p: string)
    ensures Matches(p, "") <==> AllStars(p)
  {
    if p != "" {
      EmptyText(p[1..]);
      assert AllStars(p) <==> p[0] == '*' && AllStars(p[1..]);
    }
  }

  /** A leading star gives up some number of characters. */
  lemma {:induction false} StarSkips(p: string, t: string)
    requires p != "" && p[0] == '*' && Matches(p, t)
    ensures exists k | 0 <= k <= |t| :: Matches(p[1..], t[k..])
    decreases |t|
  {
    if Matches(p[1..], t) {
      assert t[0..] == t;
    } else {
      StarSkips(p, t[1..]);
      var k :| 0 <= k <= |t[1..]| && Matches(p[1..], t[1..][k..]);
      assert t[1..][k..] == t[k + 1..];
    }
  }

  /** A part without stars takes exactly its own length. */
  lemma {:induction false} FixedPart(s: string, q: string, t: string)
    requires '*' !in s && Matches(s + q, t)
    ensures |s| <= |t| && Matches(q, t[|s|..])
    decreases |s|
  {
    if s == "" {
      assert s + q == q && t[0..] == t;
    } else {
      assert (s + q)[1..] == s[1..] + q;
      FixedPart(s[1..], q, t[1..]);
      assert t[1..][|s[1..]|..] == t[|s|..];
    }
  }

  // ----- the matcher -----

  /** Positions in pattern and text, the last star (or -1) and the text position
      its current attempt starts from. */
  datatype State = State(pi: nat, ti: nat, starP: int, starT: nat)

  predicate Sane(p: string, t: string, s: State) {
    && s.pi <= |p| && s.starT <= s.ti <= |t|
    && -1 <= s.starP < s.pi && (s.starP >= 0 ==> p[s.starP] == '*')
    && (s.starP >= 0 ==> s.pi - s.starP - 1 == s.ti - s.starT)
    && (s.starP < 0 ==> s.pi == s.ti)
  }

  predicate Consumes(p: string, t: string, s: State) {
    s.pi < |p| && s.ti < |t| && (p[s.pi] == '?' || p[s.pi] == t[s.ti])
  }

  predicate AtStar(p: string, s: State) {
    s.pi < |p| && p[s.pi] == '*'
  }

  function Advance(s: State): State {
    s.(pi := s.pi + 1, ti := s.ti + 1)
  }

  function Remember(s: State): State {
    s.(starP := s.pi, starT := s.ti, pi := s.pi + 1)
  }

  function Retry(s: State): State
    requires s.starP >= 0
  {
    s.(pi := s.starP + 1, starT := s.starT + 1, ti := s.starT + 1)
  }

  /** The answer the matcher gives from a state. */
  predicate Run(p: string, t: string, s: State)
    requires Sane(p, t, s)
    decreases |p| - s.starP, |t| - s.starT, |t| - s.ti
  {
    if s.ti == |t| then AllStars(p[s.pi..])
    else if Consumes(p, t, s) then Run(p, t, Advance(s))
    else if AtStar(p, s) then Run(p, t, Remember(s))
    else s.starP >= 0 && Run(p, t, Retry(s))
  }

  const START := State(0, 0, -1, 0)

  method GlobMatch(pattern: string, text: string) returns (r: bool)
    ensures r == Run(pattern, text, START)
    ensures r ==> Matches(pattern, text)
    ensures '*' !in text || '*' !in pattern ==> (r <==> Matches(pattern, text))
  {
    r := Search(pattern, text);
    if r {
      TrueIsRight(pattern, text);
    }
    if '*' !in text {
      RightWithoutStarInText(pattern, text);
    }
    if '*' !in pattern {
      PatternsJudgingRightly(pattern);
      assert Right(pattern, text);
    }
  }

  method Search(pattern: string, text: string) returns (r: bool)
    ensures r == Run(pattern, text, START)
  {
    var pi, ti, starP, starT := 0, 0, -1, 0;
    while ti < |text|
      invariant pi >= 0 && ti >= 0 && starT >= 0
      invariant Sane(pattern, text, State(pi, ti, starP, starT))
      invariant Run(pattern, text, State(pi, ti, starP, starT)) == Run(pattern, text, START)
      decreases |pattern| - starP, |text| - starT, |text| - ti
    {
      if pi < |pattern| && (pattern[pi] == '?' || pattern[pi] == text[ti]) {
        pi, ti := pi + 1, ti + 1;
      } else if pi < |pattern| && pattern[pi] == '*' {
        starP, starT := pi, ti;
        pi := pi + 1;
      } else if starP != -1 {
        pi := starP + 1;
        starT := starT + 1;
        ti := starT;
      } else {
        return false;
      }
    }
    pi := SkipStars(pattern, pi);
    return pi == |pattern|;
  }

  method SkipStars(pattern: string, start: nat) returns (pi: nat)
    requires start <= |pattern|
    ensures pi == |pattern| <==> AllStars(pattern[start..])
  {
    pi := start;
    while pi < |pattern| && pattern[pi] == '*'
      invariant start <= pi <= |pattern|
      invariant AllStars(pattern[start..]) <==> AllStars(pattern[pi..])
    {
      assert pattern[pi..][1..] == pattern[pi + 1..];
      pi := pi + 1;
    }
  }

  // ----- a true answer is always right -----

  /** The part of the pattern passed matches the part of the text passed, and so
      does the part up to the last star. */
  predicate Passed(p: string, t: string, s: State)
    requires Sane(p, t, s)
  {
    Matches(p[..s.pi], t[..s.ti]) && (s.starP >= 0 ==> Matches(p[..s.starP + 1], t[..s.starT]))
  }

  lemma ExtendPassed(p: string, t: string, i: nat, j: nat, k: nat)
    requires i < |p| && j <= k <= |t| && Matches(p[..i], t[..j]) && Matches([p[i]], t[j..k])
    ensures Matches(p[..i + 1], t[..k])
  {
    MatchesAppend(p[..i], t[..j], [p[i]], t[j..k]);
    assert p[..i + 1] == p[..i] + [p[i]] && t[..k] == t[..j] + t[j..k];
  }

  lemma StarAbsorbs(p: string, t: string, i: nat, j: nat)
    requires i < |p| && p[i] == '*' && j < |t| && Matches(p[..i + 1], t[..j])
    ensures Matches(p[..i + 1], t[..j + 1])
  {
    StarStar(p[..i], t[..j], [t[j]]);
    assert p[..i + 1] == p[..i] + "*" && t[..j + 1] == t[..j] + [t[j]];
  }

  /** What a pattern ending in a star matches, it matches extended. */
  lemma {:induction false} StarStar(q: string, t: string, u: string)
    ensures Matches(q + "*", t) ==> Matches(q + "*", t + u)
    decreases |q| + |t|
  {
    var p := q + "*";
    if Matches(p, t) {
      if q == "" {
        assert p == "*";
        StarMatches(t + u);
      } else {
        assert p[1..] == q[1..] + "*";
        StarStar(q[1..], t, u);
        if t != "" {
          StarStar(q[1..], t[1..], u);
          StarStar(q, t[1..], u);
          assert (t + u)[1..] == t[1..] + u;
        }
      }
    }
  }

  lemma {:induction false} RunSound(p: string, t: string, s: State)
    requires Sane(p, t, s) && Passed(p, t, s) && Run(p, t, s)
    ensures Matches(p, t)
    decreases |p| - s.starP, |t| - s.starT, |t| - s.ti
  {
    if s.ti == |t| {
      PassedEnd(p, t, s);
    } else if Consumes(p, t, s) {
      PassedAdvance(p, t, s);
      RunSound(p, t, Advance(s));
    } else if AtStar(p, s) {
      PassedRemember(p, t, s);
      RunSound(p, t, Remember(s));
    } else {
      StarAbsorbs(p, t, s.starP, s.starT);
      RunSound(p, t, Retry(s));
    }
  }

  lemma PassedEnd(p: string, t: string, s: State)
    requires Sane(p, t, s) && Passed(p, t, s) && s.ti == |t| && AllStars(p[s.pi..])
    ensures Matches(p, t)
  {
    EmptyText(p[s.pi..]);
    MatchesAppend(p[..s.pi], t[..s.ti], p[s.pi..], "");
    assert p == p[..s.pi] + p[s.pi..] && t == t[..s.ti] + "";
  }

  lemma PassedAdvance(p: string, t: string, s: State)
    requires Sane(p, t, s) && Passed(p, t, s) && Consumes(p, t, s)
    ensures Passed(p, t, Advance(s))
  {
    OneMatches(p[s.pi], t[s.ti]);
    assert t[s.ti..s.ti + 1] == [t[s.ti]];
    ExtendPassed(p, t, s.pi, s.ti, s.ti + 1);
  }

  lemma PassedRemember(p: string, t: string, s: State)
    requires Sane(p, t, s) && Passed(p, t, s) && AtStar(p, s)
    ensures Passed(p, t, Remember(s))
  {
    StarMatches("");
    assert t[s.ti..s.ti] == "";
    ExtendPassed(p, t, s.pi, s.ti, s.ti);
  }

  // ----- a false answer is right when the text has no star -----

  /** A later starting point for the part after the last star would do. */
  ghost predicate Later(p: string, t: string, s: State)
    requires Sane(p, t, s)
  {
    s.starP >= 0 && exists k | s.starT < k <= |t| :: Matches(p[s.starP + 1..], t[k..])
  }

  /** Some continuation of the current search succeeds. */
  ghost predicate Live(p: string, t: string, s: State)
    requires Sane(p, t, s)
  {
    Matches(p[s.pi..], t[s.ti..]) || Later(p, t, s)
  }

  /** A later start fits in the text and leaves a later position for the rest. */
  lemma LaterRest(p: string, t: string, s: State) returns (k: nat)
    requires Sane(p, t, s) && Later(p, t, s) && NoStarSince(p, s)
    ensures s.ti < k <= |t| && Matches(p[s.pi..], t[k..])
  {
    var j :| s.starT < j <= |t| && Matches(p[s.starP + 1..], t[j..]);
    var part := p[s.starP + 1..s.pi];
    assert p[s.starP + 1..] == part + p[s.pi..];
    FixedPart(part, p[s.pi..], t[j..]);
    k := j + |part|;
    assert t[j..][|part|..] == t[k..];
  }

  lemma {:induction false} RunComplete(p: string, t: string, s: State)
    requires Sane(p, t, s) && '*' !in t && NoStarSince(p, s) && Live(p, t, s)
    ensures Run(p, t, s)
    decreases |p| - s.starP, |t| - s.starT, |t| - s.ti
  {
    if s.ti == |t| {
      EndLive(p, t, s);
    } else if Consumes(p, t, s) {
      AdvanceLive(p, t, s);
      RunComplete(p, t, Advance(s));
    } else if AtStar(p, s) {
      RememberLive(p, t, s);
      RunComplete(p, t, Remember(s));
    } else {
      RetryLive(p, t, s);
      RunComplete(p, t, Retry(s));
    }
  }

  predicate NoStarSince(p: string, s: State)
    requires s.pi <= |p| && -1 <= s.starP < s.pi
  {
    s.starP >= 0 ==> '*' !in p[s.starP + 1..s.pi]
  }

  lemma EndLive(p: string, t: string, s: State)
    requires Sane(p, t, s) && s.ti == |t| && NoStarSince(p, s) && Live(p, t, s)
    ensures AllStars(p[s.pi..])
  {
    if !Matches(p[s.pi..], t[s.ti..]) {
      var k := LaterRest(p, t, s);
    }
    EmptyText(p[s.pi..]);
  }

  lemma AdvanceLive(p: string, t: string, s: State)
    requires Sane(p, t, s) && Consumes(p, t, s) && p[s.pi] != '*' && Live(p, t, s) && NoStarSince(p, s)
    ensures Live(p, t, Advance(s)) && NoStarSince(p, Advance(s))
  {
    assert p[s.pi..][1..] == p[s.pi + 1..] && t[s.ti..][1..] == t[s.ti + 1..];
  }

  lemma RetryLive(p: string, t: string, s: State)
    requires Sane(p, t, s) && s.ti < |t| && !Consumes(p, t, s) && !AtStar(p, s) && Live(p, t, s)
    ensures s.starP >= 0 && Live(p, t, Retry(s)) && NoStarSince(p, Retry(s))
  {
    StuckFails(p, t, s);
    var k :| s.starT < k <= |t| && Matches(p[s.starP + 1..], t[k..]);
    LaterNext(p, t, s, k);
  }

  lemma StuckFails(p: string, t: string, s: State)
    requires Sane(p, t, s) && s.ti < |t| && !Consumes(p, t, s) && !AtStar(p, s)
    ensures !Matches(p[s.pi..], t[s.ti..])
  {}

  lemma LaterNext(p: string, t: string, s: State, k: nat)
    requires Sane(p, t, s) && s.starP >= 0 && s.starT < s.ti + 1 <= |t|
    requires s.starT < k <= |t| && Matches(p[s.starP + 1..], t[k..])
    ensures Live(p, t, Retry(s))
  {
    assert k == s.starT + 1 || Later(p, t, Retry(s));
  }

  /** Forgetting every star but the last loses no match. */
  lemma RememberLive(p: string, t: string, s: State)
    requires Sane(p, t, s) && s.ti < |t| && AtStar(p, s) && Live(p, t, s) && NoStarSince(p, s)
    ensures Live(p, t, Remember(s))
  {
    var k := s.ti;
    if !Matches(p[s.pi..], t[s.ti..]) {
      k := LaterRest(p, t, s);
    }
    var m := StarSkipsTo(p, t, s.pi, k);
    SkippedLive(p, t, s, m);
  }

  lemma StarSkipsTo(p: string, t: string, i: nat, k: nat) returns (m: nat)
    requires i < |p| && p[i] == '*' && k <= |t| && Matches(p[i..], t[k..])
    ensures k <= m <= |t| && Matches(p[i + 1..], t[m..])
  {
    StarSkips(p[i..], t[k..]);
    var j :| 0 <= j <= |t[k..]| && Matches(p[i..][1..], t[k..][j..]);
    assert p[i..][1..] == p[i + 1..] && t[k..][j..] == t[k + j..];
    m := k + j;
  }

  lemma SkippedLive(p: string, t: string, s: State, m: nat)
    requires Sane(p, t, s) && AtStar(p, s) && s.ti <= m <= |t| && Matches(p[s.pi + 1..], t[m..])
    ensures Live(p, t, Remember(s))
  {
    assert m == s.ti || Later(p, t, Remember(s));
  }

  // ----- when the matcher is right -----

  /** The matcher answers as the meaning says. */
  predicate Right(p: string, t: string) {
    Run(p, t, START) <==> Matches(p, t)
  }

  lemma TrueIsRight(p: string, t: string)
    requires Run(p, t, START)
    ensures Matches(p, t)
  {
    assert p[..0] == "" && t[..0] == "";
    RunSound(p, t, START);
  }

  lemma RightWithoutStarInText(p: string, t: string)
    requires '*' !in t
    ensures Right(p, t)
  {
    if Run(p, t, START) {
      TrueIsRight(p, t);
    }
    if Matches(p, t) {
      assert p[0..] == p && t[0..] == t;
      RunComplete(p, t, START);
    }
  }

  lemma {:induction false} SelfMatch(p: string)
    ensures Matches(p, p)
  {
    if p != "" {
      SelfMatch(p[1..]);
      OneMatches(p[0], p[0]);
      MatchesAppend([p[0]], [p[0]], p[1..], p[1..]);
      assert p == [p[0]] + p[1..];
    }
  }

  /** A shared prefix is consumed literally, its stars included. */
  lemma {:induction false} SharedPrefix(p: string, t: string, k: nat)
    requires k <= |p| && k <= |t| && p[..k] == t[..k]
    ensures Run(p, t, START) == Run(p, t, State(k, k, -1, 0))
  {
    if k > 0 {
      assert p[..k][..k - 1] == t[..k][..k - 1];
      SharedPrefix(p, t, k - 1);
      assert p[..k][k - 1] == t[..k][k - 1];
    }
  }

  /** With no star remembered and none ahead, the answer is the meaning. */
  lemma {:induction false} NoStarAhead(p: string, t: string, k: nat)
    requires k <= |p| && k <= |t| && '*' !in p[k..]
    ensures Run(p, t, State(k, k, -1, 0)) <==> Matches(p[k..], t[k..])
    ensures Matches(p[k..], t[k..]) ==> |p| == |t|
    decreases |t| - k
  {
    if k == |t| {
      EmptyText(p[k..]);
      assert AllStars(p[k..]) ==> p[k..] == "";
    } else if Consumes(p, t, State(k, k, -1, 0)) {
      assert p[k..][1..] == p[k + 1..] && t[k..][1..] == t[k + 1..];
      NoStarAhead(p, t, k + 1);
    } else {
      assert k < |p| ==> p[k..][0] == p[k];
    }
  }

  lemma LastStar(s: string) returns (k: nat)
    requires '*' in s
    ensures k < |s| && s[k] == '*' && '*' !in s[k + 1..]
  {
    if s[|s| - 1] == '*' {
      k := |s| - 1;
    } else {
      var r := s[..|s| - 1];
      k := LastStar(r);
      assert s[k + 1..] == r[k + 1..] + [s[|s| - 1]];
    }
  }

  /** Every text with a star is misjudged by some pattern. */
  lemma StarInText(t: string) returns (p: string)
    requires '*' in t
    ensures Matches(p, t) && !Run(p, t, START)
  {
    var k := LastStar(t);
    var head, tail := t[..k], t[k + 1..];
    p := head + ("*" + ("?" + tail));
    QuestionTakesStar(head, tail);
    assert t == head + ("*" + tail);
    TooLong(p, t, k + 1);
  }

  lemma QuestionTakesStar(head: string, tail: string)
    ensures Matches(head + ("*" + ("?" + tail)), head + ("*" + tail))
  {
    SelfMatch(head);
    SelfMatch(tail);
    OneMatches('?', '*');
    StarMatches("");
    MatchesAppend("?", "*", tail, tail);
    MatchesAppend("*", "", "?" + tail, "*" + tail);
    assert "" + ("*" + tail) == "*" + tail;
    MatchesAppend(head, head, "*" + ("?" + tail), "*" + tail);
  }

  /** Past a shared prefix, a rest of another length without stars is refused. */
  lemma TooLong(p: string, t: string, k: nat)
    requires k <= |p| && k <= |t| && p[..k] == t[..k] && '*' !in p[k..] && |p| != |t|
    ensures !Run(p, t, START)
  {
    SharedPrefix(p, t, k);
    NoStarAhead(p, t, k);
  }

  /** Every pattern with a star misjudges some text. */
  lemma StarInPattern(p: string) returns (t: string)
    requires '*' in p
    ensures Matches(p, t) && !Run(p, t, START)
  {
    var k := LastStar(p);
    var head, tail := p[..k], p[k + 1..];
    t := head + ("*x" + tail);
    StarTakesTwo(head, tail);
    assert p == head + ("*" + tail);
    TooLong(p, t, k + 1);
  }

  lemma StarTakesTwo(head: string, tail: string)
    ensures Matches(head + ("*" + tail), head + ("*x" + tail))
  {
    SelfMatch(head);
    SelfMatch(tail);
    StarMatches("*x");
    MatchesAppend("*", "*x", tail, tail);
    MatchesAppend(head, head, "*" + tail, "*x" + tail);
  }

  /** The texts every pattern judges rightly are those without a star. */
  lemma TextsJudgedRightly(t: string)
    ensures (forall p :: Right(p, t)) <==> '*' !in t
  {
    if '*' in t {
      var p := StarInText(t);
      assert !Right(p, t);
    } else {
      forall p ensures Right(p, t) {
        RightWithoutStarInText(p, t);
      }
    }
  }

  /** The patterns that judge every text rightly are those without a star. */
  lemma PatternsJudgingRightly(p: string)
    ensures (forall t :: Right(p, t)) <==> '*' !in p
  {
    if '*' in p {
      var t := StarInPattern(p);
      assert !Right(p, t);
    } else {
      forall t ensures Right(p, t) {
        assert p[0..] == p && t[0..] == t;
        NoStarAhead(p, t, 0);
      }
    }
  }
}
