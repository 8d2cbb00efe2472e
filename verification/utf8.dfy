/**
 Strict UTF-8 (sections 3 and 4 of RFC 3629).  Decoding is specified by encoding:
 a scalar value is read exactly where its encoding stands.  Shifts and masks are
 written as multiplication, division and remainder by powers of two.
 */
module Utf8 {

  type Byte = b: int | 0 <= b < 256

  type Bytes = seq<Byte>

  const REPLACEMENT := 0xFFFD

  /** A Unicode scalar value: a code point that is not a surrogate. */
  predicate Scalar(c: int) {
    0 <= c <= 0x10FFFF && !(0xD800 <= c <= 0xDFFF)
  }

  datatype Decoded = Decoded(codepoint: int, length: nat)

  function Cont(n: int): Byte {
    0x80 + n % 64
  }

  /** Empty for anything but a scalar value. */
  function Encode(c: int): Bytes {
    if !Scalar(c) then []
    else if c < 0x80 then [c]
    else if c < 0x800 then [0xC0 + c / 64, Cont(c)]
    else if c < 0x10000 then [0xE0 + c / 4096, Cont(c / 64), Cont(c)]
    else [0xF0 + c / 262144, Cont(c / 4096), Cont(c / 64), Cont(c)]
  }

  // ----- what decoding means -----

  /** The text starts with the encoding of `c`. */
  predicate Starts(t: Bytes, c: int) {
    Scalar(c) && Encode(c) <= t
  }

  /** What stands at the start of a text: a scalar value with the length of its
      encoding, or one ill-formed byte, or nothing. */
  ghost function Head(t: Bytes): Decoded {
    if c :| Starts(t, c) then Decoded(c, |Encode(c)|)
    else Decoded(REPLACEMENT, if t == [] then 0 else 1)
  }

  function LeadLength(b: Byte): nat {
    if 0xC2 <= b <= 0xDF then 2 else if 0xE0 <= b <= 0xEF then 3 else if 0xF0 <= b <= 0xF4 then 4 else 1
  }

  predicate Continuation(b: Byte) {
    b / 64 == 2
  }

  function SecondMin(lead: Byte): Byte {
    if lead == 0xE0 then 0xA0 else if lead == 0xF0 then 0x90 else 0x80
  }

  function SecondMax(lead: Byte): Byte {
    if lead == 0xED then 0x9F else if lead == 0xF4 then 0x8F else 0xBF
  }

  /** The bytes permitted after each lead byte. */
  predicate Shaped(e: Bytes) {
    && |e| >= 2 && LeadLength(e[0]) == |e|
    && SecondMin(e[0]) <= e[1] <= SecondMax(e[0])
    && forall k | 2 <= k < |e| :: Continuation(e[k])
  }

  lemma EncodeShape(c: int)
    requires Scalar(c)
    ensures |Encode(c)| >= 1
    ensures c < 0x80 ==> Encode(c) == [c]
    ensures c >= 0x80 ==> Encode(c)[0] >= 0x80 && Shaped(Encode(c))
  {
    assert Encode(c)[0] == 0xED ==> c / 64 < 0xD800 / 64;
  }

  /** The payload bits of a lead byte. */
  function LeadBits(lead: Byte, length: nat): int {
    if length == 2 then lead % 32 else if length == 3 then lead % 16 else lead % 8
  }

  function Join(c: int, b: Byte): int {
    c * 64 + b % 64
  }

  /** The number the payload bits of the first `k` bytes spell. */
  function Bits(e: Bytes, k: nat): int
    requires 1 <= k <= |e|
  {
    if k == 1 then LeadBits(e[0], |e|) else Join(Bits(e, k - 1), e[k - 1])
  }

  lemma TwoBytes(e: Bytes)
    requires Shaped(e) && |e| == 2
    ensures Scalar(Bits(e, 2)) && Encode(Bits(e, 2)) == e
  {
    assert Bits(e, 1) == LeadBits(e[0], 2);
  }

  lemma ThreeBytes(e: Bytes)
    requires Shaped(e) && |e| == 3
    ensures Scalar(Bits(e, 3)) && Encode(Bits(e, 3)) == e
  {
    var a: int, b: int, c: int := e[0] % 16, e[1] % 64, e[2] % 64;
    assert Bits(e, 1) == a;
    assert Bits(e, 2) == a * 64 + b;
    ThreeParts(a, b, c, Bits(e, 3));
    ThreeEncode(e, Bits(e, 3));
  }

  lemma ThreeEncode(e: Bytes, n: int)
    requires Shaped(e) && |e| == 3
    requires n / 4096 == e[0] % 16 && (n / 64) % 64 == e[1] % 64 && n % 64 == e[2] % 64
    requires n / 64 == (e[0] % 16) as int * 64 + e[1] % 64
    ensures Scalar(n) && Encode(n) == e
  {}

  lemma ThreeParts(a: int, b: int, c: int, n: int)
    requires 0 <= b < 64 && 0 <= c < 64 && n == (a * 64 + b) * 64 + c
    ensures n / 4096 == a && n / 64 == a * 64 + b && (n / 64) % 64 == b && n % 64 == c
  {}

  lemma FourBytes(e: Bytes)
    requires Shaped(e) && |e| == 4
    ensures Scalar(Bits(e, 4)) && Encode(Bits(e, 4)) == e
  {
    var a: int, b: int, c: int, d: int := e[0] % 8, e[1] % 64, e[2] % 64, e[3] % 64;
    assert Bits(e, 1) == a;
    assert Bits(e, 2) == a * 64 + b;
    assert Bits(e, 3) == (a * 64 + b) * 64 + c;
    FourParts(a, b, c, d, Bits(e, 4));
    FourEncode(e, Bits(e, 4));
  }

  lemma FourEncode(e: Bytes, n: int)
    requires Shaped(e) && |e| == 4
    requires n / 262144 == e[0] % 8 && (n / 4096) % 64 == e[1] % 64 && (n / 64) % 64 == e[2] % 64 && n % 64 == e[3] % 64
    requires n / 4096 == (e[0] % 8) as int * 64 + e[1] % 64
    ensures Scalar(n) && Encode(n) == e
  {}

  lemma FourParts(a: int, b: int, c: int, d: int, n: int)
    requires 0 <= b < 64 && 0 <= c < 64 && 0 <= d < 64 && n == ((a * 64 + b) * 64 + c) * 64 + d
    ensures n / 262144 == a && n / 4096 == a * 64 + b && (n / 4096) % 64 == b && (n / 64) % 64 == c && n % 64 == d
  {}

  /** Shaped bytes are exactly the encodings of their payloads. */
  lemma ShapedIsEncoding(e: Bytes)
    requires Shaped(e)
    ensures Scalar(Bits(e, |e|)) && Encode(Bits(e, |e|)) == e
  {
    if |e| == 2 {
      TwoBytes(e);
    } else if |e| == 3 {
      ThreeBytes(e);
    } else {
      FourBytes(e);
    }
  }

  /** No two scalar values share an encoding, nor does one encoding start another. */
  lemma PrefixFree(t: Bytes, c: int, d: int)
    requires Starts(t, c) && Starts(t, d)
    ensures c == d
  {
    EncodeShape(c);
    EncodeShape(d);
    assert Encode(c)[0] == t[0] == Encode(d)[0];
    assert |Encode(c)| == |Encode(d)|;
    assert Encode(c) == Encode(d);
    EncodeInjective(c, d);
  }

  lemma EncodeInjective(c: int, d: int)
    requires Scalar(c) && Scalar(d) && Encode(c) == Encode(d)
    ensures c == d
  {
    Recompose(c);
    Recompose(d);
    SameContinuations(c, d);
  }

  /** Byte order. */
  predicate Precedes(a: Bytes, b: Bytes) {
    exists k | 0 <= k < |a| && k < |b| :: a[..k] == b[..k] && a[k] < b[k]
  }

  /** Encoding keeps the order of scalar values: texts may be compared as bytes. */
  lemma EncodeOrder(c: int, d: int)
    requires Scalar(c) && Scalar(d) && c < d
    ensures Precedes(Encode(c), Encode(d))
  {
    var a, b := Encode(c), Encode(d);
    EncodeShape(c);
    EncodeShape(d);
    if a[0] < b[0] {
      assert a[..0] == b[..0];
    } else {
      SameLead(c, d);
    }
  }

  lemma SameLead(c: int, d: int)
    requires Scalar(c) && Scalar(d) && c < d && Encode(c) != [] && Encode(d) != [] && Encode(c)[0] >= Encode(d)[0]
    ensures Precedes(Encode(c), Encode(d))
  {
    var a, b := Encode(c), Encode(d);
    assert |a| == |b| > 1 && a[0] == b[0];
    DigitOrder(c, d);
    DigitOrder(c / 64, d / 64);
    DigitOrder(c / 4096, d / 4096);
    Recompose(c);
    Recompose(d);
    var k := if c / 64 == d / 64 then |a| - 1 else if c / 4096 == d / 4096 then |a| - 2 else |a| - 3;
    assert a[..k] == b[..k] && a[k] < b[k];
  }

  lemma DigitOrder(m: int, n: int)
    ensures m <= n ==> m / 64 <= n / 64
    ensures m < n && m / 64 == n / 64 ==> m % 64 < n % 64
  {}

  lemma Recompose(c: int)
    ensures c == (c / 64) * 64 + c % 64
    ensures c / 64 == (c / 4096) * 64 + (c / 64) % 64
    ensures c / 4096 == (c / 262144) * 64 + (c / 4096) % 64
  {}

  lemma SameContinuations(c: int, d: int)
    requires Scalar(c) && Scalar(d) && Encode(c) == Encode(d)
    ensures (c < 0x80 <==> d < 0x80) && (c < 0x800 <==> d < 0x800) && (c < 0x10000 <==> d < 0x10000)
    ensures c < 0x80 ==> c == d
    ensures c >= 0x80 ==> c % 64 == d % 64
    ensures 0x80 <= c < 0x800 ==> c / 64 == d / 64
    ensures c >= 0x800 ==> (c / 64) % 64 == (d / 64) % 64
    ensures 0x800 <= c < 0x10000 ==> c / 4096 == d / 4096
    ensures c >= 0x10000 ==> (c / 4096) % 64 == (d / 4096) % 64 && c / 262144 == d / 262144
  {
    assert |Encode(c)| == |Encode(d)|;
    assert Encode(c)[0] == Encode(d)[0];
    assert c >= 0x80 ==> Encode(c)[1] == Encode(d)[1];
    assert c >= 0x800 ==> Encode(c)[2] == Encode(d)[2];
    assert c >= 0x10000 ==> Encode(c)[3] == Encode(d)[3];
  }

  lemma HeadStarts(t: Bytes, c: int)
    requires Starts(t, c)
    ensures Head(t) == Decoded(c, |Encode(c)|)
  {
    var d :| Starts(t, d) && Head(t) == Decoded(d, |Encode(d)|);
    PrefixFree(t, c, d);
  }

  // ----- the decoder -----

  method Decode(s: Bytes, pos: nat) returns (r: Decoded)
    ensures r == if pos < |s| then Head(s[pos..]) else Decoded(REPLACEMENT, 0)
  {
    if pos >= |s| {
      return Decoded(REPLACEMENT, 0);
    }
    ghost var t := s[pos..];
    var lead := s[pos];
    if lead < 0x80 {
      HeadStarts(t, lead);
      return Decoded(lead, 1);
    }
    var length := LeadLength(lead);
    if length == 1 || pos + length > |s| {
      IllFormed(t);
      return Decoded(REPLACEMENT, 1);
    }
    var second := s[pos + 1];
    if second < SecondMin(lead) || second > SecondMax(lead) {
      IllFormed(t);
      return Decoded(REPLACEMENT, 1);
    }
    ghost var e := s[pos..pos + length];
    for k := 2 to length
      invariant forall j | 2 <= j < k :: Continuation(e[j])
    {
      if !Continuation(s[pos + k]) {
        assert e[k] == s[pos + k] && t[..length] == e;
        IllFormed(t);
        return Decoded(REPLACEMENT, 1);
      }
    }
    var c := LeadBits(lead, length);
    for k := 1 to length
      invariant c == Bits(e, k)
    {
      c := Join(c, s[pos + k]);
    }
    ShapedIsEncoding(e);
    HeadStarts(t, c);
    return Decoded(c, length);
  }

  /** Without ASCII or a permitted run of bytes in front, the first byte is ill-formed. */
  lemma IllFormed(t: Bytes)
    requires t != [] && t[0] >= 0x80
    requires LeadLength(t[0]) <= |t| ==> !Shaped(t[..LeadLength(t[0])])
    ensures Head(t) == Decoded(REPLACEMENT, 1)
  {
    if c :| Starts(t, c) {
      StartsShape(t, c);
    }
  }

  lemma StartsShape(t: Bytes, c: int)
    requires t != [] && Starts(t, c) && t[0] >= 0x80
    ensures LeadLength(t[0]) <= |t| && Shaped(t[..LeadLength(t[0])])
  {
    EncodeShape(c);
    assert Encode(c)[0] == t[0] && t[..|Encode(c)|] == Encode(c);
  }

  // ----- the walk over a text -----

  predicate Scalars(cs: seq<int>) {
    forall i | 0 <= i < |cs| :: Scalar(cs[i])
  }

  function EncodeAll(cs: seq<int>): Bytes {
    if cs == [] then [] else Encode(cs[0]) + EncodeAll(cs[1..])
  }

  lemma HeadBounds(t: Bytes)
    ensures t == [] ==> Head(t).length == 0
    ensures t != [] ==> 1 <= Head(t).length <= 4 && Head(t).length <= |t|
    ensures Scalar(Head(t).codepoint)
    ensures Head(t).length > 1 ==> Encode(Head(t).codepoint) == t[..Head(t).length]
  {
    if c :| Starts(t, c) && Head(t) == Decoded(c, |Encode(c)|) {
      EncodeShape(c);
    }
  }

  /** The values read from a text, one per piece. */
  ghost function Walk(t: Bytes): seq<int> {
    HeadBounds(t);
    if t == [] then [] else [Head(t).codepoint] + Walk(t[Head(t).length..])
  }

  predicate StartsFresh(t: Bytes) {
    t == [] || !Continuation(t[0])
  }

  lemma EncodingStartsFresh(cs: seq<int>)
    requires Scalars(cs)
    ensures StartsFresh(EncodeAll(cs))
  {
    if cs != [] {
      EncodeShape(cs[0]);
    }
  }

  /** A piece that starts before well-formed text ends before it. */
  lemma HeadStaysInside(u: Bytes, v: Bytes)
    requires u != [] && StartsFresh(v)
    ensures Head(u + v) == Head(u)
  {
    if c :| Starts(u + v, c) {
      EncodeShape(c);
      var e := Encode(c);
      assert forall k | 0 <= k < |e| :: e[k] == (u + v)[k];
      assert forall k | 1 <= k < |e| :: Continuation(e[k]);
      assert v != [] ==> (u + v)[|u|] == v[0];
      assert |e| <= |u|;
      assert e == (u + v)[..|e|] == u[..|e|];
      HeadStarts(u + v, c);
      HeadStarts(u, c);
    } else {
      assert forall c :: Starts(u, c) ==> Starts(u + v, c);
    }
  }

  lemma WalkStep(t: Bytes, d: Decoded)
    requires t != [] && Head(t) == d
    ensures 1 <= d.length <= |t| && Walk(t) == [d.codepoint] + Walk(t[d.length..])
  {
    HeadBounds(t);
  }

  /** The walk resynchronises: well-formed text is read whole whatever precedes it. */
  lemma {:induction false} WalkAppend(u: Bytes, v: Bytes)
    requires StartsFresh(v)
    ensures Walk(u + v) == Walk(u) + Walk(v)
    decreases |u|
  {
    if u == [] {
      assert u + v == v;
    } else {
      var d := Head(u);
      HeadStaysInside(u, v);
      WalkStep(u, d);
      WalkRest(u, v, d);
      WalkAppend(u[d.length..], v);
      Reassociate([d.codepoint], Walk(u[d.length..]), Walk(v));
    }
  }

  lemma WalkRest(u: Bytes, v: Bytes, d: Decoded)
    requires u != [] && Head(u + v) == d && d.length <= |u|
    ensures Walk(u + v) == [d.codepoint] + Walk(u[d.length..] + v)
  {
    WalkStep(u + v, d);
    assert (u + v)[d.length..] == u[d.length..] + v;
  }

  lemma Reassociate(a: seq<int>, b: seq<int>, c: seq<int>)
    ensures a + (b + c) == (a + b) + c
  {}

  /** Decoding the encodings of any scalar values gives them back. */
  lemma {:induction false} DecodeEncode(cs: seq<int>)
    requires Scalars(cs)
    ensures Walk(EncodeAll(cs)) == cs
  {
    if cs != [] {
      ReadFirst(cs[0], EncodeAll(cs[1..]));
      DecodeEncode(cs[1..]);
      assert cs == [cs[0]] + cs[1..];
    }
  }

  lemma ReadFirst(c: int, rest: Bytes)
    requires Scalar(c)
    ensures Walk(Encode(c) + rest) == [c] + Walk(rest)
  {
    var t := Encode(c) + rest;
    EncodeShape(c);
    HeadStarts(t, c);
    WalkStep(t, Head(t));
    assert t[|Encode(c)|..] == rest;
  }

  lemma {:induction false} WalkScalars(t: Bytes)
    ensures Scalars(Walk(t))
    decreases |t|
  {
    HeadBounds(t);
    if t != [] {
      WalkScalars(t[Head(t).length..]);
    }
  }

  ghost predicate WellFormed(t: Bytes) {
    exists cs :: Scalars(cs) && EncodeAll(cs) == t
  }

  /** Re-encoding what was read gives the text back exactly when it is well formed. */
  lemma EncodeDecode(t: Bytes)
    ensures EncodeAll(Walk(t)) == t <==> WellFormed(t)
  {
    WalkScalars(t);
    if cs :| Scalars(cs) && EncodeAll(cs) == t {
      DecodeEncode(cs);
    }
  }

  /** Valid text after arbitrary bytes is read as itself. */
  lemma NeverSkipsValidText(u: Bytes, cs: seq<int>)
    requires Scalars(cs)
    ensures Walk(u + EncodeAll(cs)) == Walk(u) + cs
  {
    EncodingStartsFresh(cs);
    WalkAppend(u, EncodeAll(cs));
    DecodeEncode(cs);
  }

  // ----- positions -----

  /** The byte offset after `n` pieces, staying at the end once there. */
  ghost function Offset(s: Bytes, n: nat): (r: nat)
    ensures r <= |s|
  {
    if n == 0 then 0 else
      var p := Offset(s, n - 1);
      HeadBounds(s[p..]);
      p + Head(s[p..]).length
  }

  /** The pieces split the text: after `n` of them, the rest of the walk remains. */
  lemma {:induction false} OffsetSplits(s: Bytes, n: nat)
    requires n <= |Walk(s)|
    ensures Walk(s[Offset(s, n)..]) == Walk(s)[n..]
    ensures Offset(s, n) < |s| <==> n < |Walk(s)|
  {
    var p := Offset(s, n);
    if n == 0 {
      assert s[0..] == s;
    } else {
      OffsetSplits(s, n - 1);
      var q := Offset(s, n - 1);
      WalkStep(s[q..], Head(s[q..]));
      assert s[q..][Head(s[q..]).length..] == s[p..];
      assert Walk(s)[n - 1..][1..] == Walk(s)[n..];
    }
    assert s[p..] == [] <==> Walk(s[p..]) == [];
  }

  /** Pieces are 1 to 4 bytes long. */
  lemma PieceLength(s: Bytes, n: nat)
    requires n < |Walk(s)|
    ensures 1 <= Offset(s, n + 1) - Offset(s, n) <= 4
    ensures Head(s[Offset(s, n)..]).codepoint == Walk(s)[n]
  {
    OffsetSplits(s, n);
    var p := Offset(s, n);
    HeadBounds(s[p..]);
    WalkStep(s[p..], Head(s[p..]));
    assert Walk(s)[n..][0] == Walk(s)[n];
  }

  lemma {:induction false} OffsetSaturates(s: Bytes, n: nat)
    requires n >= |Walk(s)|
    ensures Offset(s, n) == |s|
  {
    if n == |Walk(s)| {
      OffsetSplits(s, n);
    } else {
      OffsetSaturates(s, n - 1);
      HeadBounds([]);
      assert s[|s|..] == [];
    }
  }

  lemma {:induction false} OffsetGrows(s: Bytes, m: nat, n: nat)
    requires m < n <= |Walk(s)|
    ensures Offset(s, m) < Offset(s, n)
    decreases n - m
  {
    OffsetSteps(s, m);
    if m + 1 < n {
      OffsetGrows(s, m + 1, n);
    }
  }

  lemma OffsetSteps(s: Bytes, n: nat)
    requires n < |Walk(s)|
    ensures Offset(s, n) < Offset(s, n + 1)
  {
    PieceLength(s, n);
  }

  function Min(a: nat, b: nat): nat {
    if a <= b then a else b
  }

  /** The first piece boundary at or after a byte position, as a piece count. */
  ghost predicate IsIndex(s: Bytes, bytePos: nat, n: nat) {
    && n <= |Walk(s)| && Offset(s, n) >= Min(bytePos, |s|)
    && forall m: nat | m < n :: Offset(s, m) < bytePos
  }

  lemma IndexUnique(s: Bytes, bytePos: nat, m: nat, n: nat)
    requires IsIndex(s, bytePos, m) && IsIndex(s, bytePos, n)
    ensures m == n
  {
    OffsetSplits(s, m);
    OffsetSplits(s, n);
    assert m < n ==> Offset(s, m) < Offset(s, n) by {
      if m < n { OffsetGrows(s, m, n); }
    }
    assert n < m ==> Offset(s, n) < Offset(s, m) by {
      if n < m { OffsetGrows(s, n, m); }
    }
  }

  /** The index of an offset is the piece count it came from, saturating. */
  lemma IndexOfOffset(s: Bytes, n: nat)
    ensures IsIndex(s, Offset(s, n), Min(n, |Walk(s)|))
  {
    var k := Min(n, |Walk(s)|);
    if n >= |Walk(s)| {
      OffsetSaturates(s, n);
      OffsetSaturates(s, k);
    }
    forall m: nat | m < k ensures Offset(s, m) < Offset(s, n) {
      OffsetGrows(s, m, k);
    }
  }

  /** The offset of an index is the byte position itself exactly at boundaries,
      and the end of the text for positions past it. */
  lemma OffsetOfIndex(s: Bytes, bytePos: nat, n: nat)
    requires IsIndex(s, bytePos, n)
    ensures bytePos >= |s| ==> n == |Walk(s)| && Offset(s, n) == |s|
    ensures Offset(s, n) == bytePos <==> exists m: nat :: Offset(s, m) == bytePos
  {
    OffsetSplits(s, n);
    if m: nat :| Offset(s, m) == bytePos {
      IndexOfOffset(s, m);
      IndexUnique(s, bytePos, n, Min(m, |Walk(s)|));
      if m > |Walk(s)| {
        OffsetSaturates(s, m);
        OffsetSaturates(s, |Walk(s)|);
      }
    }
  }

  class Iterator {
    const text: Bytes
    var byteOffset: nat
    var codepointIndex: nat

    ghost predicate Valid()
      reads this
    {
      codepointIndex <= |Walk(text)| && byteOffset == Offset(text, codepointIndex)
    }

    constructor (text: Bytes)
      ensures Valid() && this.text == text && codepointIndex == 0
    {
      this.text := text;
      byteOffset, codepointIndex := 0, 0;
    }

    /** Reads the piece at the current position and moves past it; stays put at the end. */
    method Next() returns (c: int)
      requires Valid()
      modifies this
      ensures Valid()
      ensures old(codepointIndex) < |Walk(text)| ==>
                codepointIndex == old(codepointIndex) + 1 && c == Walk(text)[old(codepointIndex)]
      ensures old(codepointIndex) == |Walk(text)| ==> codepointIndex == old(codepointIndex) && c == REPLACEMENT
    {
      OffsetSplits(text, codepointIndex);
      if codepointIndex < |Walk(text)| {
        PieceLength(text, codepointIndex);
      }
      var decoded := Decode(text, byteOffset);
      Step(decoded.length);
      c := decoded.codepoint;
    }

    method Advance()
      requires Valid()
      modifies this
      ensures Valid()
      ensures codepointIndex == Min(old(codepointIndex) + 1, |Walk(text)|)
    {
      OffsetSplits(text, codepointIndex);
      if codepointIndex < |Walk(text)| {
        PieceLength(text, codepointIndex);
      }
      var decoded := Decode(text, byteOffset);
      Step(decoded.length);
    }

    method Step(length: nat)
      modifies this
      ensures byteOffset == old(byteOffset) + length
      ensures codepointIndex == old(codepointIndex) + if length == 0 then 0 else 1
    {
      if length == 0 {
        return;
      }
      byteOffset := byteOffset + length;
      codepointIndex := codepointIndex + 1;
    }

    predicate AtEnd()
      reads this
    {
      byteOffset >= |text|
    }

    lemma EndReached()
      requires Valid()
      ensures AtEnd() <==> codepointIndex == |Walk(text)|
    {
      OffsetSplits(text, codepointIndex);
    }
  }

  method CodepointCount(s: Bytes) returns (count: nat)
    ensures count == |Walk(s)|
  {
    count := 0;
    var pos := 0;
    OffsetSplits(s, 0);
    while pos < |s|
      invariant count <= |Walk(s)| && pos == Offset(s, count) && (pos < |s| <==> count < |Walk(s)|)
      decreases |s| - pos
    {
      PieceLength(s, count);
      var decoded := Decode(s, pos);
      pos := pos + decoded.length;
      count := count + 1;
      OffsetSplits(s, count);
    }
  }

  /** The byte offset of the `n`-th codepoint; a negative `n` gives the start. */
  method ByteOffset(s: Bytes, n: int) returns (r: nat)
    ensures r == Offset(s, if n < 0 then 0 else n)
  {
    var it := new Iterator(s);
    it.EndReached();
    while !it.AtEnd() && it.codepointIndex < n
      invariant it.Valid() && it.text == s && fresh(it)
      invariant it.codepointIndex <= if n < 0 then 0 else n
      invariant it.AtEnd() <==> it.codepointIndex == |Walk(s)|
      decreases |Walk(s)| - it.codepointIndex
    {
      it.Advance();
      it.EndReached();
    }
    r := it.byteOffset;
    if it.AtEnd() && n >= 0 {
      OffsetSaturates(s, n);
    }
  }

  method CodepointIndex(s: Bytes, bytePos: nat) returns (r: nat)
    ensures IsIndex(s, bytePos, r)
  {
    var it := new Iterator(s);
    it.EndReached();
    while !it.AtEnd() && it.byteOffset < bytePos
      invariant it.Valid() && it.text == s && fresh(it)
      invariant forall m: nat | m < it.codepointIndex :: Offset(s, m) < bytePos
      invariant it.AtEnd() <==> it.codepointIndex == |Walk(s)|
      decreases |Walk(s)| - it.codepointIndex
    {
      it.Advance();
      it.EndReached();
    }
    r := it.codepointIndex;
  }
}
