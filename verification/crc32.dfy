/**
 CRC-32 (section 8 of RFC 1952): the table-driven checksum against the register
 that shifts in one bit at a time, and what linearity gives.
 */
module Crc32 {
  type Word = bv32

  type Byte = bv8

  const POLYNOMIAL: Word := 0xEDB88320

  const MASK: Word := 0xFFFFFFFF

  // ----- registers in general -----

  function Iterate<T>(f: T -> T, x: T, n: nat): T
    decreases n
  {
    if n == 0 then x else Iterate(f, f(x), n - 1)
  }

  /** A register that takes in `n` parts of one input, each step leaving the rest. */
  function Absorb<R, B>(step: (R, B) -> R, next: B -> B, r: R, b: B, n: nat): R
    decreases n
  {
    if n == 0 then r else Absorb(step, next, step(r, b), next(b), n - 1)
  }

  /** If mixing commutes with stepping, the parts might as well be mixed in at once. */
  lemma {:induction false} AbsorbIsIterate<R(!new)>(
      step: (R, R) -> R, next: R -> R, f: R -> R, mix: (R, R) -> R, zero: R, r: R, b: R, n: nat)
    requires forall r, b :: mix(step(r, b), next(b)) == f(mix(r, b))
    requires forall r :: mix(r, zero) == r
    requires Iterate(next, b, n) == zero
    ensures Absorb(step, next, r, b, n) == Iterate(f, mix(r, b), n)
    decreases n
  {
    if n > 0 {
      AbsorbIsIterate(step, next, f, mix, zero, step(r, b), next(b), n - 1);
    }
  }

  /** A register fed a sequence of inputs. */
  function Feed<R, B>(step: (R, B) -> R, r: R, data: seq<B>): R
    decreases |data|
  {
    if data == [] then r else Feed(step, step(r, data[0]), data[1..])
  }

  function Zip<B>(add: (B, B) -> B, a: seq<B>, b: seq<B>): (c: seq<B>)
    requires |a| == |b|
    ensures |c| == |a| && forall i | 0 <= i < |a| :: c[i] == add(a[i], b[i])
  {
    seq(|a|, i requires 0 <= i < |a| => add(a[i], b[i]))
  }

  ghost predicate Linear<T(!new)>(f: T -> T, add: (T, T) -> T) {
    forall x, y :: f(add(x, y)) == add(f(x), f(y))
  }

  ghost predicate JointlyLinear<R(!new), B(!new)>(step: (R, B) -> R, addR: (R, R) -> R, addB: (B, B) -> B) {
    forall x, y, a, b :: step(addR(x, y), addB(a, b)) == addR(step(x, a), step(y, b))
  }

  lemma {:induction false} IterateLinear<T(!new)>(f: T -> T, add: (T, T) -> T, x: T, y: T, n: nat)
    requires Linear(f, add)
    ensures Iterate(f, add(x, y), n) == add(Iterate(f, x, n), Iterate(f, y, n))
    decreases n
  {
    if n > 0 {
      IterateLinear(f, add, f(x), f(y), n - 1);
    }
  }

  lemma {:induction false} FeedLinear<R(!new), B(!new)>(
      step: (R, B) -> R, addR: (R, R) -> R, addB: (B, B) -> B, x: R, y: R, a: seq<B>, b: seq<B>)
    requires JointlyLinear(step, addR, addB) && |a| == |b|
    ensures Feed(step, addR(x, y), Zip(addB, a, b)) == addR(Feed(step, x, a), Feed(step, y, b))
    decreases |a|
  {
    if a != [] {
      var c := Zip(addB, a, b);
      assert c[1..] == Zip(addB, a[1..], b[1..]);
      FeedLinear(step, addR, addB, step(x, a[0]), step(y, b[0]), a[1..], b[1..]);
    }
  }

  lemma {:induction false} FeedAppend<R, B>(step: (R, B) -> R, r: R, a: seq<B>, b: seq<B>)
    ensures Feed(step, r, a + b) == Feed(step, Feed(step, r, a), b)
    decreases |a|
  {
    if a == [] {
      assert a + b == b;
    } else {
      assert (a + b)[1..] == a[1..] + b;
      FeedAppend(step, step(r, a[0]), a[1..], b);
    }
  }

  ghost predicate Injective<T(!new)>(f: T -> T) {
    forall x, y :: f(x) == f(y) ==> x == y
  }

  ghost predicate KeepsApart<R(!new), B(!new)>(step: (R, B) -> R) {
    forall x, y, b :: step(x, b) == step(y, b) ==> x == y
  }

  lemma {:induction false} IterateInjective<T(!new)>(f: T -> T, x: T, y: T, n: nat)
    requires Injective(f) && Iterate(f, x, n) == Iterate(f, y, n)
    ensures x == y
    decreases n
  {
    if n > 0 {
      IterateInjective(f, f(x), f(y), n - 1);
    }
  }

  lemma {:induction false} FeedKeepsApart<R(!new), B(!new)>(step: (R, B) -> R, x: R, y: R, data: seq<B>)
    requires KeepsApart(step) && Feed(step, x, data) == Feed(step, y, data)
    ensures x == y
    decreases |data|
  {
    if data != [] {
      FeedKeepsApart(step, step(x, data[0]), step(y, data[0]), data[1..]);
    }
  }

  lemma {:induction false} IterateAdd<T>(f: T -> T, x: T, m: nat, n: nat)
    ensures Iterate(f, Iterate(f, x, m), n) == Iterate(f, x, m + n)
    decreases m
  {
    if m > 0 {
      IterateAdd(f, f(x), m - 1, n);
    }
  }

  /** A step that mixes its input in and then iterates an injection keeps registers apart. */
  lemma StepKeepsApart<R(!new), B(!new)>(step: (R, B) -> R, f: R -> R, mix: (R, B) -> R, n: nat)
    requires Injective(f) && KeepsApart(mix) && forall x, b :: step(x, b) == Iterate(f, mix(x, b), n)
    ensures KeepsApart(step)
  {
    forall x, y, b | step(x, b) == step(y, b) ensures x == y {
      IterateInjective(f, mix(x, b), mix(y, b), n);
    }
  }

  /** A sequence folded into one value, last element innermost. */
  function Pack<R, B>(place: (B, R) -> R, zero: R, m: seq<B>): R {
    if m == [] then zero else place(m[0], Pack(place, zero, m[1..]))
  }

  ghost predicate Separates<R(!new), B(!new)>(place: (B, R) -> R, small: R -> bool) {
    forall a, v, b, w :: small(v) && small(w) && place(a, v) == place(b, w) ==> a == b && v == w
  }

  lemma {:induction false} PackInjective<R(!new), B(!new)>(
      place: (B, R) -> R, zero: R, small: R -> bool, limit: nat, m: seq<B>, n: seq<B>)
    requires Separates(place, small) && forall s | |s| <= limit :: small(Pack(place, zero, s))
    requires |m| == |n| <= limit + 1 && Pack(place, zero, m) == Pack(place, zero, n)
    ensures m == n
    decreases |m|
  {
    if m != [] {
      PackInjective(place, zero, small, limit, m[1..], n[1..]);
      assert m == [m[0]] + m[1..] && n == [n[0]] + n[1..];
    }
  }

  lemma SameSource<R(!new)>(f: R -> R, add: (R, R) -> R, x: R, p: R, q: R, n: nat)
    requires Injective(f) && Iterate(f, add(x, p), n) == Iterate(f, add(x, q), n)
    requires forall a, b, c :: add(a, b) == add(a, c) ==> b == c
    ensures p == q
  {
    IterateInjective(f, add(x, p), add(x, q), n);
  }

  // ----- the bit-at-a-time checksum -----

  function Xor(x: Word, y: Word): Word {
    x ^ y
  }

  function XorBytes(x: Byte, y: Byte): Byte {
    x ^ y
  }

  /** One shift of the register. */
  function Shift(x: Word): Word {
    if x & 1 == 1 then (x >> 1) ^ POLYNOMIAL else x >> 1
  }

  /** The register takes in the lowest bit of `b`. */
  function TakeBit(crc: Word, b: Word): Word {
    Shift(crc ^ (b & 1))
  }

  function Half(b: Word): Word {
    b >> 1
  }

  /** The register takes in the `n` lowest bits of `b`, lowest first. */
  function TakeBits(crc: Word, b: Word, n: nat): Word {
    Absorb(TakeBit, Half, crc, b, n)
  }

  function TakeByte(crc: Word, b: Byte): Word {
    TakeBits(crc, b as Word, 8)
  }

  /** The checksum, one bit at a time. */
  function BitwiseCrc(data: seq<Byte>): Word {
    Feed(TakeByte, MASK, data) ^ MASK
  }

  /** The term with exponent `e`, kept with the highest exponent in the lowest bit. */
  function Term(e: nat): Word
    requires e < 32
  {
    0x8000_0000 >> e
  }

  /** The constant holds the generator's terms below the 32nd. */
  lemma PolynomialTerms()
    ensures POLYNOMIAL ==
            Term(26) | Term(23) | Term(22) | Term(16) | Term(12) | Term(11) | Term(10) | Term(8) | Term(7) | Term(5)
            | Term(4) | Term(2) | Term(1) | Term(0)
  {}

  // ----- shifting is linear -----

  lemma HalfXor(x: Word, y: Word)
    ensures (x ^ y) >> 1 == (x >> 1) ^ (y >> 1)
    ensures (x ^ y) & 1 == (x & 1) ^ (y & 1)
  {}

  lemma LowBit(x: Word)
    ensures x & 1 == 0 || x & 1 == 1
  {}

  lemma XorRules(x: Word, y: Word, p: Word)
    ensures x ^ p ^ (y ^ p) == x ^ y && x ^ p ^ y == x ^ y ^ p && x ^ (y ^ p) == x ^ y ^ p
  {}

  lemma ShiftXor(x: Word, y: Word)
    ensures Shift(x ^ y) == Shift(x) ^ Shift(y)
  {
    HalfXor(x, y);
    LowBit(x);
    LowBit(y);
    XorRules(x >> 1, y >> 1, POLYNOMIAL);
  }

  lemma ShiftLinear()
    ensures Linear(Shift, Xor)
  {
    forall x: Word, y: Word ensures Shift(Xor(x, y)) == Xor(Shift(x), Shift(y)) {
      ShiftXor(x, y);
    }
  }

  lemma ShiftsXor(x: Word, y: Word, n: nat)
    ensures Iterate(Shift, Xor(x, y), n) == Xor(Iterate(Shift, x, n), Iterate(Shift, y, n))
  {
    ShiftLinear();
    IterateLinear(Shift, Xor, x, y, n);
  }

  // ----- the table step -----

  lemma ShiftTakes(crc: Word, b: Word)
    ensures Shift(crc ^ b) == Shift(crc ^ (b & 1)) ^ (b >> 1)
  {}

  lemma ByteFits(b: Byte)
    ensures b as Word <= 0xFF && Iterate(Half, b as Word, 8) == 0
  {
    var w := b as Word;
    assert w >> 1 >> 1 >> 1 >> 1 >> 1 >> 1 >> 1 >> 1 == 0;
    assert Iterate(Half, w, 8) == Iterate(Half, w >> 1 >> 1 >> 1 >> 1, 4);
  }

  /** Taking bits in one by one is xoring them in at once and shifting. */
  lemma TakeBitsIsShifts(crc: Word, b: Word, n: nat)
    requires Iterate(Half, b, n) == 0
    ensures TakeBits(crc, b, n) == Iterate(Shift, Xor(crc, b), n)
  {
    TakeBitCommutes();
    XorZero();
    AbsorbIsIterate(TakeBit, Half, Shift, Xor, 0, crc, b, n);
  }

  lemma TakeBitCommutes()
    ensures forall r: Word, b: Word :: Xor(TakeBit(r, b), Half(b)) == Shift(Xor(r, b))
  {
    forall r: Word, b: Word ensures Xor(TakeBit(r, b), Half(b)) == Shift(Xor(r, b)) {
      ShiftTakes(r, b);
    }
  }

  lemma XorZero()
    ensures forall r: Word :: Xor(r, 0) == r
  {}

  lemma TakeByteIsShifts(crc: Word, b: Byte, x: Word)
    requires x == crc ^ (b as Word)
    ensures TakeByte(crc, b) == Iterate(Shift, x, 8)
  {
    ByteFits(b);
    TakeBitsIsShifts(crc, b as Word, 8);
  }

  lemma Shifts8(x: Word)
    ensures Iterate(Shift, x, 8) == Shift(Shift(Shift(Shift(Shift(Shift(Shift(Shift(x))))))))
  {
    assert Iterate(Shift, x, 8) == Iterate(Shift, Shift(Shift(Shift(Shift(x)))), 4);
  }

  lemma HighBitsMove(x: Word)
    requires x & 0xFF == 0
    ensures Iterate(Shift, x, 8) == x >> 8
  {
    Shifts8(x);
  }

  lemma SplitShifts(x: Word, low: Word, high: Word)
    requires x == Xor(low, high) && high & 0xFF == 0
    ensures Iterate(Shift, x, 8) == Xor(Iterate(Shift, low, 8), high >> 8)
  {
    ShiftsXor(low, high, 8);
    HighBitsMove(high);
  }

  lemma SplitLow(x: Word)
    ensures x == Xor(x & 0xFF, x & 0xFFFFFF00)
    ensures (x & 0xFFFFFF00) & 0xFF == 0 && (x & 0xFFFFFF00) >> 8 == x >> 8
    ensures x & 0xFF <= 0xFF
  {}

  lemma HighOfXor(crc: Word, b: Byte)
    ensures (crc ^ (b as Word)) >> 8 == crc >> 8
  {}

  /** One table lookup does the work of eight shifts. */
  lemma TableStep(crc: Word, b: Byte, index: Word)
    requires index == (crc ^ (b as Word)) & 0xFF
    ensures TakeByte(crc, b) == Iterate(Shift, index, 8) ^ (crc >> 8)
  {
    var x := crc ^ (b as Word);
    TakeByteIsShifts(crc, b, x);
    SplitLow(x);
    SplitShifts(x, index, x & 0xFFFFFF00);
    HighOfXor(crc, b);
  }

  // ----- the table-driven checksum -----

  method TableEntry(i: Word, width: nat) returns (crc: Word)
    ensures crc == Iterate(Shift, i, width)
  {
    crc := i;
    for j := 0 to width
      invariant Iterate(Shift, crc, width - j) == Iterate(Shift, i, width)
    {
      if crc & 1 == 1 {
        crc := (crc >> 1) ^ POLYNOMIAL;
      } else {
        crc := crc >> 1;
      }
    }
  }

  /** The lookup table: for each byte, the register after `width` shifts. */
  predicate IsTable(table: seq<Word>, width: nat) {
    |table| == 256 && forall i | 0 <= i < 256 :: table[i] == Iterate(Shift, i as Word, width)
  }

  method MakeTable() returns (table: array<Word>)
    ensures IsTable(table[..], 8)
  {
    table := FillTable(8);
  }

  method FillTable(width: nat) returns (table: array<Word>)
    ensures IsTable(table[..], width)
  {
    table := new Word[256];
    for i := 0 to 256
      invariant forall k | 0 <= k < i :: table[k] == Iterate(Shift, k as Word, width)
    {
      var entry := TableEntry(i as Word, width);
      table[i] := entry;
    }
  }

  lemma IndexInRange(index: Word)
    requires index <= 0xFF
    ensures 0 <= index as int < 256 && (index as int) as Word == index
  {}

  method LookUp(table: array<Word>, crc: Word, b: Byte) returns (r: Word)
    requires IsTable(table[..], 8)
    ensures r == TakeByte(crc, b)
  {
    var index := (crc ^ (b as Word)) & 0xFF;
    SplitLow(crc ^ (b as Word));
    IndexInRange(index);
    TableStep(crc, b, index);
    ghost var all := table[..];
    r := table[index as int] ^ (crc >> 8);
    assert all[index as int] == Iterate(Shift, index, 8);
  }

  method Crc32Hash(data: seq<Byte>) returns (r: Word)
    ensures r == BitwiseCrc(data)
  {
    var table := MakeTable();
    var crc := MASK;
    for i := 0 to |data|
      invariant IsTable(table[..], 8)
      invariant Feed(TakeByte, crc, data[i..]) == Feed(TakeByte, MASK, data)
    {
      var next := LookUp(table, crc, data[i]);
      FeedNext(TakeByte, crc, data, i, next);
      crc := next;
    }
    return crc ^ MASK;
  }

  lemma FeedNext<R, B>(step: (R, B) -> R, r: R, data: seq<B>, i: nat, next: R)
    requires i < |data| && next == step(r, data[i])
    ensures Feed(step, next, data[i + 1..]) == Feed(step, r, data[i..])
  {
    assert data[i..][1..] == data[i + 1..];
  }

  // ----- the checksum is affine -----

  lemma Rearrange(x: Word, y: Word, a: Byte, b: Byte)
    ensures (x ^ y) ^ ((a ^ b) as Word) == (x ^ (a as Word)) ^ (y ^ (b as Word))
  {}

  lemma TakeByteXor(x: Word, y: Word, a: Byte, b: Byte)
    ensures TakeByte(Xor(x, y), XorBytes(a, b)) == Xor(TakeByte(x, a), TakeByte(y, b))
  {
    var u, v := x ^ (a as Word), y ^ (b as Word);
    Rearrange(x, y, a, b);
    TakeByteIsShifts(x, a, u);
    TakeByteIsShifts(y, b, v);
    TakeByteIsShifts(Xor(x, y), XorBytes(a, b), Xor(u, v));
    ShiftsXor(u, v, 8);
  }

  lemma TakeByteLinear()
    ensures JointlyLinear(TakeByte, Xor, XorBytes)
  {
    forall x: Word, y: Word, a: Byte, b: Byte
      ensures TakeByte(Xor(x, y), XorBytes(a, b)) == Xor(TakeByte(x, a), TakeByte(y, b))
    {
      TakeByteXor(x, y, a, b);
    }
  }

  /** For texts of one length, the checksum of a xor b xor c is the xor of the checksums. */
  lemma Affine(a: seq<Byte>, b: seq<Byte>, c: seq<Byte>)
    requires |a| == |b| == |c|
    ensures BitwiseCrc(Zip(XorBytes, Zip(XorBytes, a, b), c)) == BitwiseCrc(a) ^ BitwiseCrc(b) ^ BitwiseCrc(c)
  {
    var ab := Zip(XorBytes, a, b);
    TakeByteLinear();
    FeedLinear(TakeByte, Xor, XorBytes, MASK, MASK, a, b);
    FeedLinear(TakeByte, Xor, XorBytes, Xor(MASK, MASK), MASK, ab, c);
    assert Xor(Xor(MASK, MASK), MASK) == MASK;
    ThreeMasks(Feed(TakeByte, MASK, a), Feed(TakeByte, MASK, b), Feed(TakeByte, MASK, c));
  }

  lemma ThreeMasks(x: Word, y: Word, z: Word)
    ensures (x ^ y ^ z) ^ MASK == (x ^ MASK) ^ (y ^ MASK) ^ (z ^ MASK)
  {}

  // ----- the check value -----

  /** One byte, written out as eight shifts. */
  lemma ByteStep(crc: Word, b: Byte, r: Word)
    requires r == Shift(Shift(Shift(Shift(Shift(Shift(Shift(Shift(crc ^ (b as Word)))))))))
    ensures TakeByte(crc, b) == r
  {
    TakeByteIsShifts(crc, b, crc ^ (b as Word));
    Shifts8(crc ^ (b as Word));
  }

  lemma Digits123()
    ensures TakeByte(0xFFFFFFFF, 0x31) == 0x7C231048
    ensures TakeByte(0x7C231048, 0x32) == 0xB0ACBB32
    ensures TakeByte(0xB0ACBB32, 0x33) == 0x77B79C2D
  {
    ByteStep(0xFFFFFFFF, 0x31, 0x7C231048);
    ByteStep(0x7C231048, 0x32, 0xB0ACBB32);
    ByteStep(0xB0ACBB32, 0x33, 0x77B79C2D);
  }

  lemma Digits456()
    ensures TakeByte(0x77B79C2D, 0x34) == 0x641C1F5C
    ensures TakeByte(0x641C1F5C, 0x35) == 0x340AC5E3
    ensures TakeByte(0x340AC5E3, 0x36) == 0xF68D2C9E
  {
    ByteStep(0x77B79C2D, 0x34, 0x641C1F5C);
    ByteStep(0x641C1F5C, 0x35, 0x340AC5E3);
    ByteStep(0x340AC5E3, 0x36, 0xF68D2C9E);
  }

  lemma Digits789()
    ensures TakeByte(0xF68D2C9E, 0x37) == 0xAFFC9660
    ensures TakeByte(0xAFFC9660, 0x38) == 0x651F2550
    ensures TakeByte(0x651F2550, 0x39) == 0x340BC6D9
  {
    ByteStep(0xF68D2C9E, 0x37, 0xAFFC9660);
    ByteStep(0xAFFC9660, 0x38, 0x651F2550);
    ByteStep(0x651F2550, 0x39, 0x340BC6D9);
  }

  /** A register that goes from one to the next of `rs` ends with the last. */
  lemma {:induction false} FeedThrough<R, B>(step: (R, B) -> R, rs: seq<R>, data: seq<B>)
    requires |rs| == |data| + 1 && forall i | 0 <= i < |data| :: step(rs[i], data[i]) == rs[i + 1]
    ensures Feed(step, rs[0], data) == rs[|data|]
    decreases |data|
  {
    if data != [] {
      FeedThrough(step, rs[1..], data[1..]);
    }
  }

  /** The checksum of the digits 1 to 9 is the published check value. */
  lemma CheckValue()
    ensures BitwiseCrc([0x31, 0x32, 0x33, 0x34, 0x35, 0x36, 0x37, 0x38, 0x39]) == 0xCBF43926
  {
    Digits123();
    Digits456();
    Digits789();
    FeedThrough(TakeByte, [0xFFFFFFFF, 0x7C231048, 0xB0ACBB32, 0x77B79C2D, 0x641C1F5C,
                           0x340AC5E3, 0xF68D2C9E, 0xAFFC9660, 0x651F2550, 0x340BC6D9],
                [0x31, 0x32, 0x33, 0x34, 0x35, 0x36, 0x37, 0x38, 0x39]);
  }

  // ----- short bursts are always detected -----

  lemma ShiftInjective(x: Word, y: Word)
    requires Shift(x) == Shift(y)
    ensures x == y
  {}

  lemma ShiftIsInjective()
    ensures Injective(Shift)
  {
    forall x: Word, y: Word | Shift(x) == Shift(y) ensures x == y {
      ShiftInjective(x, y);
    }
  }

  lemma XorCancels(x: Word, y: Word, z: Word)
    requires x ^ z == y ^ z || z ^ x == z ^ y
    ensures x == y
  {}

  function Mix(x: Word, b: Byte): Word {
    x ^ (b as Word)
  }

  lemma TakeByteKeepsApart()
    ensures KeepsApart(TakeByte)
  {
    ShiftIsInjective();
    forall x: Word, y: Word, b: Byte | Mix(x, b) == Mix(y, b) ensures x == y {
      XorCancels(x, y, b as Word);
    }
    forall x: Word, b: Byte ensures TakeByte(x, b) == Iterate(Shift, Mix(x, b), 8) {
      TakeByteIsShifts(x, b, Mix(x, b));
    }
    StepKeepsApart(TakeByte, Shift, Mix, 8);
  }

  function Place(b: Byte, w: Word): Word {
    (b as Word) ^ (w << 8)
  }

  predicate Small(w: Word) {
    w <= 0xFFFFFF
  }

  /** Up to four bytes as one word, first byte lowest. */
  function Packed(m: seq<Byte>): Word {
    Pack(Place, 0, m)
  }

  lemma PackedSmall(m: seq<Byte>)
    requires |m| <= 3
    ensures Small(Packed(m))
    ensures |m| <= 2 ==> Packed(m) <= 0xFFFF
    ensures |m| <= 1 ==> Packed(m) <= 0xFF
  {
    if m != [] {
      PackedSmall(m[1..]);
      OneMore(m[0], Packed(m[1..]));
    }
  }

  lemma OneMore(b: Byte, w: Word)
    ensures w <= 0xFFFF ==> Small(Place(b, w))
    ensures w <= 0xFF ==> Place(b, w) <= 0xFFFF
    ensures w == 0 ==> Place(b, w) <= 0xFF
  {}

  lemma PushedBack(w: Word)
    requires w <= 0xFFFFFF
    ensures (w << 8) & 0xFF == 0 && (w << 8) >> 8 == w
  {}

  /** A word xored into the register after eight shifts might as well go in before them. */
  lemma XorEarlier(y: Word, w: Word)
    requires w <= 0xFFFFFF
    ensures Xor(Iterate(Shift, y, 8), w) == Iterate(Shift, Xor(y, w << 8), 8)
  {
    PushedBack(w);
    ShiftsXor(y, w << 8, 8);
    HighBitsMove(w << 8);
  }

  lemma {:induction false} FeedPacked(x: Word, m: seq<Byte>)
    requires |m| <= 4
    ensures Feed(TakeByte, x, m) == Iterate(Shift, Xor(x, Packed(m)), 8 * |m|)
    decreases |m|
  {
    if m == [] {
      FeedNothing(x);
    } else {
      PackedSmall(m[1..]);
      FeedPacked(TakeByte(x, m[0]), m[1..]);
      FeedOne(x, m[0], m[1..]);
      assert m == [m[0]] + m[1..];
    }
  }

  lemma FeedNothing(x: Word)
    ensures Feed(TakeByte, x, []) == Iterate(Shift, Xor(x, Packed([])), 0)
  {
    assert Packed([]) == 0;
  }

  lemma FeedOne(x: Word, b: Byte, rest: seq<Byte>)
    requires Small(Packed(rest))
    requires Feed(TakeByte, TakeByte(x, b), rest) == Iterate(Shift, Xor(TakeByte(x, b), Packed(rest)), 8 * |rest|)
    ensures Feed(TakeByte, x, [b] + rest) == Iterate(Shift, Xor(x, Packed([b] + rest)), 8 * |[b] + rest|)
  {
    FeedCons(TakeByte, x, b, rest);
    PackCons(Place, 0, b, rest);
    PackedStep(x, b, Packed(rest), 8 * |rest|);
  }

  lemma FeedCons<R, B>(step: (R, B) -> R, r: R, b: B, rest: seq<B>)
    ensures Feed(step, r, [b] + rest) == Feed(step, step(r, b), rest)
  {
    assert ([b] + rest)[1..] == rest;
  }

  lemma PackCons<R, B>(place: (B, R) -> R, zero: R, b: B, rest: seq<B>)
    ensures Pack(place, zero, [b] + rest) == place(b, Pack(place, zero, rest))
  {
    assert ([b] + rest)[1..] == rest;
  }

  lemma PackedStep(x: Word, b: Byte, w: Word, n: nat)
    requires Small(w)
    ensures Iterate(Shift, Xor(TakeByte(x, b), w), n) == Iterate(Shift, Xor(x, Place(b, w)), 8 + n)
  {
    TakeByteIsShifts(x, b, Mix(x, b));
    XorEarlier(Mix(x, b), w);
    IterateAdd(Shift, Xor(Mix(x, b), w << 8), 8, n);
    XorAssociates(x, b as Word, w << 8);
  }

  lemma XorAssociates(x: Word, y: Word, z: Word)
    ensures Xor(Xor(x, y), z) == Xor(x, Xor(y, z))
  {}

  lemma PackedInjective(m: seq<Byte>, n: seq<Byte>)
    requires |m| == |n| <= 4 && Packed(m) == Packed(n)
    ensures m == n
  {
    PlaceSeparates();
    forall s: seq<Byte> | |s| <= 3 ensures Small(Pack(Place, 0, s)) {
      PackedSmall(s);
    }
    PackInjective(Place, 0, Small, 3, m, n);
  }

  lemma PlaceSeparates()
    ensures Separates(Place, Small)
  {
    forall a: Byte, v: Word, b: Byte, w: Word
      ensures Small(v) && Small(w) && Place(a, v) == Place(b, w) ==> a == b && v == w
    {
      Unplace(a, v, b, w);
    }
  }

  lemma Unplace(a: Byte, v: Word, b: Byte, w: Word)
    ensures Small(v) && Small(w) && Place(a, v) == Place(b, w) ==> a == b && v == w
  {}

  /** A change confined to four consecutive bytes always changes the checksum. */
  lemma BurstDetected(u: seq<Byte>, m: seq<Byte>, n: seq<Byte>, v: seq<Byte>)
    requires |m| == |n| <= 4 && BitwiseCrc(u + m + v) == BitwiseCrc(u + n + v)
    ensures m == n
  {
    FeedThree(u, m, v);
    FeedThree(u, n, v);
    UnmaskedEqual(u + m + v, u + n + v);
    SameAfterBurst(Feed(TakeByte, MASK, u), m, n, v);
  }

  lemma UnmaskedEqual(a: seq<Byte>, b: seq<Byte>)
    requires BitwiseCrc(a) == BitwiseCrc(b)
    ensures Feed(TakeByte, MASK, a) == Feed(TakeByte, MASK, b)
  {
    XorCancels(Feed(TakeByte, MASK, a), Feed(TakeByte, MASK, b), MASK);
  }

  lemma SameAfterBurst(x: Word, m: seq<Byte>, n: seq<Byte>, v: seq<Byte>)
    requires |m| == |n| <= 4
    requires Feed(TakeByte, Feed(TakeByte, x, m), v) == Feed(TakeByte, Feed(TakeByte, x, n), v)
    ensures m == n
  {
    TakeByteKeepsApart();
    FeedKeepsApart(TakeByte, Feed(TakeByte, x, m), Feed(TakeByte, x, n), v);
    SameBurst(x, m, n);
  }

  lemma SamePacked(x: Word, p: Word, q: Word, n: nat)
    requires Iterate(Shift, Xor(x, p), n) == Iterate(Shift, Xor(x, q), n)
    ensures p == q
  {
    ShiftIsInjective();
    forall a: Word, b: Word, c: Word | Xor(a, b) == Xor(a, c) ensures b == c {
      XorCancels(b, c, a);
    }
    SameSource(Shift, Xor, x, p, q, n);
  }

  lemma SameBurst(x: Word, m: seq<Byte>, n: seq<Byte>)
    requires |m| == |n| <= 4 && Feed(TakeByte, x, m) == Feed(TakeByte, x, n)
    ensures m == n
  {
    FeedPacked(x, m);
    FeedPacked(x, n);
    SamePacked(x, Packed(m), Packed(n), 8 * |m|);
    PackedInjective(m, n);
  }

  lemma FeedThree(u: seq<Byte>, m: seq<Byte>, v: seq<Byte>)
    ensures Feed(TakeByte, MASK, u + m + v) == Feed(TakeByte, Feed(TakeByte, Feed(TakeByte, MASK, u), m), v)
  {
    FeedAppend(TakeByte, MASK, u + m, v);
    FeedAppend(TakeByte, MASK, u, m);
  }
}
