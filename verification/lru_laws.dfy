/**
 The cache against its history: over every sequence of lookups, insertions and
 removals, what it holds is what was last put, it is ordered by latest use, and only
 the least recently used entry of a full cache ever makes room.
 */
module LruLaws {
  import opened Options
  import opened LruCaches

  datatype Op<K, V> = GetOp(key: K) | PutOp(key: K, value: V) | EraseOp(key: K) | ClearOp

  function Lacking<K(==), V>(s: seq<Entry<K, V>>, k: K): seq<Entry<K, V>> {
    if Has(s, k) then RemoveAt(s, Find(s, k)) else s
  }

  function Applied<K(==), V>(s: seq<Entry<K, V>>, max: nat, op: Op<K, V>): seq<Entry<K, V>>
    requires max > 0
  {
    match op
    case GetOp(k) => Touch(s, k)
    case PutOp(k, v) => Insert(s, max, k, v)
    case EraseOp(k) => Lacking(s, k)
    case ClearOp => []
  }

  /** What the cache holds after a history. */
  function After<K(==), V>(max: nat, ops: seq<Op<K, V>>): seq<Entry<K, V>>
    requires max > 0
  {
    if ops == [] then [] else Applied(After(max, ops[..|ops| - 1]), max, ops[|ops| - 1])
  }

  /** The value last put under the key, unless it was removed since. */
  function LastPut<K(==), V>(ops: seq<Op<K, V>>, k: K): Option<V> {
    if ops == [] then None
    else
      var past := LastPut(ops[..|ops| - 1], k);
      match ops[|ops| - 1]
      case GetOp(_) => past
      case PutOp(key, v) => if key == k then Some(v) else past
      case EraseOp(key) => if key == k then None else past
      case ClearOp => None
  }

  /** When the key was last put, or found by a lookup. */
  function LastUsed<K(==), V>(max: nat, ops: seq<Op<K, V>>, k: K): nat
    requires max > 0
  {
    if ops == [] then 0
    else
      var before, op := ops[..|ops| - 1], ops[|ops| - 1];
      if (op.PutOp? && op.key == k) || (op.GetOp? && op.key == k && Has(After(max, before), k)) then |ops|
      else LastUsed(max, before, k)
  }

  lemma {:induction false} UsedBound<K, V>(max: nat, ops: seq<Op<K, V>>, k: K)
    requires max > 0
    ensures LastUsed(max, ops, k) <= |ops|
  {
    if ops != [] {
      UsedBound(max, ops[..|ops| - 1], k);
    }
  }

  // ----- what one operation does to the entries -----

  /** No key twice. */
  predicate Keyed<K(==), V>(s: seq<Entry<K, V>>) {
    forall i, j | 0 <= i < j < |s| :: s[i].key != s[j].key
  }

  lemma RemovedHas<K, V>(s: seq<Entry<K, V>>, k: K, x: K)
    requires Keyed(s)
    ensures Keyed(Lacking(s, k)) && (Has(Lacking(s, k), x) <==> Has(s, x) && x != k)
    ensures forall i | 0 <= i < |Lacking(s, k)| :: Lacking(s, k)[i] in s && Lacking(s, k)[i].key != k
  {
    var i, r := Find(s, k), Lacking(s, k);
    if Has(s, x) && x != k && i < |s| {
      var j := Find(s, x);
      assert r[if j < i then j else j - 1].key == x;
    }
  }

  lemma ConsHas<K, V>(e: Entry<K, V>, s: seq<Entry<K, V>>, x: K)
    ensures Has([e] + s, x) <==> x == e.key || Has(s, x)
    ensures Keyed(s) && !Has(s, e.key) ==> Keyed([e] + s)
  {
    var r := [e] + s;
    if Has(s, x) {
      assert r[Find(s, x) + 1].key == x;
    }
    if Has(r, x) && x != e.key {
      assert s[Find(r, x) - 1].key == x;
    }
  }

  predicate Sorted<K, V>(s: seq<Entry<K, V>>, used: K -> nat) {
    forall i, j | 0 <= i < j < |s| :: used(s[i].key) > used(s[j].key)
  }

  predicate Valued<K, V(==)>(s: seq<Entry<K, V>>, put: K -> Option<V>) {
    forall i | 0 <= i < |s| :: put(s[i].key) == Some(s[i].value)
  }

  lemma LackingKeeps<K, V>(s: seq<Entry<K, V>>, k: K, used: K -> nat, put: K -> Option<V>)
    requires Sorted(s, used) && Valued(s, put)
    ensures Sorted(Lacking(s, k), used) && Valued(Lacking(s, k), put)
  {}

  /** In front stands what was used last. */
  lemma ConsKeeps<K, V>(e: Entry<K, V>, s: seq<Entry<K, V>>, used: K -> nat, put: K -> Option<V>)
    requires Sorted(s, used) && Valued(s, put) && put(e.key) == Some(e.value)
    requires forall i | 0 <= i < |s| :: used(s[i].key) < used(e.key)
    ensures Sorted([e] + s, used) && Valued([e] + s, put)
  {}

  /** Keys the operation does not name keep their use and value. */
  lemma OthersKeep<K, V>(
      s: seq<Entry<K, V>>, k: K, used: K -> nat, used': K -> nat, put: K -> Option<V>, put': K -> Option<V>)
    requires Sorted(s, used) && Valued(s, put) && forall i | 0 <= i < |s| :: s[i].key != k
    requires forall x | x != k :: used'(x) == used(x) && put'(x) == put(x)
    ensures Sorted(s, used') && Valued(s, put')
  {}

  ghost predicate Good<K(!new), V>(max: nat, ops: seq<Op<K, V>>)
    requires max > 0
  {
    var s := After(max, ops);
    Bounded(s, max) && Sorted(s, k => LastUsed(max, ops, k)) && Valued(s, k => LastPut(ops, k))
  }

  /** Whatever is left of the others, with the entry named in front. */
  lemma FrontGood<K(!new), V>(
      e: Entry<K, V>, rest: seq<Entry<K, V>>, max: nat, ops: seq<Op<K, V>>, op: Op<K, V>)
    requires max > 0 && (op == PutOp(e.key, e.value) || (op == GetOp(e.key) && Has(After(max, ops), e.key)))
    requires Bounded(rest, max - 1) && !Has(rest, e.key) && LastPut(ops + [op], e.key) == Some(e.value)
    requires Sorted(rest, k => LastUsed(max, ops, k)) && Valued(rest, k => LastPut(ops, k))
    requires After(max, ops + [op]) == [e] + rest
    ensures Good(max, ops + [op])
  {
    var all := ops + [op];
    assert all[..|ops|] == ops;
    ConsHas(e, rest, e.key);
    forall x ensures LastUsed(max, ops, x) <= |ops| {
      UsedBound(max, ops, x);
    }
    assert forall i | 0 <= i < |rest| :: rest[i].key != e.key;
    OthersKeep(rest, e.key, k => LastUsed(max, ops, k), k => LastUsed(max, all, k),
               k => LastPut(ops, k), k => LastPut(all, k));
    ConsKeeps(e, rest, k => LastUsed(max, all, k), k => LastPut(all, k));
  }

  lemma GetGood<K(!new), V>(max: nat, ops: seq<Op<K, V>>, k: K)
    requires max > 0 && Good(max, ops)
    ensures Good(max, ops + [GetOp(k)])
  {
    var s, all := After(max, ops), ops + [GetOp(k)];
    assert all[..|ops|] == ops;
    if Has(s, k) {
      KeyedFront(s, k, max, ops);
      FrontGood(s[Find(s, k)], Lacking(s, k), max, ops, GetOp(k));
    } else {
      OthersKeep(s, k, x => LastUsed(max, ops, x), x => LastUsed(max, all, x),
                 x => LastPut(ops, x), x => LastPut(all, x));
    }
  }

  lemma PutGood<K(!new), V>(max: nat, ops: seq<Op<K, V>>, k: K, v: V)
    requires max > 0 && Good(max, ops)
    ensures Good(max, ops + [PutOp(k, v)])
  {
    var s, op := After(max, ops), PutOp(k, v);
    assert (ops + [op])[..|ops|] == ops;
    if Has(s, k) {
      KeyedFront(s, k, max, ops);
      FrontGood(Entry(k, v), Lacking(s, k), max, ops, op);
    } else {
      FrontGood(Entry(k, v), if |s| >= max then s[..|s| - 1] else s, max, ops, op);
    }
  }

  lemma EraseGood<K(!new), V>(max: nat, ops: seq<Op<K, V>>, k: K)
    requires max > 0 && Good(max, ops)
    ensures Good(max, ops + [EraseOp(k)])
  {
    var s, all := After(max, ops), ops + [EraseOp(k)];
    assert all[..|ops|] == ops;
    KeyedFront(s, k, max, ops);
    RemovedHas(s, k, k);
    OthersKeep(Lacking(s, k), k, x => LastUsed(max, ops, x), x => LastUsed(max, all, x),
               x => LastPut(ops, x), x => LastPut(all, x));
  }

  lemma GoodNext<K(!new), V>(max: nat, ops: seq<Op<K, V>>, op: Op<K, V>)
    requires max > 0 && Good(max, ops)
    ensures Good(max, ops + [op])
  {
    match op
    case GetOp(k) => GetGood(max, ops, k);
    case PutOp(k, v) => PutGood(max, ops, k, v);
    case EraseOp(k) => EraseGood(max, ops, k);
    case ClearOp =>
  }

  lemma KeyedFront<K(!new), V>(s: seq<Entry<K, V>>, k: K, max: nat, ops: seq<Op<K, V>>)
    requires max > 0 && Good(max, ops) && s == After(max, ops)
    ensures var rest := Lacking(s, k);
            && Sorted(rest, x => LastUsed(max, ops, x)) && Valued(rest, x => LastPut(ops, x))
            && !Has(rest, k) && Bounded(rest, max) && (Has(s, k) ==> Bounded(rest, max - 1))
            && (Has(s, k) ==> LastPut(ops, k) == Some(s[Find(s, k)].value))
  {
    RemovedHas(s, k, k);
    LackingKeeps(s, k, x => LastUsed(max, ops, x), x => LastPut(ops, x));
  }

  lemma {:induction false} GoodAlways<K(!new), V>(max: nat, ops: seq<Op<K, V>>)
    requires max > 0
    ensures Good(max, ops)
  {
    if ops != [] {
      GoodAlways(max, ops[..|ops| - 1]);
      GoodNext(max, ops[..|ops| - 1], ops[|ops| - 1]);
      assert ops == ops[..|ops| - 1] + [ops[|ops| - 1]];
    }
  }

  // ----- the laws -----

  /** After every history the cache holds under each key what was last put there, and
      nothing that was removed since; at most the maximum, latest use first. */
  lemma HoldsLatest<K(!new), V>(max: nat, ops: seq<Op<K, V>>)
    requires max > 0
    ensures var s := After(max, ops);
            && |s| <= max
            && (forall i | 0 <= i < |s| :: LastPut(ops, s[i].key) == Some(s[i].value))
            && forall i, j | 0 <= i < j < |s| :: LastUsed(max, ops, s[i].key) > LastUsed(max, ops, s[j].key)
  {
    GoodAlways(max, ops);
    var s := After(max, ops);
    var used, put := (k: K) => LastUsed(max, ops, k), (k: K) => LastPut(ops, k);
    assert Sorted(s, used) && Valued(s, put);
    forall i, j | 0 <= i < j < |s| ensures LastUsed(max, ops, s[i].key) > LastUsed(max, ops, s[j].key) {
      assert used(s[i].key) > used(s[j].key);
    }
    forall i | 0 <= i < |s| ensures LastPut(ops, s[i].key) == Some(s[i].value) {
      assert put(s[i].key) == Some(s[i].value);
    }
  }

  /** In the cache, and every other key in it was used later. */
  ghost predicate Oldest<K(!new), V>(max: nat, ops: seq<Op<K, V>>, k: K)
    requires max > 0
  {
    var s := After(max, ops);
    Has(s, k) && forall x | Has(s, x) && x != k :: LastUsed(max, ops, x) > LastUsed(max, ops, k)
  }

  /** A key comes in exactly by being put.  It leaves by being erased or cleared, or as
      the least recently used of a full cache when a key not in it is put, and in no
      other way. */
  lemma ComesAndGoes<K(!new), V>(max: nat, ops: seq<Op<K, V>>, op: Op<K, V>, k: K)
    requires max > 0
    ensures
      var s, t := After(max, ops), After(max, ops + [op]);
      && (op.GetOp? ==> (Has(t, k) <==> Has(s, k)))
      && (op.PutOp? ==>
            (Has(t, k) <==> k == op.key || (Has(s, k) && !(!Has(s, op.key) && |s| == max && Oldest(max, ops, k)))))
      && (op.EraseOp? ==> (Has(t, k) <==> Has(s, k) && k != op.key))
      && (op.ClearOp? ==> !Has(t, k))
  {
    var s := After(max, ops);
    assert (ops + [op])[..|ops|] == ops;
    GoodAlways(max, ops);
    match op
    case GetOp(key) =>
      if Has(s, key) {
        RemovedHas(s, key, k);
        ConsHas(s[Find(s, key)], Lacking(s, key), k);
      }
    case PutOp(key, v) =>
      PutKeeps(max, ops, key, v, k);
    case EraseOp(key) =>
      RemovedHas(s, key, k);
    case ClearOp =>
  }

  lemma PutKeeps<K(!new), V>(max: nat, ops: seq<Op<K, V>>, key: K, v: V, k: K)
    requires max > 0
    ensures
      var s := After(max, ops);
      Has(Insert(s, max, key, v), k) <==>
      k == key || (Has(s, k) && !(!Has(s, key) && |s| == max && Oldest(max, ops, k)))
  {
    var s := After(max, ops);
    GoodAlways(max, ops);
    if Has(s, key) {
      RemovedHas(s, key, k);
      ConsHas(Entry(key, v), Lacking(s, key), k);
    } else if |s| >= max {
      ConsHas(Entry(key, v), s[..|s| - 1], k);
      LastIsOldest(max, ops, k);
    } else {
      ConsHas(Entry(key, v), s, k);
    }
  }

  /** The last entry is the one least recently used. */
  lemma LastIsOldest<K(!new), V>(max: nat, ops: seq<Op<K, V>>, k: K)
    requires max > 0 && After(max, ops) != []
    ensures
      var s := After(max, ops);
      && (Oldest(max, ops, k) <==> k == s[|s| - 1].key)
      && (Has(s[..|s| - 1], k) <==> Has(s, k) && k != s[|s| - 1].key)
  {
    var s := After(max, ops);
    var last := |s| - 1;
    HoldsLatest(max, ops);
    GoodAlways(max, ops);
    assert Find(s, s[last].key) == last;
    if Has(s, k) {
      var i := Find(s, k);
      assert i < last ==> s[..last][i].key == k;
      assert i < last ==> LastUsed(max, ops, s[i].key) > LastUsed(max, ops, s[last].key);
    }
    if k == s[last].key {
      forall x | Has(s, x) && x != k ensures LastUsed(max, ops, x) > LastUsed(max, ops, k) {
        assert s[Find(s, x)].key == x;
      }
    }
    if Has(s[..last], k) {
      assert s[Find(s[..last], k)].key == k;
    }
  }
}
