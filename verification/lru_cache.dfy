/**
 The bounded cache with least-recently-used eviction: a list of nodes in recency
 order and an index from keys to nodes, and the memoised compile built on it.
 */
module LruCaches {
  import opened Options

  datatype Entry<K, V> = Entry(key: K, value: V)

  // ----- the recency sequence -----

  predicate Distinct<T(==)>(s: seq<T>) {
    forall i, j | 0 <= i < j < |s| :: s[i] != s[j]
  }

  /** The place of a key, or the length when it is absent. */
  function Find<K(==), V>(s: seq<Entry<K, V>>, k: K): (i: nat)
    ensures i <= |s| && (i < |s| ==> s[i].key == k) && forall j | 0 <= j < i :: s[j].key != k
  {
    if s == [] || s[0].key == k then 0 else 1 + Find(s[1..], k)
  }

  predicate Has<K(==), V>(s: seq<Entry<K, V>>, k: K) {
    Find(s, k) < |s|
  }

  function RemoveAt<T>(s: seq<T>, i: nat): seq<T>
    requires i < |s|
  {
    s[..i] + s[i + 1..]
  }

  /** A lookup moves the entry it finds to the front. */
  function Touch<K(==), V>(s: seq<Entry<K, V>>, k: K): seq<Entry<K, V>> {
    var i := Find(s, k);
    if i < |s| then [s[i]] + RemoveAt(s, i) else s
  }

  /** An insertion goes to the front, replacing the key's entry or, in a full
      cache, the last one. */
  function Insert<K(==), V>(s: seq<Entry<K, V>>, max: nat, k: K, v: V): seq<Entry<K, V>>
    requires max > 0
  {
    var i := Find(s, k);
    [Entry(k, v)] + if i < |s| then RemoveAt(s, i) else if |s| >= max then s[..|s| - 1] else s
  }

  /** At most `max` entries, no key twice. */
  predicate Bounded<K(==), V>(s: seq<Entry<K, V>>, max: nat) {
    |s| <= max && forall i, j | 0 <= i < j < |s| :: s[i].key != s[j].key
  }

  lemma TouchBounded<K, V>(s: seq<Entry<K, V>>, max: nat, k: K)
    requires Bounded(s, max)
    ensures Bounded(Touch(s, k), max)
  {}

  lemma InsertBounded<K, V>(s: seq<Entry<K, V>>, max: nat, k: K, v: V)
    requires max > 0 && Bounded(s, max)
    ensures Bounded(Insert(s, max, k, v), max)
  {}

  // ----- the cache -----

  /** The place of a node in the list. */
  function PlaceOf<T(==)>(order: seq<T>, id: T): (i: nat)
    requires id in order
    ensures i < |order| && order[i] == id && forall j | 0 <= j < i :: order[j] != id
  {
    if order[0] == id then 0 else 1 + PlaceOf(order[1..], id)
  }

  function Listed<K, V>(order: seq<nat>, node: map<nat, Entry<K, V>>): (s: seq<Entry<K, V>>)
    requires forall i | 0 <= i < |order| :: order[i] in node
    ensures |s| == |order| && forall i | 0 <= i < |order| :: s[i] == node[order[i]]
  {
    seq(|order|, i requires 0 <= i < |order| => node[order[i]])
  }

  /** The list and the index describe the same entries. */
  predicate Consistent<K(==), V>(order: seq<nat>, node: map<nat, Entry<K, V>>, index: map<K, nat>) {
    && |index| == |order| && Distinct(order)
    && (forall id | id in order :: id in node && node[id].key in index && index[node[id].key] == id)
    && (forall k | k in index :: index[k] in order && node[index[k]].key == k)
  }

  lemma Without<T>(s: seq<T>, i: nat)
    requires i < |s| && Distinct(s)
    ensures Distinct(RemoveAt(s, i))
    ensures forall x :: x in RemoveAt(s, i) <==> x in s && x != s[i]
  {
    var r := RemoveAt(s, i);
    forall x ensures x in r <==> x in s && x != s[i] {
      if x in s && x != s[i] {
        var j :| 0 <= j < |s| && s[j] == x;
        assert r[if j < i then j else j - 1] == x;
      }
    }
  }

  lemma InFront<T>(s: seq<T>, x: T)
    requires Distinct(s) && x !in s
    ensures Distinct([x] + s)
    ensures forall y :: y in [x] + s <==> y == x || y in s
  {}

  lemma SameNodes<K, V>(order: seq<nat>, order': seq<nat>, node: map<nat, Entry<K, V>>, index: map<K, nat>)
    requires Consistent(order, node, index)
    requires Distinct(order') && |order'| == |order| && forall id :: id in order' <==> id in order
    ensures Consistent(order', node, index)
  {}

  lemma IndexFinds<K, V>(order: seq<nat>, node: map<nat, Entry<K, V>>, index: map<K, nat>, k: K)
    requires Consistent(order, node, index)
    ensures k in index ==> Find(Listed(order, node), k) == PlaceOf(order, index[k])
    ensures k !in index ==> Find(Listed(order, node), k) == |order|
  {}

  /** Moving a node to the front of the list. */
  lemma Splice<K, V>(order: seq<nat>, node: map<nat, Entry<K, V>>, index: map<K, nat>, i: nat)
    requires Consistent(order, node, index) && i < |order|
    ensures var order' := [order[i]] + RemoveAt(order, i);
            && Consistent(order', node, index)
            && Listed(order', node) == [Listed(order, node)[i]] + RemoveAt(Listed(order, node), i)
  {
    SpliceConsistent(order, node, index, i);
    SpliceListed(order, node, i);
  }

  lemma SpliceConsistent<K, V>(order: seq<nat>, node: map<nat, Entry<K, V>>, index: map<K, nat>, i: nat)
    requires Consistent(order, node, index) && i < |order|
    ensures Consistent([order[i]] + RemoveAt(order, i), node, index)
  {
    Without(order, i);
    InFront(RemoveAt(order, i), order[i]);
    SameNodes(order, [order[i]] + RemoveAt(order, i), node, index);
  }

  lemma SpliceListed<K, V>(order: seq<nat>, node: map<nat, Entry<K, V>>, i: nat)
    requires i < |order| && forall j | 0 <= j < |order| :: order[j] in node
    ensures var order' := [order[i]] + RemoveAt(order, i);
            && (forall j | 0 <= j < |order'| :: order'[j] in node)
            && Listed(order', node) == [Listed(order, node)[i]] + RemoveAt(Listed(order, node), i)
  {}

  /** Changing a node's value in place. */
  lemma Assign<K, V>(order: seq<nat>, node: map<nat, Entry<K, V>>, index: map<K, nat>, k: K, v: V, i: nat)
    requires Consistent(order, node, index) && k in index && i < |order| && index[k] == order[i]
    ensures var node' := node[index[k] := Entry(k, v)];
            && Consistent(order, node', index)
            && Listed(order, node') == Listed(order, node)[i := Entry(k, v)]
  {}

  /** Removing a node and its index entry. */
  lemma Drop<K, V>(order: seq<nat>, node: map<nat, Entry<K, V>>, index: map<K, nat>, i: nat)
    requires Consistent(order, node, index) && i < |order|
    ensures var order', node', index' := RemoveAt(order, i), node - {order[i]}, index - {node[order[i]].key};
            && Consistent(order', node', index')
            && Listed(order', node') == RemoveAt(Listed(order, node), i)
  {
    DropConsistent(order, node, index, i);
    DropListed(order, node, i);
  }

  lemma DropConsistent<K, V>(order: seq<nat>, node: map<nat, Entry<K, V>>, index: map<K, nat>, i: nat)
    requires Consistent(order, node, index) && i < |order|
    ensures Consistent(RemoveAt(order, i), node - {order[i]}, index - {node[order[i]].key})
  {
    Without(order, i);
    assert (index - {node[order[i]].key}).Keys == index.Keys - {node[order[i]].key};
  }

  lemma DropListed<K, V>(order: seq<nat>, node: map<nat, Entry<K, V>>, i: nat)
    requires i < |order| && Distinct(order) && forall j | 0 <= j < |order| :: order[j] in node
    ensures forall j | 0 <= j < |RemoveAt(order, i)| :: RemoveAt(order, i)[j] in node - {order[i]}
    ensures Listed(RemoveAt(order, i), node - {order[i]}) == RemoveAt(Listed(order, node), i)
  {}

  /** Changing a node's value and moving it to the front. */
  lemma Renew<K, V>(order: seq<nat>, node: map<nat, Entry<K, V>>, index: map<K, nat>, k: K, v: V, i: nat)
    requires Consistent(order, node, index) && k in index && i < |order| && index[k] == order[i]
    ensures var order', node' := [order[i]] + RemoveAt(order, i), node[order[i] := Entry(k, v)];
            && Consistent(order', node', index) && (forall id | id in order' :: id in order)
            && Listed(order', node') == [Entry(k, v)] + RemoveAt(Listed(order, node), i)
  {
    var node', was := node[order[i] := Entry(k, v)], Listed(order, node);
    Assign(order, node, index, k, v, i);
    Splice(order, node', index, i);
    assert RemoveAt(was[i := Entry(k, v)], i) == RemoveAt(was, i);
  }

  /** Adding a node for a new key at the front. */
  lemma Push<K, V>(order: seq<nat>, node: map<nat, Entry<K, V>>, index: map<K, nat>, id: nat, k: K, v: V)
    requires Consistent(order, node, index) && id !in order && k !in index
    ensures var order', node', index' := [id] + order, node[id := Entry(k, v)], index[k := id];
            && Consistent(order', node', index')
            && Listed(order', node') == [Entry(k, v)] + Listed(order, node)
  {
    PushConsistent(order, node, index, id, k, v);
    PushListed(order, node, id, Entry(k, v));
  }

  lemma PushListed<K, V>(order: seq<nat>, node: map<nat, Entry<K, V>>, id: nat, e: Entry<K, V>)
    requires id !in order && forall i | 0 <= i < |order| :: order[i] in node
    ensures forall i | 0 <= i < |[id] + order| :: ([id] + order)[i] in node[id := e]
    ensures Listed([id] + order, node[id := e]) == [e] + Listed(order, node)
  {}

  lemma PushConsistent<K, V>(order: seq<nat>, node: map<nat, Entry<K, V>>, index: map<K, nat>, id: nat, k: K, v: V)
    requires Consistent(order, node, index) && id !in order && k !in index
    ensures Consistent([id] + order, node[id := Entry(k, v)], index[k := id])
  {
    InFront(order, id);
    assert index[k := id].Keys == index.Keys + {k};
  }

  class LruCache<K(==), V> {
    const maxSize: nat

    /** Node ids, most recently used first. */
    var order: seq<nat>
    var node: map<nat, Entry<K, V>>
    var index: map<K, nat>
    var nextId: nat

    ghost predicate Valid()
      reads this
    {
      && Consistent(order, node, index)
      && 0 < maxSize && |order| <= maxSize && forall id | id in order :: id < nextId
    }

    ghost function Contents(): seq<Entry<K, V>>
      requires Valid()
      reads this
    {
      Listed(order, node)
    }

    /** At most `maxSize` entries, no key twice. */
    lemma ContentsBounded()
      requires Valid()
      ensures Bounded(Contents(), maxSize)
    {}

    constructor (maxSize: nat)
      requires maxSize > 0
      ensures Valid() && this.maxSize == maxSize && Contents() == []
    {
      this.maxSize := maxSize;
      order, node, index, nextId := [], map[], map[], 0;
    }

    method Get(k: K) returns (r: Option<V>)
      requires Valid()
      modifies this
      ensures Valid() && Contents() == Touch(old(Contents()), k)
      ensures r == if Has(old(Contents()), k) then Some(old(Contents())[Find(old(Contents()), k)].value) else None
    {
      IndexFinds(order, node, index, k);
      if k !in index {
        return None;
      }
      var id := index[k];
      Splice(order, node, index, PlaceOf(order, id));
      order := [id] + RemoveAt(order, PlaceOf(order, id));
      return Some(node[id].value);
    }

    /** Returns the value stored. */
    method Put(k: K, v: V) returns (stored: V)
      requires Valid()
      modifies this
      ensures Valid() && Contents() == Insert(old(Contents()), maxSize, k, v)
      ensures stored == Contents()[0].value == v
    {
      IndexFinds(order, node, index, k);
      if k in index {
        Update(k, v);
      } else {
        if |index| >= maxSize {
          Evict();
        }
        AddFront(k, v);
      }
      stored := node[order[0]].value;
    }

    method AddFront(k: K, v: V)
      requires Valid() && k !in index && |order| < maxSize
      modifies this
      ensures Valid() && Contents() == [Entry(k, v)] + old(Contents())
    {
      Push(order, node, index, nextId, k, v);
      order := [nextId] + order;
      node := node[nextId := Entry(k, v)];
      index := index[k := nextId];
      nextId := nextId + 1;
    }

    method Update(k: K, v: V)
      requires Valid() && k in index
      modifies this
      ensures Valid()
      ensures var was := old(Contents());
              Contents() == [Entry(k, v)] + RemoveAt(was, PlaceOf(old(order), old(index)[k]))
    {
      var id := index[k];
      Renew(order, node, index, k, v, PlaceOf(order, id));
      node := node[id := Entry(k, v)];
      order := [id] + RemoveAt(order, PlaceOf(order, id));
    }

    method Evict()
      requires Valid() && order != []
      modifies this
      ensures Valid() && Contents() == old(Contents())[..|old(Contents())| - 1]
      ensures nextId == old(nextId) && |index| == old(|index|) - 1 && index.Keys <= old(index.Keys)
    {
      var last := |order| - 1;
      Drop(order, node, index, last);
      assert RemoveAt(order, last) == order[..last];
      index := index - {node[order[last]].key};
      node := node - {order[last]};
      order := order[..last];
    }

    method Erase(k: K) returns (found: bool)
      requires Valid()
      modifies this
      ensures Valid() && found == Has(old(Contents()), k)
      ensures Contents() == if found then RemoveAt(old(Contents()), Find(old(Contents()), k)) else old(Contents())
    {
      IndexFinds(order, node, index, k);
      if k !in index {
        return false;
      }
      var id := index[k];
      Drop(order, node, index, PlaceOf(order, id));
      order := RemoveAt(order, PlaceOf(order, id));
      node := node - {id};
      index := index - {k};
      return true;
    }

    method Clear()
      requires Valid()
      modifies this
      ensures Valid() && Contents() == []
    {
      order, node, index := [], map[], map[];
    }
  }

  /** A cache needs room for one entry. */
  method NewCache<K(==), V>(maxSize: nat) returns (r: Option<LruCache<K, V>>)
    ensures r.None? <==> maxSize == 0
    ensures r.Some? ==> fresh(r.value) && r.value.Valid() && r.value.maxSize == maxSize && r.value.Contents() == []
  {
    if maxSize == 0 {
      return None;
    }
    var cache := new LruCache<K, V>(maxSize);
    return Some(cache);
  }

  // ----- memoised compile -----

  /** Every entry holds what compiling its key gives. */
  ghost predicate Memo<K(!new), V>(s: seq<Entry<K, V>>, compile: K -> Option<V>) {
    forall i | 0 <= i < |s| :: compile(s[i].key) == Some(s[i].value)
  }

  lemma TouchMemo<K(!new), V>(s: seq<Entry<K, V>>, compile: K -> Option<V>, k: K)
    requires Memo(s, compile)
    ensures Memo(Touch(s, k), compile)
  {}

  lemma InsertMemo<K(!new), V>(s: seq<Entry<K, V>>, max: nat, compile: K -> Option<V>, k: K, v: V)
    requires max > 0 && Memo(s, compile) && compile(k) == Some(v)
    ensures Memo(Insert(s, max, k, v), compile)
  {}

  /** A lookup followed, on a miss, by an insertion of what was compiled. */
  function Lookup<K(==), V>(s: seq<Entry<K, V>>, max: nat, compile: K -> Option<V>, k: K): seq<Entry<K, V>>
    requires max > 0
  {
    if Has(s, k) then Touch(s, k) else if compile(k).Some? then Insert(s, max, k, compile(k).value) else s
  }

  class Evaluator<K(==, !new), V> {
    const cache: LruCache<K, V>
    const compile: K -> Option<V>
    var hits: nat
    var misses: nat

    ghost predicate Valid()
      reads this, cache
    {
      cache.Valid() && Memo(cache.Contents(), compile)
    }

    constructor (cache: LruCache<K, V>, compile: K -> Option<V>)
      requires cache.Valid() && Memo(cache.Contents(), compile)
      ensures Valid() && this.cache == cache && this.compile == compile && hits == misses == 0
    {
      this.cache, this.compile, hits, misses := cache, compile, 0, 0;
    }

    /** Answers as a plain compile would; failures are not cached. */
    method LookupOrCompile(k: K) returns (r: Option<V>)
      requires Valid()
      modifies this, cache
      ensures Valid() && r == compile(k)
      ensures cache.Contents() == Lookup(old(cache.Contents()), cache.maxSize, compile, k)
      ensures hits == old(hits) + if Has(old(cache.Contents()), k) then 1 else 0
      ensures hits + misses == old(hits + misses) + 1
    {
      ghost var was := cache.Contents();
      TouchMemo(was, compile, k);
      var cached := cache.Get(k);
      if cached.Some? {
        hits := hits + 1;
        return cached;
      }
      misses := misses + 1;
      var compiled := compile(k);
      if compiled.None? {
        return None;
      }
      InsertMemo(was, cache.maxSize, compile, k, compiled.value);
      var stored := cache.Put(k, compiled.value);
      return Some(stored);
    }
  }

  // ----- lookups of several threads, interleaved -----

  /** Where one lookup stands: the cache is locked for the get and for the put, not
      while compiling. */
  datatype Stage<K, V> =
    | Asking(key: K)
    | Compiling(key: K)
    | Storing(key: K, value: V)
    | Answered(key: K, answer: Option<V>)

  datatype Shared<K, V> = Shared(contents: seq<Entry<K, V>>, lookups: map<nat, Stage<K, V>>)

  /** Lookup `t` takes its next step. */
  function Proceed<K(==), V>(s: Shared<K, V>, max: nat, compile: K -> Option<V>, t: nat): Shared<K, V>
    requires max > 0 && t in s.lookups
  {
    match s.lookups[t]
    case Asking(k) =>
      var i := Find(s.contents, k);
      if i < |s.contents| then Shared(Touch(s.contents, k), s.lookups[t := Answered(k, Some(s.contents[i].value))])
      else s.(lookups := s.lookups[t := Compiling(k)])
    case Compiling(k) =>
      var r := compile(k);
      s.(lookups := s.lookups[t := if r.Some? then Storing(k, r.value) else Answered(k, None)])
    case Storing(k, v) => Shared(Insert(s.contents, max, k, v), s.lookups[t := Answered(k, Some(v))])
    case Answered(_, _) => s
  }

  /** A lookup begins or proceeds, or the cache is emptied. */
  ghost predicate Interleaves<K(!new), V(!new)>(s: Shared<K, V>, s': Shared<K, V>, max: nat, compile: K -> Option<V>)
    requires max > 0
  {
    || (exists t: nat, k :: t !in s.lookups && s' == s.(lookups := s.lookups[t := Asking(k)]))
    || (exists t: nat :: t in s.lookups && s' == Proceed(s, max, compile, t))
    || s' == Shared([], s.lookups)
  }

  ghost predicate StepAt<K(!new), V(!new)>(run: seq<Shared<K, V>>, max: nat, compile: K -> Option<V>, i: nat)
    requires max > 0 && i < |run| - 1
  {
    Interleaves(run[i], run[i + 1], max, compile)
  }

  ghost predicate IsRun<K(!new), V(!new)>(run: seq<Shared<K, V>>, max: nat, compile: K -> Option<V>)
    requires max > 0
  {
    && |run| > 0 && run[0] == Shared([], map[])
    && forall i | 0 <= i < |run| - 1 :: StepAt(run, max, compile, i)
  }

  /** What is stored, or about to be, or was answered, is what compiling gives. */
  predicate StageOk<K(==), V(==)>(stage: Stage<K, V>, compile: K -> Option<V>) {
    match stage
    case Storing(k, v) => compile(k) == Some(v)
    case Answered(k, r) => r == compile(k)
    case _ => true
  }

  ghost predicate SharedInv<K(!new), V>(s: Shared<K, V>, max: nat, compile: K -> Option<V>) {
    && Memo(s.contents, compile) && Bounded(s.contents, max)
    && forall t | t in s.lookups :: StageOk(s.lookups[t], compile)
  }

  lemma ProceedKeeps<K(!new), V(!new)>(s: Shared<K, V>, max: nat, compile: K -> Option<V>, t: nat)
    requires max > 0 && t in s.lookups && SharedInv(s, max, compile)
    ensures SharedInv(Proceed(s, max, compile, t), max, compile)
  {
    match s.lookups[t]
    case Asking(k) =>
      TouchBounded(s.contents, max, k);
      TouchMemo(s.contents, compile, k);
    case Storing(k, v) =>
      assert StageOk(s.lookups[t], compile);
      InsertBounded(s.contents, max, k, v);
      InsertMemo(s.contents, max, compile, k, v);
    case _ =>
  }

  lemma {:induction false} SharedInvRun<K(!new), V(!new)>(
      run: seq<Shared<K, V>>, max: nat, compile: K -> Option<V>, i: nat)
    requires max > 0 && IsRun(run, max, compile) && i < |run|
    ensures SharedInv(run[i], max, compile)
  {
    if i > 0 {
      SharedInvRun(run, max, compile, i - 1);
      assert StepAt(run, max, compile, i - 1);
      SharedInvNext(run[i - 1], run[i], max, compile);
    }
  }

  lemma SharedInvNext<K(!new), V(!new)>(s: Shared<K, V>, s': Shared<K, V>, max: nat, compile: K -> Option<V>)
    requires max > 0 && SharedInv(s, max, compile) && Interleaves(s, s', max, compile)
    ensures SharedInv(s', max, compile)
  {
    if t: nat :| t in s.lookups && s' == Proceed(s, max, compile, t) {
      ProceedKeeps(s, max, compile, t);
    } else if s' != Shared([], s.lookups) {
      var t: nat, k :| t !in s.lookups && s' == s.(lookups := s.lookups[t := Asking(k)]);
      assert forall x | x in s.lookups :: StageOk(s.lookups[x], compile);
    }
  }

  /** However the lookups of any number of threads interleave, each answers as a plain
      compile would, and the cache stays within its size. */
  lemma LookupsAnswerCompile<K(!new), V(!new)>(
      run: seq<Shared<K, V>>, max: nat, compile: K -> Option<V>, i: nat, t: nat)
    requires max > 0 && IsRun(run, max, compile) && i < |run|
    requires t in run[i].lookups && run[i].lookups[t].Answered?
    ensures run[i].lookups[t].answer == compile(run[i].lookups[t].key)
    ensures Bounded(run[i].contents, max) && Memo(run[i].contents, compile)
  {
    SharedInvRun(run, max, compile, i);
    assert StageOk(run[i].lookups[t], compile);
  }

  // ----- a bounded cache holds the most recently used keys -----

  function Run<K(==), V>(max: nat, compile: K -> Option<V>, trace: seq<K>): seq<Entry<K, V>>
    requires max > 0
  {
    if trace == [] then [] else Lookup(Run(max, compile, trace[..|trace| - 1]), max, compile, trace[|trace| - 1])
  }

  /** Everything ever used successfully, latest use first. */
  function Recent<K(==), V>(compile: K -> Option<V>, trace: seq<K>): seq<Entry<K, V>> {
    if trace == [] then [] else
      var r, k := Recent(compile, trace[..|trace| - 1]), trace[|trace| - 1];
      if compile(k).Some? then Front(r, Entry(k, compile(k).value)) else r
  }

  function Front<K(==), V>(r: seq<Entry<K, V>>, e: Entry<K, V>): seq<Entry<K, V>> {
    [e] + if Has(r, e.key) then RemoveAt(r, Find(r, e.key)) else r
  }

  function Take<T>(s: seq<T>, n: nat): seq<T> {
    if n < |s| then s[..n] else s
  }

  /** One more than the place of the latest use of `k`, or 0. */
  function LastUse<K(==)>(trace: seq<K>, k: K): nat {
    if trace == [] then 0 else if trace[|trace| - 1] == k then |trace| else LastUse(trace[..|trace| - 1], k)
  }

  ghost predicate ByRecency<K(!new), V>(s: seq<Entry<K, V>>, compile: K -> Option<V>, trace: seq<K>) {
    && Memo(s, compile)
    && LatestFirst(s, trace)
    && (forall k :: Has(s, k) <==> LastUse(trace, k) > 0 && compile(k).Some?)
  }

  lemma FrontHas<K, V>(r: seq<Entry<K, V>>, e: Entry<K, V>, k: K)
    requires Bounded(r, |r|)
    ensures Has(Front(r, e), k) <==> k == e.key || Has(r, k)
  {
    var f, i := Front(r, e), Find(r, e.key);
    assert k == e.key ==> f[0].key == k;
    if Has(r, k) && k != e.key {
      var j := Find(r, k);
      assert f[if i < |r| && j > i then j else j + 1].key == k;
    }
  }

  lemma {:induction false} LastUseBound<K>(trace: seq<K>, k: K)
    ensures LastUse(trace, k) <= |trace|
  {
    if trace != [] {
      LastUseBound(trace[..|trace| - 1], k);
    }
  }

  /** `Recent` is what it says: each successfully used key once, with its compile
      result, ordered by latest use. */
  lemma {:induction false} RecentByUse<K(!new), V>(compile: K -> Option<V>, trace: seq<K>)
    ensures ByRecency(Recent(compile, trace), compile, trace)
  {
    if trace != [] {
      var before, k := trace[..|trace| - 1], trace[|trace| - 1];
      RecentByUse(compile, before);
      UseStep(Recent(compile, before), compile, before, k, trace);
    }
  }

  lemma UseAt<K>(before: seq<K>, k: K, x: K)
    ensures LastUse(before + [k], x) == if x == k then |before| + 1 else LastUse(before, x)
    ensures LastUse(before, x) <= |before|
  {
    assert (before + [k])[..|before|] == before;
    LastUseBound(before, x);
  }

  ghost predicate LatestFirst<K, V>(s: seq<Entry<K, V>>, trace: seq<K>) {
    forall i, j | 0 <= i < j < |s| :: LastUse(trace, s[i].key) > LastUse(trace, s[j].key)
  }

  lemma LatestStays<K, V>(s: seq<Entry<K, V>>, before: seq<K>, k: K)
    requires LatestFirst(s, before) && !Has(s, k)
    ensures LatestFirst(s, before + [k])
    ensures forall i | 0 <= i < |s| :: LastUse(before + [k], s[i].key) <= |before|
  {
    forall i | 0 <= i < |s| ensures LastUse(before + [k], s[i].key) == LastUse(before, s[i].key) <= |before| {
      assert s[i].key != k;
      UseAt(before, k, s[i].key);
    }
  }

  lemma FrontIsLatest<K, V>(r: seq<Entry<K, V>>, before: seq<K>, e: Entry<K, V>)
    requires LatestFirst(r, before)
    ensures LatestFirst(Front(r, e), before + [e.key])
  {
    var rest := if Has(r, e.key) then RemoveAt(r, Find(r, e.key)) else r;
    if Has(r, e.key) {
      RestLatest(r, before, e.key);
    }
    LatestStays(rest, before, e.key);
    UseAt(before, e.key, e.key);
    assert Front(r, e) == [e] + rest;
  }

  lemma RestLatest<K, V>(r: seq<Entry<K, V>>, before: seq<K>, k: K)
    requires LatestFirst(r, before) && Has(r, k)
    ensures LatestFirst(RemoveAt(r, Find(r, k)), before) && !Has(RemoveAt(r, Find(r, k)), k)
  {
    var i := Find(r, k);
    assert forall j | i < j < |r| :: LastUse(before, r[i].key) > LastUse(before, r[j].key);
    assert forall j | 0 <= j < |r| && j != i :: r[j].key != k;
    RestFirst(r, before, i);
    RestLacks(r, i, k);
  }

  lemma RestFirst<K, V>(r: seq<Entry<K, V>>, before: seq<K>, i: nat)
    requires LatestFirst(r, before) && i < |r|
    ensures LatestFirst(RemoveAt(r, i), before)
  {}

  lemma RestLacks<K, V>(r: seq<Entry<K, V>>, i: nat, k: K)
    requires i < |r| && forall j | 0 <= j < |r| && j != i :: r[j].key != k
    ensures !Has(RemoveAt(r, i), k)
  {}

  lemma UseStep<K(!new), V>(r: seq<Entry<K, V>>, compile: K -> Option<V>, before: seq<K>, k: K, trace: seq<K>)
    requires ByRecency(r, compile, before) && trace == before + [k]
    ensures compile(k).Some? ==> ByRecency(Front(r, Entry(k, compile(k).value)), compile, trace)
    ensures compile(k).None? ==> ByRecency(r, compile, trace)
  {
    forall x ensures LastUse(trace, x) == if x == k then |trace| else LastUse(before, x) {
      UseAt(before, k, x);
    }
    if compile(k).Some? {
      var e := Entry(k, compile(k).value);
      FrontIsLatest(r, before, e);
      FrontMemo(r, compile, e);
      forall x ensures Has(Front(r, e), x) <==> x == k || Has(r, x) {
        FrontHas(r, e, x);
      }
    } else {
      LatestStays(r, before, k);
    }
  }

  lemma FrontMemo<K(!new), V>(r: seq<Entry<K, V>>, compile: K -> Option<V>, e: Entry<K, V>)
    requires Memo(r, compile) && compile(e.key) == Some(e.value)
    ensures Memo(Front(r, e), compile)
  {}

  lemma FrontTaken<K(!new), V>(r: seq<Entry<K, V>>, max: nat, compile: K -> Option<V>, k: K)
    requires max > 0 && Memo(r, compile) && Bounded(r, |r|)
    ensures Lookup(Take(r, max), max, compile, k) ==
            Take(if compile(k).Some? then Front(r, Entry(k, compile(k).value)) else r, max)
  {
    var s, i := Take(r, max), Find(r, k);
    FindTaken(r, max, k);
    if i < |s| {
      TakeMoved(r, max, i);
      assert r[i] == Entry(k, compile(k).value);
    } else if compile(k).Some? {
      TakePushed(r, max, i, Entry(k, compile(k).value));
    }
  }

  lemma FindTaken<K, V>(r: seq<Entry<K, V>>, max: nat, k: K)
    ensures Find(Take(r, max), k) == if Find(r, k) < |Take(r, max)| then Find(r, k) else |Take(r, max)|
  {}

  lemma TakeMoved<T>(r: seq<T>, max: nat, i: nat)
    requires i < |Take(r, max)|
    ensures Take([r[i]] + RemoveAt(r, i), max) == [r[i]] + RemoveAt(Take(r, max), i)
  {}

  lemma TakePushed<T>(r: seq<T>, max: nat, i: nat, e: T)
    requires 0 < max && |Take(r, max)| <= i <= |r|
    ensures var s := Take(r, max);
            Take([e] + (if i < |r| then RemoveAt(r, i) else r), max) == [e] + if |s| >= max then s[..|s| - 1] else s
  {}

  lemma ByRecencyBounded<K(!new), V>(s: seq<Entry<K, V>>, compile: K -> Option<V>, trace: seq<K>)
    requires ByRecency(s, compile, trace)
    ensures Bounded(s, |s|) && Memo(s, compile)
  {}

  /** A cache of any size holds the most recently used keys, as many as fit. */
  lemma {:induction false} RunHoldsRecent<K(!new), V>(max: nat, compile: K -> Option<V>, trace: seq<K>)
    requires max > 0
    ensures Run(max, compile, trace) == Take(Recent(compile, trace), max)
  {
    if trace != [] {
      var before, k := trace[..|trace| - 1], trace[|trace| - 1];
      RunHoldsRecent(max, compile, before);
      RecentByUse(compile, before);
      ByRecencyBounded(Recent(compile, before), compile, before);
      FrontTaken(Recent(compile, before), max, compile, k);
    }
  }

  /** On one trace, a smaller cache's recency list is a prefix of a larger one's. */
  lemma Inclusion<K(!new), V>(small: nat, large: nat, compile: K -> Option<V>, trace: seq<K>)
    requires 0 < small <= large
    ensures Run(small, compile, trace) <= Run(large, compile, trace)
  {
    RunHoldsRecent(small, compile, trace);
    RunHoldsRecent(large, compile, trace);
  }

  function Hits<K(==), V>(max: nat, compile: K -> Option<V>, trace: seq<K>): nat
    requires max > 0
  {
    if trace == [] then 0 else
      var before := trace[..|trace| - 1];
      Hits(max, compile, before) + if Has(Run(max, compile, before), trace[|trace| - 1]) then 1 else 0
  }

  /** So a larger cache never hits less often. */
  lemma {:induction false} MoreRoomMoreHits<K(!new), V>(small: nat, large: nat, compile: K -> Option<V>, trace: seq<K>)
    requires 0 < small <= large
    ensures Hits(small, compile, trace) <= Hits(large, compile, trace)
  {
    if trace != [] {
      var before, k := trace[..|trace| - 1], trace[|trace| - 1];
      MoreRoomMoreHits(small, large, compile, before);
      Inclusion(small, large, compile, before);
      PrefixHas(Run(small, compile, before), Run(large, compile, before), k);
    }
  }

  lemma PrefixHas<K, V>(s: seq<Entry<K, V>>, t: seq<Entry<K, V>>, k: K)
    requires s <= t
    ensures Has(s, k) ==> Has(t, k)
  {
    if Has(s, k) {
      assert t[Find(s, k)].key == k;
    }
  }
}
