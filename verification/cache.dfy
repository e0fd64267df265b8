/** The query-result cache of main.py (`extension.search_cache`): a Python
    dict, modelled as its items in iteration order (insertion order), bounded
    at 200 entries by deleting the first key in iteration order before a
    store at capacity. Reads do not reorder it, so eviction is
    first-in-first-out. */
module FifoCache {
  import opened Results

  /** The cache size at which a store first evicts. */
  const Capacity: nat := 200

  /** The dict's `(key, value)` items in iteration order. */
  datatype Cache<K, V> = Cache(items: seq<(K, V)>)

  /** The keys of `items`, in order. */
  function KeysOf<K, V>(items: seq<(K, V)>): (keys: seq<K>)
    ensures |keys| == |items|
    ensures forall i :: 0 <= i < |items| ==> keys[i] == items[i].0
  {
    seq(|items|, i requires 0 <= i < |items| => items[i].0)
  }

  predicate Distinct<K(==)>(s: seq<K>) {
    forall i, j :: 0 <= i < j < |s| ==> s[i] != s[j]
  }

  /** Every key occurs once, and the bound holds. */
  predicate Valid<K(==), V>(c: Cache<K, V>) {
    Distinct(KeysOf(c.items)) && |c.items| <= Capacity
  }

  /** `{}` and `search_cache.clear()`. */
  function Empty<K(==,!new), V>(): (c: Cache<K, V>)
    ensures Valid(c)
    ensures forall key :: Lookup(c, key) == None
  {
    Cache([])
  }

  /** The position of `key` among the items, or -1 when it is absent. */
  function IndexOf<K(==), V>(items: seq<(K, V)>, key: K): (i: int)
    ensures -1 <= i < |items|
    ensures i >= 0 ==> items[i].0 == key
    ensures i < 0 <==> key !in KeysOf(items)
  {
    if items == [] then -1
    else if items[|items| - 1].0 == key then |items| - 1
    else
      var init := items[..|items| - 1];
      assert KeysOf(items) == KeysOf(init) + [items[|items| - 1].0];
      IndexOf(init, key)
  }

  /** `search_cache[key] if key in search_cache else None`. */
  function Lookup<K(==), V>(c: Cache<K, V>, key: K): (r: Option<V>)
    ensures r.None? <==> key !in KeysOf(c.items)
    ensures r.Some? ==> (key, r.value) in c.items
  {
    var i := IndexOf(c.items, key);
    if i < 0 then None else Some(c.items[i].1)
  }

  /** In a dict whose keys occur once, an item is found by its key. */
  lemma LookupItem<K, V>(c: Cache<K, V>, key: K, value: V)
    requires Distinct(KeysOf(c.items))
    requires (key, value) in c.items
    ensures Lookup(c, key) == Some(value)
  {
    var j :| 0 <= j < |c.items| && c.items[j] == (key, value);
    var i := IndexOf(c.items, key);
    assert i >= 0 && KeysOf(c.items)[i] == KeysOf(c.items)[j];
  }

  /** `del search_cache[next(iter(search_cache))]`. */
  function EvictOldest<K(==), V>(c: Cache<K, V>): (r: Cache<K, V>)
    requires Distinct(KeysOf(c.items)) && c.items != []
    ensures Distinct(KeysOf(r.items))
    ensures KeysOf(r.items) == KeysOf(c.items)[1..]
  {
    Cache(c.items[1..])
  }

  /** `search_cache[key] = value`: a new key goes to the end of the
      iteration order, an existing key keeps its place. */
  function Store<K(==), V>(c: Cache<K, V>, key: K, value: V): (r: Cache<K, V>)
    requires Distinct(KeysOf(c.items))
    ensures Distinct(KeysOf(r.items))
    ensures KeysOf(r.items) == if key in KeysOf(c.items) then KeysOf(c.items) else KeysOf(c.items) + [key]
  {
    var i := IndexOf(c.items, key);
    if i < 0 then
      assert KeysOf(c.items + [(key, value)]) == KeysOf(c.items) + [key];
      Cache(c.items + [(key, value)])
    else
      assert KeysOf(c.items[i := (key, value)]) == KeysOf(c.items);
      Cache(c.items[i := (key, value)])
  }

  /** Lines 200-204 of main.py: at capacity, evict the first key in
      iteration order; then store. The stored key is then found with its
      value; a key not in the cache becomes the newest one. */
  function Insert<K(==), V>(c: Cache<K, V>, key: K, value: V): (r: Cache<K, V>)
    requires Valid(c)
    ensures Valid(r)
    ensures Lookup(r, key) == Some(value)
    ensures key !in KeysOf(c.items) && |c.items| < Capacity ==> KeysOf(r.items) == KeysOf(c.items) + [key]
    ensures key !in KeysOf(c.items) && |c.items| >= Capacity ==> KeysOf(r.items) == KeysOf(c.items)[1..] + [key]
  {
    var kept := if |c.items| >= Capacity then EvictOldest(c) else c;
    var r := Store(kept, key, value);
    assert (key, value) in r.items;
    LookupItem(r, key, value);
    r
  }

  /** Every other key keeps its value, except that at capacity the oldest
      key is gone. */
  lemma InsertKeepsOthers<K, V>(c: Cache<K, V>, key: K, value: V, other: K)
    requires Valid(c) && other != key
    ensures Lookup(Insert(c, key, value), other) ==
      if |c.items| >= Capacity && other == c.items[0].0 then None else Lookup(c, other)
  {
    var kept := if |c.items| >= Capacity then EvictOldest(c) else c;
    if |c.items| >= Capacity {
      LookupEvict(c, other);
    }
    LookupStore(kept, key, value, other);
  }

  lemma LookupStore<K, V>(c: Cache<K, V>, key: K, value: V, other: K)
    requires Distinct(KeysOf(c.items)) && other != key
    ensures Lookup(Store(c, key, value), other) == Lookup(c, other)
  {
    var r := Store(c, key, value);
    match Lookup(c, other)
    case None =>
      assert other !in KeysOf(r.items);
    case Some(v) =>
      assert (other, v) in r.items;
      LookupItem(r, other, v);
  }

  lemma LookupEvict<K, V>(c: Cache<K, V>, other: K)
    requires Distinct(KeysOf(c.items)) && c.items != []
    ensures Lookup(EvictOldest(c), other) == if other == c.items[0].0 then None else Lookup(c, other)
  {
    var r := EvictOldest(c);
    if other == c.items[0].0 {
      DistinctHead(KeysOf(c.items));
      assert KeysOf(c.items)[0] == other;
    } else {
      match Lookup(c, other)
      case None =>
        assert other !in KeysOf(c.items)[1..];
      case Some(v) =>
        assert c.items == [c.items[0]] + r.items;
        assert (other, v) in r.items;
        LookupItem(r, other, v);
    }
  }

  /** `len(search_cache)` never exceeds the capacity after a store. */
  lemma InsertBounded<K, V>(c: Cache<K, V>, key: K, value: V)
    requires Valid(c)
    ensures |Insert(c, key, value).items| <= Capacity
    ensures key !in KeysOf(c.items) ==> |Insert(c, key, value).items| == if |c.items| < Capacity then |c.items| + 1 else Capacity
  {
  }

  /** The cache after storing each pair of `pairs` in turn. */
  function InsertAll<K(==), V>(c: Cache<K, V>, pairs: seq<(K, V)>): (r: Cache<K, V>)
    requires Valid(c)
    ensures Valid(r)
  {
    if pairs == [] then c
    else
      var last := pairs[|pairs| - 1];
      Insert(InsertAll(c, pairs[..|pairs| - 1]), last.0, last.1)
  }

  /** The last `Capacity` elements of `all`. */
  function Newest<K>(all: seq<K>): seq<K> {
    if |all| <= Capacity then all else all[|all| - Capacity..]
  }

  /** The window holds only keys of the whole sequence. */
  lemma NewestWithin<K>(all: seq<K>, key: K)
    requires key !in all
    ensures key !in Newest(all)
  {
    if |all| > Capacity {
      assert forall k :: k in all[|all| - Capacity..] ==> k in all;
    }
  }

  /** Past capacity, the window drops its oldest key as a new one arrives. */
  lemma WindowShift<K>(before: seq<K>, key: K)
    requires |before| >= Capacity
    ensures Newest(before)[1..] + [key] == Newest(before + [key])
  {
    var start := |before| - Capacity;
    assert Newest(before) == before[start..];
    assert Newest(before)[1..] == before[start + 1..];
    assert (before + [key])[start + 1..] == before[start + 1..] + [key];
  }

  /** One store of a fresh key moves the window of newest keys by one. */
  lemma StoreFreshShiftsWindow<K, V>(c: Cache<K, V>, before: seq<K>, key: K, value: V)
    requires Valid(c) && key !in KeysOf(c.items)
    requires KeysOf(c.items) == Newest(before)
    ensures KeysOf(Insert(c, key, value).items) == Newest(before + [key])
  {
    if |before| < Capacity {
      assert Newest(before + [key]) == before + [key];
    } else {
      WindowShift(before, key);
    }
  }

  /** Storing fresh keys one after another leaves exactly the most recently
      stored `Capacity` keys, oldest first, however often they were read. */
  lemma {:induction false} KeepsNewestKeys<K, V>(c: Cache<K, V>, pairs: seq<(K, V)>)
    requires Valid(c)
    requires Distinct(KeysOf(c.items) + KeysOf(pairs))
    ensures KeysOf(InsertAll(c, pairs).items) == Newest(KeysOf(c.items) + KeysOf(pairs))
    decreases |pairs|
  {
    if pairs != [] {
      var m := |pairs| - 1;
      var init := pairs[..m];
      var key := pairs[m].0;
      var before := KeysOf(c.items) + KeysOf(init);
      var all := KeysOf(c.items) + KeysOf(pairs);
      assert all == before + [key];
      assert Distinct(before) by {
        assert forall i :: 0 <= i < |before| ==> before[i] == all[i];
      }
      KeepsNewestKeys(c, init);
      assert key !in before by {
        assert forall i :: 0 <= i < |before| ==> before[i] == all[i] && all[i] != all[|before|];
      }
      NewestWithin(before, key);
      StoreFreshShiftsWindow(InsertAll(c, init), before, key, pairs[m].1);
    }
  }

  lemma DistinctHead<K>(s: seq<K>)
    requires Distinct(s) && s != []
    ensures s[0] !in s[1..]
  {
  }

  /** Storing `Capacity + 1` distinct keys into an empty cache evicts the
      first and keeps the last. */
  lemma EvictsOldestFirst<K(!new), V>(pairs: seq<(K, V)>)
    requires |pairs| == Capacity + 1
    requires Distinct(KeysOf(pairs))
    ensures Lookup(InsertAll(Empty(), pairs), pairs[0].0) == None
    ensures Lookup(InsertAll(Empty(), pairs), pairs[Capacity].0) == Some(pairs[Capacity].1)
  {
    var c: Cache<K, V> := Empty();
    assert KeysOf(c.items) + KeysOf(pairs) == KeysOf(pairs);
    KeepsNewestKeys(c, pairs);
    var r := InsertAll(c, pairs);
    var keys := KeysOf(r.items);
    assert keys == KeysOf(pairs)[1..];
    DistinctHead(KeysOf(pairs));
    assert r == Insert(InsertAll(c, pairs[..Capacity]), pairs[Capacity].0, pairs[Capacity].1);
  }
}
