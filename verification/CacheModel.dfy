/** What ops/built-in/kernel_cache.h stores, as a function of the calls made: an abstract cache and
    its behaviour over whole runs. */
module CacheModel {
  import opened Wrappers

  type Key = nat

  datatype Entry<V> = Entry(key: Key, value: V)

  /** Most recently used first. */
  datatype Cache<V> = Cache(capacity: nat, session: bool, items: seq<Entry<V>>)

  datatype Call<V> = Get(key: Key) | Set(key: Key, value: V)

  function Keys<V>(items: seq<Entry<V>>): (ks: seq<Key>)
    ensures |ks| == |items| && forall i :: 0 <= i < |items| ==> ks[i] == items[i].key
  {
    seq(|items|, i requires 0 <= i < |items| => items[i].key)
  }

  predicate Distinct(ks: seq<Key>) {
    forall i, j :: 0 <= i < j < |ks| ==> ks[i] != ks[j]
  }

  function Without<V>(items: seq<Entry<V>>, key: Key): seq<Entry<V>> {
    if items == [] then []
    else if items[0].key == key then Without(items[1..], key)
    else [items[0]] + Without(items[1..], key)
  }

  function Find<V>(items: seq<Entry<V>>, key: Key): Option<V> {
    if items == [] then None
    else if items[0].key == key then Some(items[0].value)
    else Find(items[1..], key)
  }

  function Replaced<V>(items: seq<Entry<V>>, key: Key, value: V): seq<Entry<V>> {
    seq(|items|, i requires 0 <= i < |items| => if items[i].key == key then Entry(key, value) else items[i])
  }

  /** A hit moves the entry to the front unless the cache belongs to a session. */
  function AfterGet<V>(c: Cache<V>, key: Key): Cache<V> {
    match Find(c.items, key)
    case None => c
    case Some(v) => if c.session then c else c.(items := [Entry(key, v)] + Without(c.items, key))
  }

  /** A new key evicts the last entry if there are already more than `capacity`. */
  function AfterSet<V>(c: Cache<V>, key: Key, value: V): Cache<V> {
    if Find(c.items, key).Some? then
      if c.session then c.(items := Replaced(c.items, key, value))
      else c.(items := [Entry(key, value)] + Without(c.items, key))
    else
      var kept := if c.capacity < |c.items| && !c.session then c.items[..|c.items| - 1] else c.items;
      c.(items := [Entry(key, value)] + kept)
  }

  function After<V>(c: Cache<V>, call: Call<V>): Cache<V> {
    match call
    case Get(key) => AfterGet(c, key)
    case Set(key, value) => AfterSet(c, key, value)
  }

  /** The cache after a run of calls from empty. */
  function Run<V>(capacity: nat, session: bool, calls: seq<Call<V>>): Cache<V> {
    if calls == [] then Cache(capacity, session, [])
    else After(Run(capacity, session, calls[..|calls| - 1]), calls[|calls| - 1])
  }

  lemma FindIsKey<V>(items: seq<Entry<V>>, key: Key)
    ensures Find(items, key).Some? <==> key in Keys(items)
    ensures forall i :: 0 <= i < |items| && items[i].key == key && Distinct(Keys(items)) ==>
      Find(items, key) == Some(items[i].value)
  {
    if items != [] {
      var rest := items[1..];
      FindIsKey(rest, key);
      assert forall i :: 0 < i < |items| ==> items[i] == rest[i - 1] && Keys(items)[i] == Keys(rest)[i - 1];
    }
  }

  /** Removing a key keeps the others, in order. */
  lemma {:induction false} WithoutKeys<V>(items: seq<Entry<V>>, key: Key)
    ensures Keys(Without(items, key)) == Removed(Keys(items), key)
    ensures forall k :: k != key ==> Find(Without(items, key), k) == Find(items, k)
    ensures Find(Without(items, key), key) == None
  {
    if items == [] {
      assert Keys(items) == [];
    } else {
      WithoutKeys(items[1..], key);
      KeysCons(items[0], items[1..]);
      assert items == [items[0]] + items[1..];
      if items[0].key != key {
        var w := Without(items[1..], key);
        KeysCons(items[0], w);
        forall k | k != key ensures Find([items[0]] + w, k) == Find(items, k) { FindCons(items[0], w, k); }
        FindCons(items[0], w, key);
      }
    }
  }

  lemma FindCons<V>(e: Entry<V>, rest: seq<Entry<V>>, k: Key)
    ensures Find([e] + rest, k) == if e.key == k then Some(e.value) else Find(rest, k)
  {
    assert ([e] + rest)[1..] == rest;
  }

  function Removed(ks: seq<Key>, key: Key): seq<Key> {
    if ks == [] then [] else (if ks[0] == key then [] else [ks[0]]) + Removed(ks[1..], key)
  }

  function MovedToFront(ks: seq<Key>, key: Key): seq<Key> {
    [key] + Removed(ks, key)
  }

  lemma {:induction false} RemovedMembers(ks: seq<Key>, key: Key)
    ensures key !in Removed(ks, key)
    ensures forall k :: k != key ==> (k in Removed(ks, key) <==> k in ks)
    ensures key !in ks ==> Removed(ks, key) == ks
  {
    if ks != [] {
      RemovedMembers(ks[1..], key);
      assert ks == [ks[0]] + ks[1..];
    }
  }

  lemma {:induction false} RemovedDistinct(ks: seq<Key>, key: Key)
    requires Distinct(ks)
    ensures Distinct(Removed(ks, key))
    ensures |Removed(ks, key)| == if key in ks then |ks| - 1 else |ks|
  {
    if ks != [] {
      RemovedMembers(ks[1..], key);
      RemovedDistinct(ks[1..], key);
      if ks[0] != key {
        var r := Removed(ks[1..], key);
        assert ks[0] !in r;
      } else {
        assert key !in ks[1..];
      }
    }
  }

  /** Every reachable cache has distinct keys and at most one entry more than its capacity. */
  lemma {:induction false} RunBounded<V>(capacity: nat, session: bool, calls: seq<Call<V>>)
    ensures var c := Run(capacity, session, calls);
            && c.capacity == capacity && c.session == session
            && Distinct(Keys(c.items)) && (!session ==> |c.items| <= capacity + 1)
  {
    if calls != [] {
      var c := Run(capacity, session, calls[..|calls| - 1]);
      RunBounded(capacity, session, calls[..|calls| - 1]);
      KeysAfter(c, calls[|calls| - 1]);
    }
  }

  /** What a call does to the list of keys. */
  function KeysStep<V>(c: Cache<V>, call: Call<V>): seq<Key> {
    var ks := Keys(c.items);
    if call.key in ks then
      if c.session then ks else MovedToFront(ks, call.key)
    else if call.Get? then ks
    else [call.key] + if c.capacity < |ks| && !c.session then ks[..|ks| - 1] else ks
  }

  lemma KeysAfter<V>(c: Cache<V>, call: Call<V>)
    requires Distinct(Keys(c.items))
    ensures Keys(After(c, call).items) == KeysStep(c, call)
    ensures Distinct(KeysStep(c, call))
    ensures |KeysStep(c, call)| <= |c.items| + 1
    ensures !c.session && |c.items| <= c.capacity + 1 ==> |KeysStep(c, call)| <= c.capacity + 1
  {
    FindIsKey(c.items, call.key);
    WithoutKeys(c.items, call.key);
    StepDistinct(Keys(c.items), call.key, c.capacity);
    if call.Set? {
      KeysCons(Entry(call.key, call.value), Without(c.items, call.key));
      if Find(c.items, call.key).None? {
        KeysCons(Entry(call.key, call.value), if c.capacity < |c.items| && !c.session then c.items[..|c.items| - 1]
          else c.items);
      } else {
        assert Keys(Replaced(c.items, call.key, call.value)) == Keys(c.items);
      }
    } else if Find(c.items, call.key).Some? {
      KeysCons(Entry(call.key, Find(c.items, call.key).value), Without(c.items, call.key));
    }
  }

  lemma KeysCons<V>(e: Entry<V>, items: seq<Entry<V>>)
    ensures Keys([e] + items) == [e.key] + Keys(items)
    ensures 0 < |items| ==> Keys(items[..|items| - 1]) == Keys(items)[..|items| - 1]
  {
  }

  lemma StepDistinct(ks: seq<Key>, key: Key, capacity: nat)
    requires Distinct(ks)
    ensures Distinct(MovedToFront(ks, key)) && |MovedToFront(ks, key)| == if key in ks then |ks| else |ks| + 1
    ensures key !in ks ==> Distinct([key] + ks) && (0 < |ks| ==> Distinct([key] + ks[..|ks| - 1]))
  {
    RemovedMembers(ks, key);
    RemovedDistinct(ks, key);
  }

  // ---- Caches of something else about the values ----

  function MappedItems<V, W>(items: seq<Entry<V>>, f: V -> W): (mapped: seq<Entry<W>>)
    ensures |mapped| == |items| && forall i :: 0 <= i < |items| ==> mapped[i] == Entry(items[i].key, f(items[i].value))
  {
    seq(|items|, i requires 0 <= i < |items| => Entry(items[i].key, f(items[i].value)))
  }

  /** The cache as it looks when only `f` of each value is seen. */
  function Mapped<V, W>(c: Cache<V>, f: V -> W): Cache<W> {
    Cache(c.capacity, c.session, MappedItems(c.items, f))
  }

  function MappedValue<V, W>(found: Option<V>, f: V -> W): Option<W> {
    match found
    case None => None
    case Some(v) => Some(f(v))
  }

  lemma {:induction false} FindMapped<V, W>(items: seq<Entry<V>>, key: Key, f: V -> W)
    ensures Find(MappedItems(items, f), key) == MappedValue(Find(items, key), f)
  {
    if items != [] {
      FindMapped(items[1..], key, f);
      assert MappedItems(items, f)[1..] == MappedItems(items[1..], f);
    }
  }

  lemma {:induction false} WithoutMapped<V, W>(items: seq<Entry<V>>, key: Key, f: V -> W)
    ensures MappedItems(Without(items, key), f) == Without(MappedItems(items, f), key)
  {
    if items != [] {
      WithoutMapped(items[1..], key, f);
      assert MappedItems(items, f)[1..] == MappedItems(items[1..], f);
      if items[0].key != key { MappedCons(items[0], Without(items[1..], key), f); }
    }
  }

  lemma MappedCons<V, W>(e: Entry<V>, items: seq<Entry<V>>, f: V -> W)
    ensures MappedItems([e] + items, f) == [Entry(e.key, f(e.value))] + MappedItems(items, f)
  {
  }

  /** Looking up and storing commute with seeing less. */
  lemma MappedGet<V, W>(c: Cache<V>, key: Key, f: V -> W)
    ensures Mapped(AfterGet(c, key), f) == AfterGet(Mapped(c, f), key)
    ensures Find(Mapped(c, f).items, key) == MappedValue(Find(c.items, key), f)
  {
    FindMapped(c.items, key, f);
    WithoutMapped(c.items, key, f);
    if Find(c.items, key).Some? { MappedCons(Entry(key, Find(c.items, key).value), Without(c.items, key), f); }
  }

  lemma MappedSet<V, W>(c: Cache<V>, key: Key, value: V, f: V -> W)
    ensures Mapped(AfterSet(c, key, value), f) == AfterSet(Mapped(c, f), key, f(value))
  {
    FindMapped(c.items, key, f);
    WithoutMapped(c.items, key, f);
    assert MappedItems(AfterSet(c, key, value).items, f) == AfterSet(Mapped(c, f), key, f(value)).items;
  }
}
