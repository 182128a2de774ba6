/** Properties of whole runs of the kernel cache (ops/built-in/kernel_cache.h). */
module CacheTheorems {
  import opened Wrappers
  import opened CacheModel

  // ---- The list is a prefix of the unbounded move-to-front list ----

  /** The keys a run has used: set, or got and found.  A miss is not a use. */
  function Uses<V>(capacity: nat, calls: seq<Call<V>>): seq<Key> {
    if calls == [] then [] else
    var before, call := calls[..|calls| - 1], calls[|calls| - 1];
    Uses(capacity, before)
    + if call.Set? || Find(Run(capacity, false, before).items, call.key).Some? then [call.key] else []
  }

  /** Distinct keys of `uses`, the most recent first. */
  function Recency(uses: seq<Key>): seq<Key> {
    if uses == [] then [] else MovedToFront(Recency(uses[..|uses| - 1]), uses[|uses| - 1])
  }

  function Take(ks: seq<Key>, n: nat): seq<Key> {
    if n < |ks| then ks[..n] else ks
  }

  lemma {:induction false} RecencyDistinct(uses: seq<Key>)
    ensures Distinct(Recency(uses))
  {
    if uses != [] {
      RecencyDistinct(uses[..|uses| - 1]);
      StepDistinct(Recency(uses[..|uses| - 1]), uses[|uses| - 1], 0);
    }
  }

  lemma DistinctParts(a: seq<Key>, b: seq<Key>)
    requires Distinct(a + b)
    ensures Distinct(a)
  {
    var ks := a + b;
    assert forall i :: 0 <= i < |a| ==> a[i] == ks[i];
  }

  lemma TakeFirst(front: seq<Key>, rest: seq<Key>)
    ensures Take(front + rest, |front|) == front
  {
  }

  lemma TakeKept(short: seq<Key>, rest: seq<Key>, key: Key)
    requires Distinct(short) && key in short
    ensures Take(MovedToFront(short + rest, key), |short|) == MovedToFront(short, key)
  {
    RemovedConcat(short, rest, key);
    RemovedDistinct(short, key);
    var front := MovedToFront(short, key);
    assert MovedToFront(short + rest, key) == front + Removed(rest, key);
    TakeFirst(front, Removed(rest, key));
  }

  lemma TakeNew(short: seq<Key>, rest: seq<Key>, key: Key, n: nat)
    requires |short| == n + 1 && key !in short
    ensures Take(MovedToFront(short + rest, key), n + 1) == [key] + short[..n]
  {
    RemovedConcat(short, rest, key);
    RemovedMembers(short, key);
    var front, back := [key] + short[..n], [short[n]] + Removed(rest, key);
    assert MovedToFront(short + rest, key) == front + back;
    TakeFirst(front, back);
  }

  lemma TakeLonger(short: seq<Key>, rest: seq<Key>, key: Key, n: nat)
    requires Distinct(short + rest) && |short| == n + 1
    ensures Take(MovedToFront(short + rest, key), n + 1) == if key in short then MovedToFront(short, key)
      else [key] + short[..n]
  {
    DistinctParts(short, rest);
    if key in short { TakeKept(short, rest, key); } else { TakeNew(short, rest, key, n); }
  }

  /** Moving a key to the front and cutting the list is what a bounded cache does. */
  lemma TakeStep(ks: seq<Key>, key: Key, n: nat)
    requires Distinct(ks)
    ensures var short := Take(ks, n + 1);
            Take(MovedToFront(ks, key), n + 1)
              == if key in short then MovedToFront(short, key)
                 else [key] + if n < |short| then short[..|short| - 1] else short
  {
    var short := Take(ks, n + 1);
    if n + 1 < |ks| {
      var rest := ks[n + 1..];
      assert ks == short + rest;
      TakeLonger(short, rest, key, n);
    } else {
      RemovedMembers(ks, key);
      RemovedDistinct(ks, key);
    }
  }

  lemma {:induction false} RemovedConcat(a: seq<Key>, b: seq<Key>, key: Key)
    ensures Removed(a + b, key) == Removed(a, key) + Removed(b, key)
  {
    if a == [] {
      assert a + b == b;
    } else {
      assert (a + b)[1..] == a[1..] + b;
      RemovedConcat(a[1..], b, key);
    }
  }

  /** Main result: outside sessions the cache is exactly the `capacity + 1` most recently used keys. */
  lemma {:induction false} LruPrefix<V>(capacity: nat, calls: seq<Call<V>>)
    ensures Keys(Run(capacity, false, calls).items) == Take(Recency(Uses(capacity, calls)), capacity + 1)
  {
    if calls != [] {
      var before, call := calls[..|calls| - 1], calls[|calls| - 1];
      LruPrefix(capacity, before);
      RunBounded(capacity, false, before);
      LruStep(Run(capacity, false, before), call, Uses(capacity, before));
    }
  }

  lemma LruStep<V>(c: Cache<V>, call: Call<V>, uses: seq<Key>)
    requires !c.session && Distinct(Keys(c.items)) && Keys(c.items) == Take(Recency(uses), c.capacity + 1)
    ensures var used := if call.Set? || Find(c.items, call.key).Some? then [call.key] else [];
            Keys(After(c, call).items) == Take(Recency(uses + used), c.capacity + 1)
  {
    KeysAfter(c, call);
    FindIsKey(c.items, call.key);
    if call.Set? || Find(c.items, call.key).Some? {
      RecencyMore(uses, call.key);
      TakeStep(Recency(uses), call.key, c.capacity);
    } else {
      assert uses + [] == uses;
    }
  }

  lemma RecencyMore(uses: seq<Key>, key: Key)
    ensures Recency(uses + [key]) == MovedToFront(Recency(uses), key) && Distinct(Recency(uses))
  {
    RecencyDistinct(uses);
    assert (uses + [key])[..|uses|] == uses;
  }

  /** A lookup hits exactly if its key is among the `capacity + 1` most recently used. */
  lemma HitExactly<V>(capacity: nat, calls: seq<Call<V>>, key: Key)
    ensures Find(Run(capacity, false, calls).items, key).Some? <==>
      key in Take(Recency(Uses(capacity, calls)), capacity + 1)
  {
    LruPrefix(capacity, calls);
    FindIsKey(Run(capacity, false, calls).items, key);
  }

  // ---- Values ----

  function LastSet<V>(calls: seq<Call<V>>, key: Key): Option<V> {
    if calls == [] then None
    else if calls[|calls| - 1].Set? && calls[|calls| - 1].key == key then Some(calls[|calls| - 1].value)
    else LastSet(calls[..|calls| - 1], key)
  }

  /** A hit returns the last value set; a session cache never forgets one. */
  lemma {:induction false} HitIsLastSet<V>(capacity: nat, session: bool, calls: seq<Call<V>>, key: Key)
    ensures var found := Find(Run(capacity, session, calls).items, key);
            (found.Some? || session) ==> found == LastSet(calls, key)
  {
    if calls != [] {
      var before, call := calls[..|calls| - 1], calls[|calls| - 1];
      HitIsLastSet(capacity, session, before, key);
      RunBounded(capacity, session, before);
      FindAfter(Run(capacity, session, before), call, key);
    }
  }

  lemma FindAfter<V>(c: Cache<V>, call: Call<V>, key: Key)
    ensures var found := Find(After(c, call).items, key);
            if call.Set? && call.key == key then found == Some(call.value)
            else found == Find(c.items, key) || (!c.session && found == None)
  {
    WithoutKeys(c.items, call.key);
    if call.Set? {
      FindReplaced(c.items, call.key, call.value, key);
      if 0 < |c.items| { FindPrefix(c.items, key); }
    }
  }

  lemma {:induction false} FindReplaced<V>(items: seq<Entry<V>>, key: Key, value: V, k: Key)
    ensures Find(Replaced(items, key, value), k) == if k == key && Find(items, key).Some? then Some(value)
      else Find(items, k)
  {
    if items != [] {
      FindReplaced(items[1..], key, value, k);
      assert Replaced(items, key, value)[1..] == Replaced(items[1..], key, value);
    }
  }

  lemma {:induction false} FindPrefix<V>(items: seq<Entry<V>>, key: Key)
    requires 0 < |items|
    ensures var found := Find(items[..|items| - 1], key); found == Find(items, key) || found == None
  {
    if 1 < |items| {
      FindPrefix(items[1..], key);
      assert items[..|items| - 1][1..] == items[1..][..|items| - 2];
    }
  }

  // ---- Raising the capacity ----

  /** The keys of `ks` that are in `s`, in order. */
  function Only(ks: seq<Key>, s: set<Key>): seq<Key> {
    if ks == [] then [] else (if ks[0] in s then [ks[0]] else []) + Only(ks[1..], s)
  }

  function SetOf(ks: seq<Key>): set<Key> { set k | k in ks }

  /** `small` is `large` restricted to the keys of `small`: a subsequence in the same order. */
  predicate Included(small: seq<Key>, large: seq<Key>) {
    small == Only(large, SetOf(small))
  }

  lemma OnlyCons(x: Key, rest: seq<Key>, s: set<Key>)
    ensures Only([x] + rest, s) == (if x in s then [x] else []) + Only(rest, s)
  {
    assert ([x] + rest)[1..] == rest;
  }

  lemma {:induction false} OnlyAppend(a: seq<Key>, b: seq<Key>, s: set<Key>)
    ensures Only(a + b, s) == Only(a, s) + Only(b, s)
  {
    if a == [] {
      assert a + b == b;
    } else {
      var x, tail := a[0], a[1..];
      assert a == [x] + tail && a + b == [x] + (tail + b);
      OnlyAppend(tail, b, s);
      OnlyCons(x, tail, s);
      OnlyCons(x, tail + b, s);
    }
  }

  lemma OnlyLast(ks: seq<Key>, s: set<Key>)
    requires ks != []
    ensures Only(ks, s) == Only(ks[..|ks| - 1], s) + if ks[|ks| - 1] in s then [ks[|ks| - 1]] else []
  {
    var init, last := ks[..|ks| - 1], ks[|ks| - 1];
    assert ks == init + [last];
    OnlyAppend(init, [last], s);
    assert [last][1..] == [];
  }

  lemma RemovedCons(x: Key, rest: seq<Key>, key: Key)
    ensures Removed([x] + rest, key) == (if x == key then [] else [x]) + Removed(rest, key)
  {
    assert ([x] + rest)[1..] == rest;
  }

  lemma {:induction false} OnlyOfRemoved(ks: seq<Key>, s: set<Key>, key: Key)
    ensures Only(Removed(ks, key), s) == Removed(Only(ks, s), key)
  {
    if ks != [] {
      var x, rest := ks[0], ks[1..];
      assert ks == [x] + rest;
      OnlyOfRemoved(rest, s, key);
      RemovedCons(x, rest, key);
      OnlyCons(x, rest, s);
      OnlyCons(x, Removed(rest, key), s);
      RemovedCons(x, Only(rest, s), key);
      assert [] + Only(rest, s) == Only(rest, s) && [] + Removed(rest, key) == Removed(rest, key);
      assert [] + Removed(Only(rest, s), key) == Removed(Only(rest, s), key);
    }
  }

  lemma {:induction false} OnlyWithout(ks: seq<Key>, s: set<Key>, key: Key)
    ensures Only(ks, s - {key}) == Removed(Only(ks, s), key)
  {
    if ks != [] {
      var kept := Only(ks[1..], s);
      OnlyWithout(ks[1..], s, key);
      RemovedCons(ks[0], kept, key);
      assert [] + kept == kept && [] + Removed(kept, key) == Removed(kept, key);
    }
  }

  lemma {:induction false} OnlyWith(ks: seq<Key>, s: set<Key>, key: Key)
    requires key !in ks
    ensures Only(ks, s + {key}) == Only(ks, s)
  {
    if ks != [] { OnlyWith(ks[1..], s, key); }
  }

  lemma OnlyRemoved(ks: seq<Key>, s: set<Key>, key: Key)
    ensures Only(Removed(ks, key), s) == Removed(Only(ks, s), key)
    ensures Only(ks, s - {key}) == Removed(Only(ks, s), key)
    ensures key !in ks ==> Only(ks, s + {key}) == Only(ks, s)
    ensures key !in s ==> Only(ks, s - {key}) == Only(ks, s)
  {
    OnlyOfRemoved(ks, s, key);
    OnlyWithout(ks, s, key);
    if key !in ks { OnlyWith(ks, s, key); }
    if key !in s { assert s - {key} == s; }
  }

  lemma {:induction false} OnlySelf(ks: seq<Key>, s: set<Key>)
    requires SetOf(ks) <= s
    ensures Only(ks, s) == ks
  {
    if ks != [] {
      assert SetOf(ks[1..]) <= s;
      OnlySelf(ks[1..], s);
    }
  }

  lemma {:induction false} OnlyMembers(ks: seq<Key>, s: set<Key>)
    ensures forall k :: k in Only(ks, s) <==> k in ks && k in s
  {
    if ks != [] { OnlyMembers(ks[1..], s); }
  }

  /** What relates the lists of two runs: equal until the smaller cache is full, included from then on. */
  ghost predicate Related(small: seq<Key>, large: seq<Key>, capacity: nat) {
    && Distinct(small) && Distinct(large) && |small| <= capacity + 1
    && Included(small, large) && (small == large || |small| == capacity + 1)
  }

  lemma RelatedFront(small: seq<Key>, large: seq<Key>, key: Key, capacity: nat)
    requires Related(small, large, capacity) && key in small
    ensures key in large && Related(MovedToFront(small, key), MovedToFront(large, key), capacity)
  {
    OnlyMembers(large, SetOf(small));
    OnlyRemoved(large, SetOf(small), key);
    RemovedMembers(small, key);
    StepDistinct(small, key, capacity);
    StepDistinct(large, key, capacity);
    assert SetOf(MovedToFront(small, key)) == SetOf(small);
    var front := MovedToFront(large, key);
    assert front[1..] == Removed(large, key);
  }

  lemma RelatedMiss(small: seq<Key>, large: seq<Key>, key: Key, capacity: nat)
    requires Related(small, large, capacity) && key !in small && key in large
    ensures Related(small, MovedToFront(large, key), capacity)
  {
    OnlyRemoved(large, SetOf(small), key);
    RemovedMembers(small, key);
    StepDistinct(large, key, capacity);
    assert MovedToFront(large, key)[1..] == Removed(large, key);
  }

  /** A full small cache drops its last key for a new one; `rest` is what the larger one keeps. */
  lemma RelatedEvict(small: seq<Key>, large: seq<Key>, rest: seq<Key>, key: Key, capacity: nat)
    requires Related(small, large, capacity) && |small| == capacity + 1 && key !in small
    requires rest == Removed(large, key) || (key !in large && large != [] && rest == large[..|large| - 1])
    requires Distinct([key] + rest)
    ensures Related([key] + small[..|small| - 1], [key] + rest, capacity)
  {
    var kept := small[..|small| - 1];
    EvictIncluded(small, large, rest, key);
    DistinctFront(kept, key);
    assert |[key] + kept| == capacity + 1;
  }

  lemma EvictIncluded(small: seq<Key>, large: seq<Key>, rest: seq<Key>, key: Key)
    requires small != [] && key !in small && Distinct(small) && Included(small, large) && Distinct([key] + rest)
    requires rest == Removed(large, key) || (key !in large && large != [] && rest == large[..|large| - 1])
    ensures Included([key] + small[..|small| - 1], [key] + rest)
  {
    var n := |small| - 1;
    var last, kept := small[n], small[..n];
    assert small == kept + [last];
    assert last !in kept;
    DropLast(large, kept, last);
    RestKept(large, rest, kept, last, key);
    IncludedFront(kept, rest, key);
  }

  lemma DistinctFront(kept: seq<Key>, key: Key)
    requires Distinct(kept) && key !in kept
    ensures Distinct([key] + kept)
  {
  }

  lemma DropLast(large: seq<Key>, kept: seq<Key>, last: Key)
    requires last !in kept && Included(kept + [last], large)
    ensures Only(large, SetOf(kept)) == kept && Only(large, SetOf(kept) + {last}) == kept + [last]
  {
    assert SetOf(kept + [last]) == SetOf(kept) + {last};
    assert SetOf(kept) == SetOf(kept + [last]) - {last};
    LastDropped(kept, last);
    OnlyRemoved(large, SetOf(kept + [last]), last);
  }

  lemma IncludedFront(kept: seq<Key>, rest: seq<Key>, key: Key)
    requires Only(rest, SetOf(kept)) == kept && Distinct([key] + rest)
    ensures Included([key] + kept, [key] + rest)
  {
    assert SetOf([key] + kept) == SetOf(kept) + {key};
    OnlyCons(key, rest, SetOf(kept) + {key});
    NotInTail(key, rest);
    OnlyRemoved(rest, SetOf(kept), key);
  }

  lemma NotInTail(key: Key, rest: seq<Key>)
    requires Distinct([key] + rest)
    ensures key !in rest
  {
    forall i | 0 <= i < |rest|
      ensures rest[i] != key
    {
      var ks := [key] + rest;
      assert ks[0] != ks[i + 1];
    }
  }

  lemma LastDropped(kept: seq<Key>, last: Key)
    requires last !in kept
    ensures Removed(kept + [last], last) == kept
  {
    RemovedConcat(kept, [last], last);
    RemovedMembers(kept, last);
    assert Removed([last], last) == [];
  }

  /** What the larger cache keeps still restricts to what the smaller one keeps. */
  lemma RestKept(large: seq<Key>, rest: seq<Key>, kept: seq<Key>, last: Key, key: Key)
    requires Only(large, SetOf(kept)) == kept && Only(large, SetOf(kept) + {last}) == kept + [last]
    requires key !in kept && last !in kept
    requires rest == Removed(large, key) || (large != [] && rest == large[..|large| - 1])
    ensures Only(rest, SetOf(kept)) == kept
  {
    if rest == Removed(large, key) {
      OnlyRemoved(large, SetOf(kept), key);
      RemovedMembers(kept, key);
    } else {
      OnlyLast(large, SetOf(kept));
      OnlyLast(large, SetOf(kept) + {last});
      assert (kept + [last])[|kept|] == last;
    }
  }

  lemma RelatedStep<V>(small: Cache<V>, large: Cache<V>, call: Call<V>)
    requires !small.session && !large.session && small.capacity <= large.capacity
    requires Related(Keys(small.items), Keys(large.items), small.capacity)
    ensures Related(Keys(After(small, call).items), Keys(After(large, call).items), small.capacity)
  {
    var s, l, key := Keys(small.items), Keys(large.items), call.key;
    KeysAfter(small, call);
    KeysAfter(large, call);
    if key in s {
      RelatedFront(s, l, key, small.capacity);
    } else if call.Get? {
      if key in l { RelatedMiss(s, l, key, small.capacity); }
    } else if s == l && |s| <= small.capacity {
      OnlySelf([key] + s, SetOf([key] + s));
    } else {
      var rest := KeysStep(large, call)[1..];
      if s == l && |l| <= large.capacity {
        RelatedFull(s, l, key, small.capacity);
      } else if key in l || large.capacity < |l| {
        assert KeysStep(large, call) == [key] + rest;
        RelatedEvict(s, l, rest, key, small.capacity);
      } else {
        RelatedFull(s, l, key, small.capacity);
      }
    }
  }

  /** The larger cache still has room for a key neither holds. */
  lemma RelatedFull(small: seq<Key>, large: seq<Key>, key: Key, capacity: nat)
    requires Related(small, large, capacity) && |small| == capacity + 1 && key !in large && key !in small
    ensures Related([key] + small[..|small| - 1], [key] + large, capacity)
  {
    StepDistinct(large, key, capacity);
    RemovedMembers(large, key);
    RelatedEvict(small, large, large, key, capacity);
  }

  /** Main result: for the same calls, the keys of the cache with the smaller capacity are always those of
      the larger one that it has kept, in the same order. */
  lemma {:induction false} Inclusion<V>(smaller: nat, larger: nat, calls: seq<Call<V>>)
    requires smaller <= larger
    ensures Related(Keys(Run(smaller, false, calls).items), Keys(Run(larger, false, calls).items), smaller)
  {
    RunBounded(smaller, false, calls);
    RunBounded(larger, false, calls);
    if calls != [] {
      var before := calls[..|calls| - 1];
      Inclusion(smaller, larger, before);
      RunBounded(smaller, false, before);
      RunBounded(larger, false, before);
      RelatedStep(Run(smaller, false, before), Run(larger, false, before), calls[|calls| - 1]);
    }
  }

  /** Raising the capacity never turns a hit into a miss, nor changes what it returns. */
  lemma HitsMonotonic<V>(smaller: nat, larger: nat, calls: seq<Call<V>>, key: Key)
    requires smaller <= larger && Find(Run(smaller, false, calls).items, key).Some?
    ensures Find(Run(larger, false, calls).items, key) == Find(Run(smaller, false, calls).items, key)
  {
    var s, l := Run(smaller, false, calls).items, Run(larger, false, calls).items;
    Inclusion(smaller, larger, calls);
    OnlyMembers(Keys(l), SetOf(Keys(s)));
    FindIsKey(s, key);
    FindIsKey(l, key);
    HitIsLastSet(smaller, false, calls, key);
    HitIsLastSet(larger, false, calls, key);
  }
}
