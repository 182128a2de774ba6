/** Strings in code-point order, and what Python's `sorted` makes of a list of them. */
module NameOrder {

  type Name = string

  predicate Less(a: Name, b: Name) {
    b != [] && (a == [] || a[0] < b[0] || (a[0] == b[0] && Less(a[1..], b[1..])))
  }

  /** The first place where they differ decides, or the shorter one comes first. */
  ghost predicate FirstDifference(a: Name, b: Name, k: nat) {
    k <= |a| && k < |b| && (forall i :: 0 <= i < k ==> a[i] == b[i]) && (k == |a| || a[k] < b[k])
  }

  lemma {:induction false} LessExactly(a: Name, b: Name)
    ensures Less(a, b) <==> exists k :: FirstDifference(a, b, k)
  {
    if a == [] || b == [] || a[0] != b[0] {
      assert Less(a, b) <==> FirstDifference(a, b, 0);
    } else {
      var c, d := a[1..], b[1..];
      LessExactly(c, d);
      forall k: nat ensures FirstDifference(c, d, k) <==> FirstDifference(a, b, k + 1) {
        assert forall i :: 0 < i <= |c| ==> a[i] == c[i - 1];
        assert forall i :: 0 < i <= |d| ==> b[i] == d[i - 1];
      }
      if k: nat :| FirstDifference(a, b, k) { assert k > 0 && FirstDifference(c, d, k - 1); }
    }
  }

  lemma {:induction false} LessTotal(a: Name, b: Name)
    ensures Less(a, b) || a == b || Less(b, a)
    ensures !Less(a, a)
    ensures Less(a, b) ==> a != b && !Less(b, a)
  {
    if a != [] {
      LessTotal(a[1..], a[1..]);
      if b != [] {
        LessTotal(a[1..], b[1..]);
        if a[0] == b[0] && a[1..] == b[1..] { assert a == [a[0]] + a[1..] == b; }
      }
    }
  }

  lemma {:induction false} LessTransitive(a: Name, b: Name, c: Name)
    requires Less(a, b) && Less(b, c)
    ensures Less(a, c)
  {
    if a != [] && a[0] == b[0] && b[0] == c[0] { LessTransitive(a[1..], b[1..], c[1..]); }
  }

  predicate Ordered(xs: seq<Name>) {
    forall i, j :: 0 <= i < j < |xs| ==> !Less(xs[j], xs[i])
  }

  /** In order and without duplicates. */
  predicate Increasing(xs: seq<Name>) {
    forall i, j :: 0 <= i < j < |xs| ==> Less(xs[i], xs[j])
  }

  function Insert(x: Name, xs: seq<Name>): seq<Name> {
    if xs == [] || !Less(xs[0], x) then [x] + xs else [xs[0]] + Insert(x, xs[1..])
  }

  function Sorted(xs: seq<Name>): seq<Name> {
    if xs == [] then [] else Insert(xs[0], Sorted(xs[1..]))
  }

  lemma {:induction false} InsertFacts(x: Name, xs: seq<Name>)
    requires Ordered(xs)
    ensures Ordered(Insert(x, xs)) && multiset(Insert(x, xs)) == multiset(xs) + multiset{x}
  {
    if xs == [] || !Less(xs[0], x) {
      var ys := [x] + xs;
      forall i, j | 0 <= i < j < |ys|
        ensures !Less(ys[j], ys[i])
      {
        if i == 0 && 1 < j { HeadIsLeast(x, xs, j - 1); }
      }
    } else {
      var rest := Insert(x, xs[1..]);
      InsertFacts(x, xs[1..]);
      assert xs == [xs[0]] + xs[1..];
      forall j | 0 <= j < |rest|
        ensures !Less(rest[j], xs[0])
      {
        assert rest[j] in multiset(rest);
        if rest[j] == x {
          LessTotal(xs[0], x);
        } else {
          assert rest[j] in xs[1..];
        }
      }
    }
  }

  lemma HeadIsLeast(x: Name, xs: seq<Name>, k: nat)
    requires Ordered(xs) && xs != [] && !Less(xs[0], x) && k < |xs|
    ensures !Less(xs[k], x)
  {
    if Less(xs[k], x) {
      LessTotal(xs[0], xs[k]);
      if xs[0] != xs[k] { LessTransitive(xs[0], xs[k], x); }
    }
  }

  lemma {:induction false} SortedFacts(xs: seq<Name>)
    ensures Ordered(Sorted(xs)) && multiset(Sorted(xs)) == multiset(xs)
  {
    if xs != [] {
      SortedFacts(xs[1..]);
      InsertFacts(xs[0], Sorted(xs[1..]));
      assert xs == [xs[0]] + xs[1..];
    }
  }

  /** Two ordered lists of the same elements are the same list. */
  lemma {:induction false} OrderedUnique(xs: seq<Name>, ys: seq<Name>)
    requires Ordered(xs) && Ordered(ys) && multiset(xs) == multiset(ys)
    ensures xs == ys
  {
    assert |xs| == |multiset(xs)| == |multiset(ys)| == |ys|;
    if xs != [] {
      FirstAgrees(xs, ys);
      assert xs == [xs[0]] + xs[1..] && ys == [ys[0]] + ys[1..];
      assert multiset(xs[1..]) == multiset(xs) - multiset{xs[0]};
      assert multiset(ys[1..]) == multiset(ys) - multiset{ys[0]};
      OrderedUnique(xs[1..], ys[1..]);
    }
  }

  lemma FirstAgrees(xs: seq<Name>, ys: seq<Name>)
    requires Ordered(xs) && Ordered(ys) && multiset(xs) == multiset(ys) && xs != [] && ys != []
    ensures xs[0] == ys[0]
  {
    assert xs[0] in multiset(ys) && ys[0] in multiset(xs);
    var i :| 0 <= i < |ys| && ys[i] == xs[0];
    var j :| 0 <= j < |xs| && xs[j] == ys[0];
    LessTotal(xs[0], ys[0]);
  }

  /** `sorted` lists agree exactly if they have the same elements with the same multiplicities. */
  lemma SortedEqual(xs: seq<Name>, ys: seq<Name>)
    ensures Sorted(xs) == Sorted(ys) <==> multiset(xs) == multiset(ys)
  {
    SortedFacts(xs);
    SortedFacts(ys);
    if multiset(xs) == multiset(ys) { OrderedUnique(Sorted(xs), Sorted(ys)); }
  }

  predicate NoDuplicates(xs: seq<Name>) {
    forall i, j :: 0 <= i < j < |xs| ==> xs[i] != xs[j]
  }

  /** Sorting a list without duplicates gives a strictly increasing one. */
  lemma SortedIncreasing(xs: seq<Name>)
    requires NoDuplicates(xs)
    ensures Increasing(Sorted(xs))
    ensures forall x :: x in Sorted(xs) <==> x in xs
  {
    var ys := Sorted(xs);
    SortedFacts(xs);
    OnceEach(xs);
    forall x ensures x in ys <==> x in xs { assert x in multiset(ys) <==> x in multiset(xs); }
    forall i, j | 0 <= i < j < |ys|
      ensures Less(ys[i], ys[j])
    {
      LessTotal(ys[i], ys[j]);
      assert multiset(xs)[ys[i]] <= 1;
      if ys[i] == ys[j] { Twice(ys, i, j); }
    }
  }

  lemma {:induction false} OnceEach(xs: seq<Name>)
    requires NoDuplicates(xs)
    ensures forall x :: multiset(xs)[x] <= 1
  {
    if xs != [] {
      OnceEach(xs[1..]);
      assert xs == [xs[0]] + xs[1..];
      assert xs[0] !in xs[1..];
      assert multiset(xs[1..])[xs[0]] == 0;
    }
  }

  lemma Twice(ys: seq<Name>, i: nat, j: nat)
    requires i < j < |ys| && ys[i] == ys[j]
    ensures multiset(ys)[ys[i]] >= 2
  {
    assert ys == ys[..j] + [ys[j]] + ys[j + 1..];
    assert ys[i] in ys[..j];
    assert multiset(ys[..j])[ys[i]] >= 1;
  }
}
