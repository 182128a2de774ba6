/** The indices of a multi-axis reduction (auto_schedule/python/reduction_compute.py). */
module TupleReduce {
  import opened Wrappers
  import opened Sums

  // ---- The axes ----

  function InsertAxis(a: int, axes: seq<int>): seq<int> {
    if axes == [] || a <= axes[0] then [a] + axes else [axes[0]] + InsertAxis(a, axes[1..])
  }

  function SortAxes(axes: seq<int>): seq<int> {
    if axes == [] then [] else InsertAxis(axes[0], SortAxes(axes[1..]))
  }

  predicate Ascending(axes: seq<int>) {
    forall i, j :: 0 <= i < j < |axes| ==> axes[i] <= axes[j]
  }

  lemma AscendingFrom(a: int, axes: seq<int>)
    requires Ascending(axes) && forall j :: 0 <= j < |axes| ==> a <= axes[j]
    ensures Ascending([a] + axes)
  {
  }

  lemma {:induction false} InsertElements(a: int, axes: seq<int>)
    ensures multiset(InsertAxis(a, axes)) == multiset(axes) + multiset{a}
  {
    if axes != [] && a > axes[0] {
      InsertElements(a, axes[1..]);
      assert axes == [axes[0]] + axes[1..];
    }
  }

  lemma InsertMembers(a: int, axes: seq<int>)
    ensures forall j :: 0 <= j < |InsertAxis(a, axes)| ==> InsertAxis(a, axes)[j] == a || InsertAxis(a, axes)[j] in axes
  {
    InsertElements(a, axes);
    var all := InsertAxis(a, axes);
    forall j | 0 <= j < |all| ensures all[j] == a || all[j] in axes { assert all[j] in multiset(all); }
  }

  lemma {:induction false} InsertFacts(a: int, axes: seq<int>)
    requires Ascending(axes)
    ensures Ascending(InsertAxis(a, axes)) && multiset(InsertAxis(a, axes)) == multiset(axes) + multiset{a}
  {
    InsertElements(a, axes);
    if axes == [] || a <= axes[0] {
      AscendingFrom(a, axes);
    } else {
      InsertFacts(a, axes[1..]);
      InsertMembers(a, axes[1..]);
      AscendingFrom(axes[0], InsertAxis(a, axes[1..]));
    }
  }

  lemma {:induction false} SortFacts(axes: seq<int>)
    ensures Ascending(SortAxes(axes)) && multiset(SortAxes(axes)) == multiset(axes)
  {
    if axes != [] {
      SortFacts(axes[1..]);
      InsertFacts(axes[0], SortAxes(axes[1..]));
      assert axes == [axes[0]] + axes[1..];
    }
  }

  /** Every position stands here as often as the axes name it, from the front or from the end; nothing else does. */
  ghost predicate Named(res: seq<int>, axes: seq<int>, rank: nat) {
    && (forall i :: 0 <= i < |res| ==> 0 <= res[i] < rank)
    && forall a {:trigger multiset(res)[a]} :: 0 <= a < rank ==>
         multiset(res)[a] == multiset(axes)[a] + multiset(axes)[a - rank]
  }

  lemma NamedMore(res: seq<int>, axes: seq<int>, rank: nat, axis: int, laxis: int)
    requires Named(res, axes, rank) && 0 <= laxis < rank && laxis == if axis < 0 then rank + axis else axis
    ensures Named(res + [laxis], axes + [axis], rank)
  {
    assert axis == laxis || axis == laxis - rank;
  }

  lemma NamedSorted(res: seq<int>, axes: seq<int>, rank: nat)
    requires Named(res, axes, rank)
    ensures Named(SortAxes(res), axes, rank) && Ascending(SortAxes(res))
  {
    SortFacts(res);
    var sorted := SortAxes(res);
    forall i | 0 <= i < |sorted| ensures 0 <= sorted[i] < rank { assert sorted[i] in multiset(res); }
  }

  lemma {:induction false} AllNamed(res: seq<int>, axes: seq<int>, rank: nat)
    requires |res| == |axes|
    requires forall j :: 0 <= j < |res| ==>
      0 <= res[j] < rank && res[j] == if axes[j] < 0 then rank + axes[j] else axes[j]
    ensures Named(res, axes, rank)
  {
    if axes == [] {
      assert res == [];
    } else {
      var n := |axes| - 1;
      AllNamed(res[..n], axes[..n], rank);
      NamedMore(res[..n], axes[..n], rank, axes[n], res[n]);
      LastOff(res);
      LastOff(axes);
    }
  }

  /** `refine_axis`: every position as often as it is named, from the front or, by a negative axis, from the end; in
      order; or an error, exactly if some axis is out of range. */
  method RefineAxis(axes: seq<int>, rank: nat) returns (refined: Option<seq<int>>)
    ensures refined.Some? <==> forall i :: 0 <= i < |axes| ==> 0 - rank <= axes[i] < rank
    ensures refined.Some? ==> forall i :: 0 <= i < |refined.value| ==> 0 <= refined.value[i] < rank
    ensures refined.Some? ==> forall i, j :: 0 <= i < j < |refined.value| ==> refined.value[i] <= refined.value[j]
    ensures refined.Some? ==> forall a {:trigger multiset(refined.value)[a]} :: 0 <= a < rank ==>
      multiset(refined.value)[a] == multiset(axes)[a] + multiset(axes)[a - rank]
  {
    var res: seq<int> := [];
    for i := 0 to |axes|
      invariant |res| == i && forall j :: 0 <= j < i ==>
        0 <= res[j] < rank && res[j] == if axes[j] < 0 then rank + axes[j] else axes[j]
    {
      var laxis := if axes[i] < 0 then rank + axes[i] else axes[i];
      if laxis >= rank || laxis < 0 { return None; }
      res := res + [laxis];
    }
    AllNamed(res, axes, rank);
    NamedSorted(res, axes, rank);
    refined := Some(SortAxes(res));
  }

  // ---- Indices ----

  /** How many of the first `n` positions are reduced. */
  function Below(axis: seq<int>, n: nat): (c: nat)
    ensures c <= n
  {
    if n == 0 then 0 else Below(axis, n - 1) + if n - 1 in axis then 1 else 0
  }

  /** What is left of an index or a shape over the first |x| positions when the reduced ones are dropped. */
  function Kept(axis: seq<int>, x: seq<int>): (o: seq<int>)
    ensures |o| == |x| - Below(axis, |x|)
    decreases |x|
  {
    if x == [] then []
    else Kept(axis, x[..|x| - 1]) + if |x| - 1 in axis then [] else [x[|x| - 1]]
  }

  /** And what is dropped. */
  function Dropped(axis: seq<int>, x: seq<int>): (k: seq<int>)
    ensures |k| == Below(axis, |x|)
    decreases |x|
  {
    if x == [] then []
    else Dropped(axis, x[..|x| - 1]) + if |x| - 1 in axis then [x[|x| - 1]] else []
  }

  /** The index put together again from the two. */
  function Rebuild(axis: seq<int>, n: nat, o: seq<int>, k: seq<int>): (x: seq<int>)
    requires |o| == n - Below(axis, n) && |k| == Below(axis, n)
    ensures |x| == n
  {
    if n == 0 then []
    else if n - 1 in axis then Rebuild(axis, n - 1, o, k[..|k| - 1]) + [k[|k| - 1]]
    else Rebuild(axis, n - 1, o[..|o| - 1], k) + [o[|o| - 1]]
  }

  lemma KeptMore(axis: seq<int>, x: seq<int>, v: int)
    ensures |x| in axis ==> Kept(axis, x + [v]) == Kept(axis, x) && Dropped(axis, x + [v]) == Dropped(axis, x) + [v]
    ensures |x| !in axis ==> Kept(axis, x + [v]) == Kept(axis, x) + [v] && Dropped(axis, x + [v]) == Dropped(axis, x)
  {
    assert (x + [v])[..|x|] == x;
  }

  /** Rebuilding one position more. */
  lemma RebuildMore(axis: seq<int>, n: nat, o: seq<int>, k: seq<int>, v: int)
    requires |o| == n - Below(axis, n) && |k| == Below(axis, n)
    ensures n in axis ==>
      Below(axis, n + 1) == |k| + 1 && Rebuild(axis, n + 1, o, k + [v]) == Rebuild(axis, n, o, k) + [v]
    ensures n !in axis ==> Below(axis, n + 1) == |k| && Rebuild(axis, n + 1, o + [v], k) == Rebuild(axis, n, o, k) + [v]
  {
    assert (o + [v])[..|o|] == o && (k + [v])[..|k|] == k;
  }

  lemma LastOff(x: seq<int>)
    requires x != []
    ensures x == x[..|x| - 1] + [x[|x| - 1]]
  {
  }

  /** What is put together comes apart again. */
  predicate Splits(axis: seq<int>, n: nat, o: seq<int>, k: seq<int>)
    requires |o| == n - Below(axis, n) && |k| == Below(axis, n)
  {
    Kept(axis, Rebuild(axis, n, o, k)) == o && Dropped(axis, Rebuild(axis, n, o, k)) == k
  }

  /** One position more, put together and taken apart. */
  lemma SplitsMore(axis: seq<int>, n: nat, o: seq<int>, k: seq<int>, x: seq<int>, v: int)
    requires |o| == n - Below(axis, n) && |k| == Below(axis, n)
    requires x == Rebuild(axis, n, o, k) && Splits(axis, n, o, k)
    ensures n in axis ==> Below(axis, n + 1) == |k| + 1 && Splits(axis, n + 1, o, k + [v])
    ensures n !in axis ==> Below(axis, n + 1) == |k| && Splits(axis, n + 1, o + [v], k)
  {
    RebuildMore(axis, n, o, k, v);
    KeptMore(axis, x, v);
  }

  /** Taking apart after putting together. */
  lemma {:induction false} RebuildSplits(axis: seq<int>, n: nat, o: seq<int>, k: seq<int>)
    requires |o| == n - Below(axis, n) && |k| == Below(axis, n)
    ensures Splits(axis, n, o, k)
    decreases n, 0
  {
    if n == 0 {
      assert o == [] && k == [];
    } else if n - 1 in axis {
      DroppedSplits(axis, n - 1, o, k[..|k| - 1], k[|k| - 1], k);
    } else {
      KeptSplits(axis, n - 1, o[..|o| - 1], k, o[|o| - 1], o);
    }
  }

  lemma {:induction false} DroppedSplits(axis: seq<int>, n: nat, o: seq<int>, k: seq<int>, v: int, all: seq<int>)
    requires |o| == n - Below(axis, n) && |k| == Below(axis, n) && n in axis && all == k + [v]
    ensures |o| == n + 1 - Below(axis, n + 1) && |all| == Below(axis, n + 1) && Splits(axis, n + 1, o, all)
    decreases n, 1
  {
    RebuildSplits(axis, n, o, k);
    SplitsMore(axis, n, o, k, Rebuild(axis, n, o, k), v);
  }

  lemma {:induction false} KeptSplits(axis: seq<int>, n: nat, o: seq<int>, k: seq<int>, v: int, all: seq<int>)
    requires |o| == n - Below(axis, n) && |k| == Below(axis, n) && n !in axis && all == o + [v]
    ensures |all| == n + 1 - Below(axis, n + 1) && |k| == Below(axis, n + 1) && Splits(axis, n + 1, all, k)
    decreases n, 1
  {
    RebuildSplits(axis, n, o, k);
    SplitsMore(axis, n, o, k, Rebuild(axis, n, o, k), v);
  }

  /** Putting together after taking apart. */
  lemma {:induction false} SplitRebuilds(axis: seq<int>, x: seq<int>)
    ensures Rebuild(axis, |x|, Kept(axis, x), Dropped(axis, x)) == x
    decreases |x|
  {
    if x != [] {
      var init, v := x[..|x| - 1], x[|x| - 1];
      SplitRebuilds(axis, init);
      LastOff(x);
      KeptMore(axis, init, v);
      RebuildMore(axis, |init|, Kept(axis, init), Dropped(axis, init), v);
    }
  }

  /** The parts are within the parts of the shape exactly if the whole is within the shape. */
  lemma {:induction false} SplitWithin(axis: seq<int>, x: seq<int>, shape: seq<int>)
    requires |x| == |shape|
    ensures Within(x, shape) <==>
      Within(Kept(axis, x), Kept(axis, shape)) && Within(Dropped(axis, x), Dropped(axis, shape))
    decreases |x|
  {
    if x != [] {
      var n := |x| - 1;
      SplitWithin(axis, x[..n], shape[..n]);
      assert x == x[..n] + [x[n]] && shape == shape[..n] + [shape[n]];
      WithinMore(x[..n], x[n], shape[..n], shape[n]);
      WithinMore(Kept(axis, x[..n]), x[n], Kept(axis, shape[..n]), shape[n]);
      WithinMore(Dropped(axis, x[..n]), x[n], Dropped(axis, shape[..n]), shape[n]);
      KeptMore(axis, x[..n], x[n]);
      KeptMore(axis, shape[..n], shape[n]);
    }
  }

  lemma WithinMore(x: seq<int>, v: int, shape: seq<int>, s: int)
    ensures Within(x + [v], shape + [s]) <==> Within(x, shape) && 0 <= v < s
  {
    if Within(x + [v], shape + [s]) {
      assert forall j :: 0 <= j < |x| ==> (x + [v])[j] == x[j] && (shape + [s])[j] == shape[j];
      assert (x + [v])[|x|] == v && (shape + [s])[|x|] == s;
    }
  }

  /** Main result: output index and reduce index together name every input position exactly once. */
  lemma IndexBijection(axis: seq<int>, shape: seq<int>)
    ensures forall o, k :: Within(o, Kept(axis, shape)) && Within(k, Dropped(axis, shape)) ==>
      var x := Rebuild(axis, |shape|, o, k); Within(x, shape) && Kept(axis, x) == o && Dropped(axis, x) == k
    ensures forall x :: Within(x, shape) ==>
      Within(Kept(axis, x), Kept(axis, shape)) && Within(Dropped(axis, x), Dropped(axis, shape)) &&
      Rebuild(axis, |shape|, Kept(axis, x), Dropped(axis, x)) == x
  {
    forall o, k | Within(o, Kept(axis, shape)) && Within(k, Dropped(axis, shape))
      ensures var x := Rebuild(axis, |shape|, o, k); Within(x, shape) && Kept(axis, x) == o && Dropped(axis, x) == k
    {
      RebuildSplits(axis, |shape|, o, k);
      SplitWithin(axis, Rebuild(axis, |shape|, o, k), shape);
    }
    forall x | Within(x, shape)
      ensures Within(Kept(axis, x), Kept(axis, shape)) && Within(Dropped(axis, x), Dropped(axis, shape))
      ensures Rebuild(axis, |shape|, Kept(axis, x), Dropped(axis, x)) == x
    {
      SplitRebuilds(axis, x);
      SplitWithin(axis, x, shape);
    }
  }

  // ---- The computation ----

  /** The ranges of the reduce axes, one for each entry of `axis`. */
  function ReduceDims(axis: seq<int>, shape: seq<int>): (dims: seq<int>)
    requires Inside(axis, |shape|)
    ensures |dims| == |axis|
  {
    seq(|axis|, t requires 0 <= t < |axis| => shape[axis[t]])
  }

  predicate Inside(axis: seq<int>, rank: nat) {
    forall i :: 0 <= i < |axis| ==> 0 <= axis[i] < rank
  }

  predicate Distinct(axis: seq<int>) {
    forall i, j :: 0 <= i < j < |axis| ==> axis[i] < axis[j]
  }

  function BelowSet(axis: seq<int>, n: nat): set<int> {
    set a | a in axis && 0 <= a < n
  }

  lemma BelowSetMore(axis: seq<int>, n: nat)
    ensures n in axis ==> BelowSet(axis, n + 1) == BelowSet(axis, n) + {n}
    ensures n !in axis ==> BelowSet(axis, n + 1) == BelowSet(axis, n)
    ensures n !in BelowSet(axis, n)
  {
  }

  lemma {:induction false} BelowIsSize(axis: seq<int>, n: nat)
    ensures Below(axis, n) == |BelowSet(axis, n)|
  {
    if n > 0 {
      BelowIsSize(axis, n - 1);
      BelowSetMore(axis, n - 1);
    }
  }

  /** The number of reduced positions before `n`. */
  ghost function ReducedBefore(axis: seq<int>, n: nat): nat {
    var reduced := set a | 0 <= a < n && a in axis;
    |reduced|
  }

  lemma BelowIsBefore(axis: seq<int>, n: nat)
    ensures Below(axis, n) == ReducedBefore(axis, n)
  {
    BelowIsSize(axis, n);
    assert BelowSet(axis, n) == set a | 0 <= a < n && a in axis;
  }

  lemma {:induction false} SetOfSeq(axis: seq<int>)
    ensures |set a | a in axis| <= |axis|
  {
    if axis != [] {
      SetOfSeq(axis[1..]);
      assert axis == [axis[0]] + axis[1..];
      assert (set a | a in axis) == (set a | a in axis[1..]) + {axis[0]};
    } else {
      assert (set a | a in axis) == {};
    }
  }

  lemma BelowAtMost(axis: seq<int>, rank: nat)
    requires Inside(axis, rank)
    ensures Below(axis, rank) <= |axis|
  {
    BelowIsSize(axis, rank);
    SetOfSeq(axis);
    assert BelowSet(axis, rank) == set a | a in axis;
  }

  /** The shape with length 1 at the reduced positions. */
  function KeepShape(axis: seq<int>, shape: seq<int>): seq<int> {
    seq(|shape|, j requires 0 <= j < |shape| => if j in axis then 1 else shape[j])
  }

  lemma {:induction false} KeepShapeParts(axis: seq<int>, shape: seq<int>)
    ensures Kept(axis, KeepShape(axis, shape)) == Kept(axis, shape)
    ensures Dropped(axis, KeepShape(axis, shape)) == seq(Below(axis, |shape|), j => 1)
    decreases |shape|
  {
    if shape != [] {
      var n := |shape| - 1;
      KeepShapeParts(axis, shape[..n]);
      assert KeepShape(axis, shape) == KeepShape(axis, shape[..n]) + [if n in axis then 1 else shape[n]];
      KeptMore(axis, KeepShape(axis, shape[..n]), if n in axis then 1 else shape[n]);
    }
  }

  function Zeros(n: nat): seq<int> { seq(n, t => 0) }

  lemma WithinOnes(k: seq<int>, n: nat)
    ensures Within(k, seq(n, j => 1)) <==> k == Zeros(n)
  {
    if Within(k, seq(n, j => 1)) { assert forall j :: 0 <= j < n ==> k[j] == 0; }
  }

  lemma KeptIndices(axis: seq<int>, shape: seq<int>, j: seq<int>)
    requires |j| == |shape|
    ensures Within(j, KeepShape(axis, shape)) <==>
      Within(Kept(axis, j), Kept(axis, shape)) && Dropped(axis, j) == Zeros(Below(axis, |shape|))
  {
    KeepShapeParts(axis, shape);
    SplitWithin(axis, j, KeepShape(axis, shape));
    WithinOnes(Dropped(axis, j), Below(axis, |shape|));
  }

  /** With and without keepdims there are the same output cells: to each `o` there is exactly one index `j`
      into the kept shape, the one with 0 at the reduced positions. */
  lemma KeepdimsSame(axis: seq<int>, shape: seq<int>, o: seq<int>, j: seq<int>)
    requires Within(o, Kept(axis, shape))
    ensures Within(j, KeepShape(axis, shape)) && Kept(axis, j) == o <==>
      j == Rebuild(axis, |shape|, o, Zeros(Below(axis, |shape|)))
  {
    RebuildSplits(axis, |shape|, o, Zeros(Below(axis, |shape|)));
    if |j| == |shape| {
      KeptIndices(axis, shape, j);
      SplitRebuilds(axis, j);
    }
  }

  /** The dimensions that the loop of `ResReshape` collects. */
  function ShapeOf(axis: seq<int>, shape: seq<int>, keepdims: bool): seq<int> {
    if keepdims then KeepShape(axis, shape) else Kept(axis, shape)
  }

  lemma ShapeMore(axis: seq<int>, shape: seq<int>, keepdims: bool, v: int)
    ensures ShapeOf(axis, shape + [v], keepdims) == ShapeOf(axis, shape, keepdims) +
      if |shape| !in axis then [v] else if keepdims then [1] else []
  {
    if !keepdims { KeptMore(axis, shape, v); }
  }

  /** The shape of the result: with keepdims 1 at the reduced positions; without, the lengths of the others, each as far
      in front as there are reduced positions before it; and [1] instead of no length at all. */
  method ResReshape(axis: seq<int>, shape: seq<int>, keepdims: bool) returns (res: seq<int>)
    ensures res == if ShapeOf(axis, shape, keepdims) == [] then [1] else ShapeOf(axis, shape, keepdims)
    ensures keepdims && shape != [] ==>
      |res| == |shape| && forall j :: 0 <= j < |shape| ==> res[j] == if j in axis then 1 else shape[j]
    ensures var kept := |shape| - if keepdims then 0 else ReducedBefore(axis, |shape|);
      if kept == 0 then res == [1] else |res| == kept
    ensures !keepdims ==> forall j :: 0 <= j < |shape| && j !in axis ==>
      var p := j - ReducedBefore(axis, j); 0 <= p < |res| && res[p] == shape[j]
  {
    res := [];
    for j := 0 to |shape|
      invariant res == ShapeOf(axis, shape[..j], keepdims)
    {
      ShapeMore(axis, shape[..j], keepdims, shape[j]);
      assert shape[..j + 1] == shape[..j] + [shape[j]];
      if j !in axis {
        res := res + [shape[j]];
      } else if keepdims {
        res := res + [1];
      }
    }
    assert shape[..|shape|] == shape;
    if res == [] { res := [1]; }
    BelowIsBefore(axis, |shape|);
    if !keepdims { KeptLengths(axis, shape); }
  }

  lemma KeptLengths(axis: seq<int>, shape: seq<int>)
    ensures forall j :: 0 <= j < |shape| && j !in axis ==>
      var p := j - ReducedBefore(axis, j); 0 <= p < |Kept(axis, shape)| && Kept(axis, shape)[p] == shape[j]
  {
    forall j | 0 <= j < |shape| && j !in axis
      ensures var p := j - ReducedBefore(axis, j);
        0 <= p < |Kept(axis, shape)| && Kept(axis, shape)[p] == shape[j]
    {
      BelowIsBefore(axis, j);
      KeptAt(axis, shape, j);
    }
  }

  /** The output index without the positions that keepdims keeps (or that stand for a full reduction). */
  function Position(axis: seq<int>, rank: nat, keepdims: bool, indice: seq<int>): seq<int> {
    if keepdims then Kept(axis, indice) else if Below(axis, rank) == rank then [] else indice
  }

  lemma {:induction false} BelowGrows(axis: seq<int>, a: nat, b: nat)
    requires a <= b
    ensures Below(axis, a) <= Below(axis, b) <= Below(axis, a) + b - a
  {
    if a < b { BelowGrows(axis, a, b - 1); }
  }

  lemma {:induction false} KeptAt(axis: seq<int>, x: seq<int>, j: nat)
    requires j < |x| && j !in axis
    ensures j - Below(axis, j) < |Kept(axis, x)| && Kept(axis, x)[j - Below(axis, j)] == x[j]
    decreases |x|
  {
    var n := |x| - 1;
    if j < n { KeptAt(axis, x[..n], j); }
  }

  /** What the loop has put together after `index` positions. */
  ghost predicate Built(axis: seq<int>, o: seq<int>, k: seq<int>, index: nat, res: seq<int>) {
    && Below(axis, index) <= |k| && index - Below(axis, index) <= |o|
    && res == Rebuild(axis, index, o[..index - Below(axis, index)], k[..Below(axis, index)])
  }

  lemma BuildReduced(axis: seq<int>, o: seq<int>, k: seq<int>, index: nat, res: seq<int>, b: nat)
    requires Built(axis, o, k, index, res) && index in axis && b == Below(axis, index) < |k|
    ensures Built(axis, o, k, index + 1, res + [k[b]])
  {
    var p, q := o[..index - b], k[..b];
    RebuildMore(axis, index, p, q, k[b]);
    assert k[..b + 1] == q + [k[b]];
    assert index + 1 - (b + 1) == index - b;
  }

  lemma RebuildKept(axis: seq<int>, n: nat, o: seq<int>, k: seq<int>, c: nat)
    requires n !in axis && c == n - Below(axis, n) && |k| == Below(axis, n) && c < |o|
    ensures Below(axis, n + 1) == |k| && Rebuild(axis, n + 1, o[..c + 1], k) == Rebuild(axis, n, o[..c], k) + [o[c]]
  {
    assert o[..c + 1] == o[..c] + [o[c]];
    RebuildMore(axis, n, o[..c], k, o[c]);
  }

  lemma BuildKept(axis: seq<int>, o: seq<int>, k: seq<int>, index: nat, res: seq<int>, b: nat)
    requires Built(axis, o, k, index, res) && index !in axis && b == Below(axis, index) && index - b < |o|
    ensures Built(axis, o, k, index + 1, res + [o[index - b]])
  {
    var c := index - b;
    RebuildKept(axis, index, o, k[..b], c);
    assert index + 1 - Below(axis, index + 1) == c + 1;
  }

  /** The output position that a kept position reads. */
  lemma KeptPosition(axis: seq<int>, rank: nat, keepdims: bool, indice: seq<int>, index: nat)
    requires index < rank && index !in axis
    requires |indice| == if keepdims then rank else if Below(axis, rank) == rank then 1 else rank - Below(axis, rank)
    ensures var o, c := Position(axis, rank, keepdims, indice), index - Below(axis, index);
      && c < |o| && (if keepdims then index else c) < |indice|
      && o[c] == indice[if keepdims then index else c]
  {
    BelowGrows(axis, index + 1, rank);
    if keepdims { KeptAt(axis, indice, index); }
  }

  /** What stands at a position that is put together. */
  lemma {:induction false} RebuildAt(axis: seq<int>, n: nat, o: seq<int>, k: seq<int>, p: nat)
    requires |o| == n - Below(axis, n) && |k| == Below(axis, n) && p < n
    ensures var b := Below(axis, p);
      if p in axis then b < |k| && Rebuild(axis, n, o, k)[p] == k[b]
      else p - b < |o| && Rebuild(axis, n, o, k)[p] == o[p - b]
  {
    if p < n - 1 {
      if n - 1 in axis {
        RebuildAt(axis, n - 1, o, k[..|k| - 1], p);
      } else {
        RebuildAt(axis, n - 1, o[..|o| - 1], k, p);
      }
    }
  }

  lemma ReadsAt(axis: seq<int>, rank: nat, keepdims: bool, indice: seq<int>, reduceAxises: seq<int>, p: nat)
    requires Below(axis, rank) <= |reduceAxises| && p < rank
    requires |indice| == if keepdims then rank else if Below(axis, rank) == rank then 1 else rank - Below(axis, rank)
    ensures var b := ReducedBefore(axis, p);
      var res := Rebuild(axis, rank, Position(axis, rank, keepdims, indice), reduceAxises[..Below(axis, rank)]);
      if p in axis then b < |reduceAxises| && res[p] == reduceAxises[b]
      else var q := if keepdims then p else p - b; 0 <= q < |indice| && res[p] == indice[q]
  {
    BelowIsBefore(axis, p);
    RebuildAt(axis, rank, Position(axis, rank, keepdims, indice), reduceAxises[..Below(axis, rank)], p);
    if p !in axis { KeptPosition(axis, rank, keepdims, indice, p); }
  }

  /** Every reduced position has the reduce index of the reduced positions before it, every other one the output index
      at the same place, with keepdims, or as far in front as there are reduced positions before it. */
  ghost predicate ReadsFrom(axis: seq<int>, rank: nat, keepdims: bool, indice: seq<int>, reduceAxises: seq<int>,
                            res: seq<int>)
  {
    |res| == rank && forall p :: 0 <= p < rank ==>
      var b := ReducedBefore(axis, p);
      if p in axis then b < |reduceAxises| && res[p] == reduceAxises[b]
      else var q := if keepdims then p else p - b; 0 <= q < |indice| && res[p] == indice[q]
  }

  lemma ReadsEverywhere(axis: seq<int>, rank: nat, keepdims: bool, indice: seq<int>, reduceAxises: seq<int>)
    requires Below(axis, rank) <= |reduceAxises|
    requires |indice| == if keepdims then rank else if Below(axis, rank) == rank then 1 else rank - Below(axis, rank)
    ensures ReadsFrom(axis, rank, keepdims, indice, reduceAxises,
      Rebuild(axis, rank, Position(axis, rank, keepdims, indice), reduceAxises[..Below(axis, rank)]))
  {
    forall p | 0 <= p < rank { ReadsAt(axis, rank, keepdims, indice, reduceAxises, p); }
  }

  /** The loop of `ComputeFunc`. */
  method BuildIndex(axis: seq<int>, rank: nat, keepdims: bool, indice: seq<int>, reduceAxises: seq<int>)
    returns (res: seq<int>)
    requires Inside(axis, rank) && |reduceAxises| == |axis| && Below(axis, rank) <= |axis|
    requires |indice| == if keepdims then rank else if Below(axis, rank) == rank then 1 else rank - Below(axis, rank)
    ensures res == Rebuild(axis, rank, Position(axis, rank, keepdims, indice), reduceAxises[..Below(axis, rank)])
  {
    var countIndice, countReduce := 0, 0;
    ghost var o := Position(axis, rank, keepdims, indice);
    res := [];
    for index := 0 to rank
      invariant countReduce == Below(axis, index) &&
        countIndice == if keepdims then index else index - Below(axis, index)
      invariant Built(axis, o, reduceAxises, index, res)
    {
      BelowGrows(axis, index + 1, rank);
      if index !in axis {
        KeptPosition(axis, rank, keepdims, indice, index);
        BuildKept(axis, o, reduceAxises, index, res, Below(axis, index));
        res := res + [indice[countIndice]];
        countIndice := countIndice + 1;
      } else {
        BuildReduced(axis, o, reduceAxises, index, res, Below(axis, index));
        res := res + [reduceAxises[countReduce]];
        countReduce := countReduce + 1;
        if keepdims { countIndice := countIndice + 1; }
      }
    }
    assert o[..rank - Below(axis, rank)] == o;
  }

  /** `compute_func`: the index at which an output cell reads, for one value of the reduce axes. */
  method ComputeFunc(axis: seq<int>, rank: nat, keepdims: bool, indice: seq<int>, reduceAxises: seq<int>)
    returns (res: seq<int>)
    requires Inside(axis, rank) && |reduceAxises| == |axis| && Below(axis, rank) <= |axis|
    requires |indice| == if keepdims then rank else if Below(axis, rank) == rank then 1 else rank - Below(axis, rank)
    ensures res == Rebuild(axis, rank, Position(axis, rank, keepdims, indice), reduceAxises[..Below(axis, rank)])
    ensures ReadsFrom(axis, rank, keepdims, indice, reduceAxises, res)
  {
    res := BuildIndex(axis, rank, keepdims, indice, reduceAxises);
    ReadsEverywhere(axis, rank, keepdims, indice, reduceAxises);
  }
}
