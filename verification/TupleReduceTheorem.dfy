/** What a multi-axis sum computes, and exactly when. */
module TupleReduceTheorem {
  import opened Sums
  import opened TupleReduce

  /** What the reduction leaves in the output cell `o` of one input tensor. */
  ghost function Cell(axis: seq<int>, shape: seq<int>, x: Tensor, o: Index): real
    requires Inside(axis, |shape|) && |o| == |shape| - Below(axis, |shape|)
  {
    BelowAtMost(axis, |shape|);
    SumOver(ReduceDims(axis, shape), Reads(axis, |shape|, x, o))
  }

  /** What it sums over the reduce axes. */
  ghost function Reads(axis: seq<int>, rank: nat, x: Tensor, o: Index): Tensor
    requires |o| == rank - Below(axis, rank)
  {
    k => if |k| < Below(axis, rank) then 0.0 else x(Rebuild(axis, rank, o, k[..Below(axis, rank)]))
  }

  /** The entries that project to `o`. */
  ghost function Fibre(axis: seq<int>, x: Tensor, o: Index): Tensor {
    i => if Kept(axis, i) == o then x(i) else 0.0
  }

  /** Summing over the dropped positions only. */
  ghost function Dropping(axis: seq<int>, n: nat, x: Tensor, o: Index): Tensor
    requires |o| == n - Below(axis, n)
  {
    k => if |k| == Below(axis, n) then x(Rebuild(axis, n, o, k)) else 0.0
  }

  lemma DroppedMore(axis: seq<int>, shape: seq<int>)
    requires shape != []
    ensures var n := |shape| - 1; n in axis ==>
      Dropped(axis, shape) == Dropped(axis, shape[..n]) + [shape[n]] && Kept(axis, shape) == Kept(axis, shape[..n])
    ensures var n := |shape| - 1; n !in axis ==>
      Dropped(axis, shape) == Dropped(axis, shape[..n]) && Kept(axis, shape) == Kept(axis, shape[..n]) + [shape[n]]
  {
    LastOff(shape);
    KeptMore(axis, shape[..|shape| - 1], shape[|shape| - 1]);
  }

  lemma SumMore(dims: seq<int>, n: int, f: Tensor)
    ensures SumOver(dims + [n], f) == Range(n, v => SumOver(dims, At(f, v)))
  {
    assert (dims + [n])[..|dims|] == dims;
  }

  /** The sum over the dropped positions is the sum over all entries that project to the output cell. */
  lemma {:induction false} FibreSum(axis: seq<int>, shape: seq<int>, x: Tensor, o: Index)
    requires Within(o, Kept(axis, shape))
    ensures SumOver(Dropped(axis, shape), Dropping(axis, |shape|, x, o)) == SumOver(shape, Fibre(axis, x, o))
    decreases |shape|
  {
    var n := |shape| - 1;
    if shape == [] {
      assert o == [] && Rebuild(axis, 0, [], []) == [] && Below(axis, 0) == 0;
      assert Dropping(axis, 0, x, [])([]) == x([]) && Fibre(axis, x, [])([]) == x([]);
    } else if n in axis {
      FibreReduced(axis, shape, x, o, n);
    } else {
      FibreKept(axis, shape, x, o, n);
    }
  }

  lemma {:induction false} FibreReduced(axis: seq<int>, shape: seq<int>, x: Tensor, o: Index, n: nat)
    requires Within(o, Kept(axis, shape)) && |shape| == n + 1 && n in axis
    ensures SumOver(Dropped(axis, shape), Dropping(axis, n + 1, x, o)) == SumOver(shape, Fibre(axis, x, o))
    decreases |shape|, 0
  {
    var init, f, g := shape[..n], Dropping(axis, n + 1, x, o), Fibre(axis, x, o);
    DroppedMore(axis, shape);
    SumMore(Dropped(axis, init), shape[n], f);
    forall v | 0 <= v < shape[n]
      ensures SumOver(Dropped(axis, init), At(f, v)) == SumOver(init, At(g, v))
    {
      FibreSum(axis, init, At(x, v), o);
      forall k | Within(k, Dropped(axis, init)) ensures At(f, v)(k) == Dropping(axis, n, At(x, v), o)(k) {
        RebuildMore(axis, n, o, k, v);
      }
      SumSame(Dropped(axis, init), At(f, v), Dropping(axis, n, At(x, v), o));
      forall i | Within(i, init) ensures At(g, v)(i) == Fibre(axis, At(x, v), o)(i) { KeptMore(axis, i, v); }
      SumSame(init, At(g, v), Fibre(axis, At(x, v), o));
    }
    RangeSame(shape[n], v => SumOver(Dropped(axis, init), At(f, v)), v => SumOver(init, At(g, v)));
  }

  lemma {:induction false} FibreKept(axis: seq<int>, shape: seq<int>, x: Tensor, o: Index, n: nat)
    requires Within(o, Kept(axis, shape)) && |shape| == n + 1 && n !in axis
    ensures SumOver(Dropped(axis, shape), Dropping(axis, n + 1, x, o)) == SumOver(shape, Fibre(axis, x, o))
    decreases |shape|, 0
  {
    var init, f, g := shape[..n], Dropping(axis, n + 1, x, o), Fibre(axis, x, o);
    DroppedMore(axis, shape);
    var p, w := o[..|o| - 1], o[|o| - 1];
    LastOff(o);
    WithinMore(p, w, Kept(axis, init), shape[n]);
    FibreSum(axis, init, At(x, w), p);
    forall k | Within(k, Dropped(axis, init)) ensures f(k) == Dropping(axis, n, At(x, w), p)(k) {
      RebuildMore(axis, n, p, k, w);
    }
    SumSame(Dropped(axis, init), f, Dropping(axis, n, At(x, w), p));
    forall i, v | Within(i, init) ensures At(g, v)(i) == if v == w then Fibre(axis, At(x, w), p)(i) else 0.0 {
      KeptMore(axis, i, v);
      SameLast(Kept(axis, i), v, p, w);
    }
    SumSame(init, At(g, w), Fibre(axis, At(x, w), p));
    forall v | 0 <= v < shape[n] && v != w ensures SumOver(init, At(g, v)) == 0.0 { SumNone(init, At(g, v)); }
    RangeOne(shape[n], v => SumOver(init, At(g, v)), w);
  }

  lemma SameLast(a: Index, v: int, b: Index, w: int)
    ensures a + [v] == b + [w] <==> a == b && v == w
  {
    if a + [v] == b + [w] {
      assert (a + [v])[..|a|] == a && (b + [w])[..|b|] == b && (a + [v])[|a|] == v && (b + [w])[|b|] == w;
    }
  }

  /** The total of the output is the total of the input. */
  lemma {:induction false} TotalKept(axis: seq<int>, shape: seq<int>, x: Tensor)
    ensures SumOver(Kept(axis, shape), Outputs(axis, shape, x)) == SumOver(shape, x)
    decreases |shape|
  {
    var out := Kept(axis, shape);
    forall o | Within(o, out) ensures Outputs(axis, shape, x)(o) == SumOver(shape, Fibre(axis, x, o)) {
      FibreSum(axis, shape, x, o);
    }
    SumSame(out, Outputs(axis, shape, x), o => SumOver(shape, Fibre(axis, x, o)));
    AllFibres(axis, shape, x);
  }

  /** The output cells, each the sum over the dropped positions. */
  ghost function Outputs(axis: seq<int>, shape: seq<int>, x: Tensor): Tensor {
    o => if |o| == |Kept(axis, shape)| then SumOver(Dropped(axis, shape), Dropping(axis, |shape|, x, o)) else 0.0
  }

  lemma AllFibres(axis: seq<int>, shape: seq<int>, x: Tensor)
    ensures SumOver(Kept(axis, shape), o => SumOver(shape, Fibre(axis, x, o))) == SumOver(shape, x)
  {
    var out, f := Kept(axis, shape), (o: Index) => Fibre(axis, x, o);
    OuterInner(out, shape, f);
    SumSame(out, o => SumOver(shape, Fibre(axis, x, o)), o => SumOver(shape, f(o)));
    forall i | Within(i, shape) ensures SumOver(out, o => f(o)(i)) == x(i) {
      SplitWithin(axis, i, shape);
      OneIndex(out, Kept(axis, i), o => f(o)(i));
    }
    SumSame(shape, i => SumOver(out, o => f(o)(i)), x);
  }

  /** Sums over two shapes may be taken in either order. */
  lemma {:induction false} OuterInner(outer: seq<int>, inner: seq<int>, f: Index -> Tensor)
    ensures SumOver(outer, o => SumOver(inner, f(o))) == SumOver(inner, i => SumOver(outer, o => f(o)(i)))
  {
    if outer == [] {
      SumSame(inner, f([]), i => SumOver(outer, o => f(o)(i)));
    } else {
      var init, n := outer[..|outer| - 1], outer[|outer| - 1];
      var g: int -> Tensor := v => i => SumOver(init, At(o => f(o)(i), v));
      forall v | 0 <= v < n
        ensures SumOver(init, At(o => SumOver(inner, f(o)), v)) == SumOver(inner, g(v))
      {
        var fv: Index -> Tensor := o => f(o + [v]);
        OuterInner(init, inner, fv);
        SumSame(init, At(o => SumOver(inner, f(o)), v), o => SumOver(inner, fv(o)));
        forall i ensures g(v)(i) == SumOver(init, o => fv(o)(i)) { SumSame(init, At(o => f(o)(i), v), o => fv(o)(i)); }
        SumSame(inner, g(v), i => SumOver(init, o => fv(o)(i)));
      }
      RangeSame(n, v => SumOver(init, At(o => SumOver(inner, f(o)), v)), v => SumOver(inner, g(v)));
      SumsSwap(inner, n, g);
      forall i | Within(i, inner) ensures Range(n, v => g(v)(i)) == SumOver(outer, o => f(o)(i)) {
        RangeSame(n, v => g(v)(i), v => SumOver(init, At(o => f(o)(i), v)));
      }
      SumSame(inner, i => Range(n, v => g(v)(i)), i => SumOver(outer, o => f(o)(i)));
    }
  }

  /** A sum of which only one index contributes. */
  lemma {:induction false} OneIndex(dims: seq<int>, k: Index, f: Tensor)
    requires Within(k, dims) && forall i :: Within(i, dims) && i != k ==> f(i) == 0.0
    ensures SumOver(dims, f) == f(k)
  {
    if dims == [] {
      assert k == [];
    } else {
      var init, n := dims[..|dims| - 1], dims[|dims| - 1];
      var p, w := k[..|k| - 1], k[|k| - 1];
      LastOff(k);
      LastOff(dims);
      forall v | 0 <= v < n && v != w ensures SumOver(init, At(f, v)) == 0.0 {
        forall i | Within(i, init) ensures At(f, v)(i) == 0.0 { WithinMore(i, v, init, n); SameLast(i, v, p, w); }
        SumNone(init, At(f, v));
      }
      forall i | Within(i, init) && i != p ensures At(f, w)(i) == 0.0 {
        WithinMore(i, w, init, n);
        SameLast(i, w, p, w);
      }
      OneIndex(init, p, At(f, w));
      RangeOne(n, v => SumOver(init, At(f, v)), w);
    }
  }

  // ---- One output cell ----

  function Product(dims: seq<int>): int {
    if dims == [] then 1 else Times(Product(dims[..|dims| - 1]), dims[|dims| - 1])
  }

  function Times(a: int, b: int): int { a * b }

  /** `c` times `s`. */
  ghost function Scale(c: int, s: real): real { c as real * s }

  predicate Positive(dims: seq<int>) {
    forall j :: 0 <= j < |dims| ==> dims[j] > 0
  }

  lemma {:induction false} RangeConstant(n: int, f: int -> real, c: real)
    requires n >= 0 && forall v :: 0 <= v < n ==> f(v) == c
    ensures Range(n, f) == Scale(n, c)
  {
    if n > 0 {
      RangeConstant(n - 1, f, c);
      assert Scale(n, c) == Scale(n - 1, c) + c;
    }
  }

  /** A sum over axes that are never read repeats the sum over the others. */
  lemma {:induction false} UnreadAxes(dims: seq<int>, extra: seq<int>, f: Tensor, g: Tensor)
    requires Positive(extra) && forall k :: |k| >= |dims| ==> g(k) == f(k[..|dims|])
    ensures SumOver(dims + extra, g) == Scale(Product(extra), SumOver(dims, f))
  {
    if extra == [] {
      assert dims + extra == dims;
      forall k | Within(k, dims) ensures g(k) == f(k) { assert k[..|dims|] == k; }
      SumSame(dims, g, f);
    } else {
      var init, n := extra[..|extra| - 1], extra[|extra| - 1];
      LastOff(extra);
      assert dims + extra == (dims + init) + [n];
      SumMore(dims + init, n, g);
      var c := Scale(Product(init), SumOver(dims, f));
      forall v | 0 <= v < n ensures SumOver(dims + init, At(g, v)) == c {
        forall k | |k| >= |dims| ensures At(g, v)(k) == f(k[..|dims|]) { assert (k + [v])[..|dims|] == k[..|dims|]; }
        UnreadAxes(dims, init, f, At(g, v));
      }
      RangeConstant(n, v => SumOver(dims + init, At(g, v)), c);
      Reassociate(Product(init), n, SumOver(dims, f));
    }
  }

  lemma Reassociate(a: int, b: int, c: real)
    ensures Scale(b, Scale(a, c)) == Scale(Times(a, b), c)
  {
    assert (a * b) as real == a as real * b as real;
  }

  /** A sum of nothing negative with something positive in it is positive. */
  lemma {:induction false} SumPositive(dims: seq<int>, f: Tensor, k: Index)
    requires (forall i :: f(i) >= 0.0) && (Within(k, dims) ==> f(k) > 0.0)
    ensures SumOver(dims, f) >= 0.0 && (Within(k, dims) ==> SumOver(dims, f) > 0.0)
  {
    if dims == [] {
      assert Within(k, dims) ==> k == [];
    } else {
      var init, n := dims[..|dims| - 1], dims[|dims| - 1];
      var inside := Within(k, dims);
      var p, w := if inside then k[..|k| - 1] else [-1], if inside then k[|k| - 1] else -1;
      LastOff(dims);
      if inside { LastOff(k); WithinMore(p, w, init, n); }
      forall v | 0 <= v < n
        ensures SumOver(init, At(f, v)) >= 0.0 && (v == w ==> SumOver(init, At(f, v)) > 0.0)
      {
        if v == w { assert At(f, v)(p) == f(k); }
        SumPositive(init, At(f, v), if v == w then p else [-1]);
      }
      RangePositive(n, v => SumOver(init, At(f, v)), w);
    }
  }

  lemma {:induction false} RangePositive(n: int, f: int -> real, w: int)
    requires forall v :: 0 <= v < n ==> f(v) >= 0.0
    ensures Range(n, f) >= 0.0 && (0 <= w < n && f(w) > 0.0 ==> Range(n, f) > 0.0)
  {
    if n > 0 { RangePositive(n - 1, f, w); }
  }

  /** The reduce axes are the dropped positions, and any further ones have length 1. */
  predicate Fine(axis: seq<int>, shape: seq<int>)
    requires Inside(axis, |shape|)
  {
    var dims, m := ReduceDims(axis, shape), Below(axis, |shape|);
    m <= |dims| && dims[..m] == Dropped(axis, shape) && forall t :: m <= t < |dims| ==> dims[t] == 1
  }

  /** Every output cell is the sum of exactly the entries that project to it. */
  ghost predicate Right(axis: seq<int>, shape: seq<int>)
    requires Inside(axis, |shape|)
  {
    forall x: Tensor, o :: Within(o, Kept(axis, shape)) ==> Cell(axis, shape, x, o) == SumOver(shape, Fibre(axis, x, o))
  }

  lemma CellIs(axis: seq<int>, shape: seq<int>, x: Tensor, o: Index, m: nat)
    requires Inside(axis, |shape|) && Positive(shape) && Within(o, Kept(axis, shape)) &&
      m == Below(axis, |shape|) <= |axis|
    ensures Positive(ReduceDims(axis, shape))
    ensures Cell(axis, shape, x, o) ==
      Scale(Product(ReduceDims(axis, shape)[m..]), SumOver(ReduceDims(axis, shape)[..m], Dropping(axis, |shape|, x, o)))
  {
    var dims := ReduceDims(axis, shape);
    assert dims == dims[..m] + dims[m..];
    UnreadAxes(dims[..m], dims[m..], Dropping(axis, |shape|, x, o), Reads(axis, |shape|, x, o));
  }

  lemma {:induction false} ProductPositive(dims: seq<int>)
    requires Positive(dims)
    ensures Product(dims) >= 1 && (Product(dims) == 1 <==> forall j :: 0 <= j < |dims| ==> dims[j] == 1)
  {
    if dims != [] {
      ProductPositive(dims[..|dims| - 1]);
      LastOff(dims);
      MulOne(Product(dims[..|dims| - 1]), dims[|dims| - 1]);
    }
  }

  lemma MulOne(a: int, b: int)
    requires a >= 1 && b >= 1
    ensures Times(a, b) >= 1 && (Times(a, b) == 1 <==> a == 1 && b == 1)
  {
    if a >= 2 { assert a * b >= 2 * b; }
  }

  lemma FineIsRight(axis: seq<int>, shape: seq<int>, x: Tensor, o: Index)
    requires Inside(axis, |shape|) && Positive(shape) && Fine(axis, shape) && Within(o, Kept(axis, shape))
    ensures Cell(axis, shape, x, o) == SumOver(shape, Fibre(axis, x, o))
  {
    var m := Below(axis, |shape|);
    CellIs(axis, shape, x, o, m);
    var rest := ReduceDims(axis, shape)[m..];
    ProductPositive(rest);
    assert Product(rest) == 1;
    assert forall s :: Scale(1, s) == s;
    FibreSum(axis, shape, x, o);
  }

  /** One where position `t` of the dropped ones is `least` or more. */
  ghost function Marker(axis: seq<int>, t: nat, least: int): Tensor {
    i => if t < |Dropped(axis, i)| && Dropped(axis, i)[t] >= least then 1.0 else 0.0
  }

  /** The last index within `dims`. */
  function Last(dims: seq<int>): (k: Index)
    requires Positive(dims)
    ensures Within(k, dims)
  {
    seq(|dims|, j requires 0 <= j < |dims| => dims[j] - 1)
  }

  lemma MarkerSum(axis: seq<int>, n: nat, dims: seq<int>, o: Index, t: nat, least: int)
    requires |o| == n - Below(axis, n) && |dims| == Below(axis, n) && t < |dims| && Positive(dims)
    ensures dims[t] <= least ==> SumOver(dims, Dropping(axis, n, Marker(axis, t, least), o)) == 0.0
    ensures dims[t] > least ==> SumOver(dims, Dropping(axis, n, Marker(axis, t, least), o)) > 0.0
  {
    var f := Dropping(axis, n, Marker(axis, t, least), o);
    forall k | |k| == |dims| ensures f(k) == if k[t] >= least then 1.0 else 0.0 { RebuildSplits(axis, n, o, k); }
    if dims[t] <= least { SumNone(dims, f); } else { SumPositive(dims, f, Last(dims)); }
  }

  const ONES: Tensor := i => 1.0

  lemma AllOnesSum(axis: seq<int>, n: nat, dims: seq<int>, o: Index)
    requires |o| == n - Below(axis, n) && |dims| == Below(axis, n) && Positive(dims)
    ensures SumOver(dims, Dropping(axis, n, ONES, o)) > 0.0
  {
    SumPositive(dims, Dropping(axis, n, ONES, o), Last(dims));
  }

  lemma {:induction false} PartsPositive(axis: seq<int>, shape: seq<int>)
    requires Positive(shape)
    ensures Positive(Kept(axis, shape)) && Positive(Dropped(axis, shape))
    decreases |shape|
  {
    if shape != [] {
      PartsPositive(axis, shape[..|shape| - 1]);
      DroppedMore(axis, shape);
    }
  }

  /** A reduce axis that has not the length of the position it stands for. */
  lemma WrongRange(axis: seq<int>, shape: seq<int>, o: Index, m: nat, t: nat)
    requires Inside(axis, |shape|) && Positive(shape) && Within(o, Kept(axis, shape)) &&
      m == Below(axis, |shape|) <= |axis| && t < m
    requires ReduceDims(axis, shape)[t] != Dropped(axis, shape)[t]
    ensures !Right(axis, shape)
  {
    var a, b, d := ReduceDims(axis, shape)[..m], ReduceDims(axis, shape)[m..], Dropped(axis, shape);
    var least := if a[t] < d[t] then a[t] else d[t];
    var x := Marker(axis, t, least);
    CellIs(axis, shape, x, o, m);
    FibreSum(axis, shape, x, o);
    PartsPositive(axis, shape);
    MarkerSum(axis, |shape|, a, o, t, least);
    MarkerSum(axis, |shape|, d, o, t, least);
    ProductPositive(b);
    Scaled(Product(b), SumOver(a, Dropping(axis, |shape|, x, o)));
    Refuted(axis, shape, x, o);
  }

  /** A further reduce axis that is not of length 1. */
  lemma ExtraRange(axis: seq<int>, shape: seq<int>, o: Index, m: nat, t: nat)
    requires Inside(axis, |shape|) && Positive(shape) && Within(o, Kept(axis, shape)) &&
      m == Below(axis, |shape|) <= |axis|
    requires ReduceDims(axis, shape)[..m] == Dropped(axis, shape) && m <= t < |axis| && ReduceDims(axis, shape)[t] != 1
    ensures !Right(axis, shape)
  {
    var dims, s := ReduceDims(axis, shape), SumOver(Dropped(axis, shape), Dropping(axis, |shape|, ONES, o));
    CellIs(axis, shape, ONES, o, m);
    FibreSum(axis, shape, ONES, o);
    OnesPositive(axis, shape, o);
    NotAllOnes(dims, m, t);
    Scaled(Product(dims[m..]), s);
    Refuted(axis, shape, ONES, o);
  }

  lemma OnesPositive(axis: seq<int>, shape: seq<int>, o: Index)
    requires Positive(shape) && Within(o, Kept(axis, shape))
    ensures SumOver(Dropped(axis, shape), Dropping(axis, |shape|, ONES, o)) > 0.0
  {
    PartsPositive(axis, shape);
    AllOnesSum(axis, |shape|, Dropped(axis, shape), o);
  }

  lemma NotAllOnes(dims: seq<int>, m: nat, t: nat)
    requires Positive(dims) && m <= t < |dims| && dims[t] != 1
    ensures Product(dims[m..]) > 1
  {
    ProductPositive(dims[m..]);
    assert dims[m..][t - m] != 1;
  }

  lemma Refuted(axis: seq<int>, shape: seq<int>, x: Tensor, o: Index)
    requires Inside(axis, |shape|) && Within(o, Kept(axis, shape)) &&
      Cell(axis, shape, x, o) != SumOver(shape, Fibre(axis, x, o))
    ensures !Right(axis, shape)
  {
  }

  lemma NotFine(axis: seq<int>, shape: seq<int>)
    requires Inside(axis, |shape|) && Positive(shape) && !Fine(axis, shape)
    ensures !Right(axis, shape)
  {
    var m, dims := Below(axis, |shape|), ReduceDims(axis, shape);
    BelowAtMost(axis, |shape|);
    PartsPositive(axis, shape);
    var o := Last(Kept(axis, shape));
    if dims[..m] != Dropped(axis, shape) {
      var t :| 0 <= t < m && dims[..m][t] != Dropped(axis, shape)[t];
      WrongRange(axis, shape, o, m, t);
    } else {
      var t :| m <= t < |dims| && dims[t] != 1;
      ExtraRange(axis, shape, o, m, t);
    }
  }

  lemma ProductAtLeast(d: real, s: real)
    requires d >= 1.0 && s >= 0.0
    ensures d * s >= s
  {
    assert (d - 1.0) * s >= 0.0;
  }

  lemma Scaled(c: int, s: real)
    requires c >= 1 && s >= 0.0
    ensures Scale(c, s) >= s && (s > 0.0 && c > 1 ==> Scale(c, s) > s)
    ensures (s == 0.0 ==> Scale(c, s) == 0.0) && (c == 1 ==> Scale(c, s) == s)
  {
    var d := (c - 1) as real;
    assert Scale(c, s) == s + d * s;
    if c > 1 { ProductAtLeast(d, s); }
  }

  lemma {:induction false} BelowCounts(axis: seq<int>, n: nat)
    requires Distinct(axis) && forall t :: 0 <= t < |axis| ==> axis[t] >= 0
    ensures Below(axis, n) <= |axis|
    ensures forall t :: 0 <= t < |axis| ==> (t < Below(axis, n) <==> axis[t] < n)
  {
    if n > 0 {
      BelowCounts(axis, n - 1);
      if n - 1 in axis {
        var b := Below(axis, n - 1);
        var t :| 0 <= t < |axis| && axis[t] == n - 1;
        assert axis[b] >= n - 1;
      }
    }
  }

  lemma {:induction false} DroppedIsReduced(axis: seq<int>, shape: seq<int>, n: nat)
    requires Distinct(axis) && Inside(axis, |shape|) && n <= |shape|
    ensures Below(axis, n) <= |axis| && Dropped(axis, shape[..n]) == ReduceDims(axis, shape)[..Below(axis, n)]
  {
    BelowCounts(axis, n);
    if n > 0 {
      DroppedIsReduced(axis, shape, n - 1);
      BelowCounts(axis, n - 1);
      assert shape[..n][..n - 1] == shape[..n - 1];
      DroppedMore(axis, shape[..n]);
      if n - 1 in axis {
        var b, dims := Below(axis, n - 1), ReduceDims(axis, shape);
        assert axis[b] == n - 1;
        assert dims[..b + 1] == dims[..b] + [dims[b]];
      }
    }
  }

  lemma DistinctIsFine(axis: seq<int>, shape: seq<int>)
    requires Distinct(axis) && Inside(axis, |shape|)
    ensures Fine(axis, shape)
  {
    DroppedIsReduced(axis, shape, |shape|);
    BelowCounts(axis, |shape|);
    assert shape[..|shape|] == shape;
  }

  /** Main result: for a sorted axis list, repetitions included, every output cell of a non-empty shape is
      the sum of its entries, whatever the data, exactly if the lengths that the extra reduce axes bring
      in do no harm; for distinct axes they never do. */
  lemma ReduceExact(axis: seq<int>, shape: seq<int>)
    requires Inside(axis, |shape|) && Positive(shape)
    ensures Right(axis, shape) <==> Fine(axis, shape)
    ensures Distinct(axis) ==> Fine(axis, shape)
  {
    if Fine(axis, shape) {
      forall x: Tensor, o | Within(o, Kept(axis, shape))
        ensures Cell(axis, shape, x, o) == SumOver(shape, Fibre(axis, x, o))
      {
        FineIsRight(axis, shape, x, o);
      }
    } else {
      NotFine(axis, shape);
    }
    if Distinct(axis) { DistinctIsFine(axis, shape); }
  }

  /** Where the reduction is right, it conserves the total of each input tensor. */
  lemma TotalConserved(axis: seq<int>, shape: seq<int>, x: Tensor)
    requires Inside(axis, |shape|) && Positive(shape) && Fine(axis, shape)
    ensures SumOver(Kept(axis, shape), o => if |o| == |Kept(axis, shape)| then Cell(axis, shape, x, o) else 0.0) ==
      SumOver(shape, x)
  {
    var out := Kept(axis, shape);
    forall o | Within(o, out) ensures Cell(axis, shape, x, o) == Outputs(axis, shape, x)(o) {
      FineIsRight(axis, shape, x, o);
      FibreSum(axis, shape, x, o);
    }
    SumSame(out, o => if |o| == |out| then Cell(axis, shape, x, o) else 0.0, Outputs(axis, shape, x));
    TotalKept(axis, shape, x);
  }

  /** The value of the output cell at `indice`: the sum of what is read there, at the positions that
      `ComputeFunc` computes, over the reduce axes. */
  ghost function Output(axis: seq<int>, shape: seq<int>, x: Tensor, keepdims: bool, indice: Index): real
    requires Inside(axis, |shape|) && OutputIndex(axis, shape, keepdims, indice)
  {
    PositionFits(axis, shape, keepdims, indice);
    Cell(axis, shape, x, Position(axis, |shape|, keepdims, indice))
  }

  /** An index into the shape that `ResReshape` gives. */
  predicate OutputIndex(axis: seq<int>, shape: seq<int>, keepdims: bool, indice: Index) {
    Within(indice, if keepdims then KeepShape(axis, shape) else if Kept(axis, shape) == [] then [1]
      else Kept(axis, shape))
  }

  /** Where the cell at `i` stands when the dimensions are kept: 0 at the reduced positions. */
  function KeptIndex(axis: seq<int>, shape: seq<int>, i: Index): Index
    requires OutputIndex(axis, shape, false, i)
  {
    PositionFits(axis, shape, false, i);
    Rebuild(axis, |shape|, Position(axis, |shape|, false, i), Zeros(Below(axis, |shape|)))
  }

  lemma PositionFits(axis: seq<int>, shape: seq<int>, keepdims: bool, indice: Index)
    requires OutputIndex(axis, shape, keepdims, indice)
    ensures |Position(axis, |shape|, keepdims, indice)| == |shape| - Below(axis, |shape|)
  {
  }

  /** Main result: keepdims changes where an output value stands, not what it is: each value of the one mode
      stands in the other at the index with the same position. */
  lemma KeepdimsSameValues(axis: seq<int>, shape: seq<int>, x: Tensor, i: Index, j: Index)
    requires Inside(axis, |shape|) && OutputIndex(axis, shape, false, i)
    requires j == KeptIndex(axis, shape, i)
    ensures OutputIndex(axis, shape, true, j) && Output(axis, shape, x, true, j) == Output(axis, shape, x, false, i)
  {
    var o := Position(axis, |shape|, false, i);
    PositionFits(axis, shape, false, i);
    assert Within(o, Kept(axis, shape));
    KeepdimsSame(axis, shape, o, j);
  }
}
