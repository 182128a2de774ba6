/** Sums over all indices of a shape. */
module Sums {

  type Index = seq<int>
  type Tensor = Index -> real

  ghost function Range(n: int, f: int -> real): real {
    if n <= 0 then 0.0 else Range(n - 1, f) + f(n - 1)
  }

  ghost function SumOver(dims: seq<int>, f: Tensor): real {
    if dims == [] then f([])
    else Range(dims[|dims| - 1], v => SumOver(dims[..|dims| - 1], At(f, v)))
  }

  /** The slice of `f` at last index `v`. */
  ghost function At(f: Tensor, v: int): Tensor {
    k => f(k + [v])
  }

  predicate Within(k: Index, dims: seq<int>) {
    |k| == |dims| && forall j :: 0 <= j < |k| ==> 0 <= k[j] < dims[j]
  }

  lemma {:induction false} RangeSame(n: int, f: int -> real, g: int -> real)
    requires forall v :: 0 <= v < n ==> f(v) == g(v)
    ensures Range(n, f) == Range(n, g)
  {
    if n > 0 { RangeSame(n - 1, f, g); }
  }

  lemma {:induction false} SumSame(dims: seq<int>, f: Tensor, g: Tensor)
    requires forall k :: Within(k, dims) ==> f(k) == g(k)
    ensures SumOver(dims, f) == SumOver(dims, g)
  {
    if dims != [] {
      var init, n := dims[..|dims| - 1], dims[|dims| - 1];
      forall v | 0 <= v < n
        ensures SumOver(init, At(f, v)) == SumOver(init, At(g, v))
      {
        forall k | Within(k, init) ensures At(f, v)(k) == At(g, v)(k) { assert Within(k + [v], dims); }
        SumSame(init, At(f, v), At(g, v));
      }
      RangeSame(n, v => SumOver(init, At(f, v)), v => SumOver(init, At(g, v)));
    } else {
      assert Within([], dims);
    }
  }

  lemma {:induction false} RangeOne(n: int, f: int -> real, w: int)
    requires 0 <= w < n && forall v :: 0 <= v < n && v != w ==> f(v) == 0.0
    ensures Range(n, f) == f(w)
  {
    if w < n - 1 { RangeOne(n - 1, f, w); } else { RangeNone(n - 1, f); }
  }

  lemma {:induction false} RangeNone(n: int, f: int -> real)
    requires forall v :: 0 <= v < n ==> f(v) == 0.0
    ensures Range(n, f) == 0.0
  {
    if n > 0 { RangeNone(n - 1, f); }
  }

  lemma {:induction false} SumNone(dims: seq<int>, f: Tensor)
    requires forall k :: Within(k, dims) ==> f(k) == 0.0
    ensures SumOver(dims, f) == 0.0
  {
    if dims != [] {
      var init, n := dims[..|dims| - 1], dims[|dims| - 1];
      forall v | 0 <= v < n
        ensures SumOver(init, At(f, v)) == 0.0
      {
        forall k | Within(k, init) ensures At(f, v)(k) == 0.0 { assert Within(k + [v], dims); }
        SumNone(init, At(f, v));
      }
      RangeNone(n, v => SumOver(init, At(f, v)));
    } else {
      assert Within([], dims);
    }
  }

  lemma {:induction false} RangeAdds(n: int, f: int -> real, g: int -> real)
    ensures Range(n, v => f(v) + g(v)) == Range(n, f) + Range(n, g)
  {
    if n > 0 { RangeAdds(n - 1, f, g); }
  }

  ghost function Plus(f: Tensor, g: Tensor): Tensor { k => f(k) + g(k) }

  lemma {:induction false} SumAdds(dims: seq<int>, f: Tensor, g: Tensor)
    ensures SumOver(dims, Plus(f, g)) == SumOver(dims, f) + SumOver(dims, g)
  {
    if dims != [] {
      var init, n := dims[..|dims| - 1], dims[|dims| - 1];
      var ff, gg := v => SumOver(init, At(f, v)), v => SumOver(init, At(g, v));
      forall v | 0 <= v < n
        ensures SumOver(init, At(Plus(f, g), v)) == ff(v) + gg(v)
      {
        SumSame(init, At(Plus(f, g), v), Plus(At(f, v), At(g, v)));
        SumAdds(init, At(f, v), At(g, v));
      }
      RangeSame(n, v => SumOver(init, At(Plus(f, g), v)), v => ff(v) + gg(v));
      RangeAdds(n, ff, gg);
    }
  }

  /** A sum over one more axis may be taken inside or outside. */
  lemma {:induction false} SumsSwap(dims: seq<int>, n: int, f: int -> Tensor)
    ensures SumOver(dims, k => Range(n, v => f(v)(k))) == Range(n, v => SumOver(dims, f(v)))
  {
    var g: Tensor := k => Range(n, v => f(v)(k));
    if n <= 0 {
      SumNone(dims, g);
    } else {
      var h: Tensor := k => Range(n - 1, v => f(v)(k));
      SumsSwap(dims, n - 1, f);
      SumSame(dims, g, Plus(h, f(n - 1)));
      SumAdds(dims, h, f(n - 1));
    }
  }
}
