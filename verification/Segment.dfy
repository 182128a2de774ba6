/** Segment reduction (auto_schedule/python/segment_compute.py), for one column of the tensor: `xs[k]` is
    the entry of row k, `ids[k]` the segment that row belongs to. */
module Segment {
  import opened Wrappers

  datatype Op = Sum | Mean | Prod | Min | Max

  function Times(x: real, y: real): real { x * y }

  function Combine(op: Op, x: real, acc: real): real {
    match op
    case Sum | Mean => x + acc
    case Prod => Times(x, acc)
    case Min => if x < acc then x else acc
    case Max => if x > acc then x else acc
  }

  /** The entries of segment `i` among the first `n` rows, in order. */
  function Rows(ids: seq<int>, xs: seq<real>, i: int, n: nat): (rows: seq<real>)
    requires n <= |ids| == |xs|
    ensures |rows| <= n
  {
    if n == 0 then [] else Rows(ids, xs, i, n - 1) + if ids[n - 1] == i then [xs[n - 1]] else []
  }

  /** All of them combined, each once, from the first to the last. */
  function Fold(op: Op, rows: seq<real>): real
    requires rows != []
  {
    if |rows| == 1 then rows[0] else Combine(op, rows[|rows| - 1], Fold(op, rows[..|rows| - 1]))
  }

  /** What the segment should hold. */
  function Row(op: Op, ids: seq<int>, xs: seq<real>, i: int, init: real): real
    requires |ids| == |xs|
  {
    var rows := Rows(ids, xs, i, |ids|);
    if rows == [] then init
    else if op == Mean then Fold(op, rows) / |rows| as real
    else Fold(op, rows)
  }

  lemma {:induction false} NoneBetween(ids: seq<int>, xs: seq<real>, i: int, a: nat, b: nat)
    requires a <= b <= |ids| == |xs| && forall k :: a <= k < b ==> ids[k] != i
    ensures Rows(ids, xs, i, a) == Rows(ids, xs, i, b)
  {
    if a < b { NoneBetween(ids, xs, i, a, b - 1); }
  }

  lemma FoldMore(op: Op, rows: seq<real>, x: real)
    requires rows != []
    ensures Fold(op, rows + [x]) == Combine(op, x, Fold(op, rows))
  {
    assert (rows + [x])[..|rows|] == rows;
  }

  function FoldOnto(op: Op, x: real, rows: seq<real>): real {
    if rows == [] then x else Combine(op, x, Fold(op, rows))
  }

  /** Folding the rows of one more entry. */
  lemma FoldRows(op: Op, ids: seq<int>, xs: seq<real>, i: int, n: nat)
    requires 0 < n <= |ids| == |xs|
    ensures ids[n - 1] != i ==> Rows(ids, xs, i, n) == Rows(ids, xs, i, n - 1)
    ensures ids[n - 1] == i ==> |Rows(ids, xs, i, n)| == |Rows(ids, xs, i, n - 1)| + 1
    ensures ids[n - 1] == i ==> Fold(op, Rows(ids, xs, i, n)) == FoldOnto(op, xs[n - 1], Rows(ids, xs, i, n - 1))
  {
    var rows := Rows(ids, xs, i, n - 1);
    assert rows + [] == rows;
    if rows != [] { FoldMore(op, rows, xs[n - 1]); } else { assert rows + [xs[n - 1]] == [xs[n - 1]]; }
  }

  /** The first place of `v`. */
  function Index(s: seq<int>, v: int): (k: nat)
    requires v in s
    ensures k < |s| && s[k] == v && forall j :: 0 <= j < k ==> s[j] != v
  {
    if s[0] == v then 0 else Index(s[1..], v) + 1
  }

  /** The occurrences of `i` before `from` are marked with -1. */
  ghost predicate Marked(marked: seq<int>, ids: seq<int>, i: int, from: nat) {
    |marked| == |ids| && forall k :: 0 <= k < |ids| ==> marked[k] == if k < from && ids[k] == i then -1 else ids[k]
  }

  /** The first one left is the next row of the segment. */
  lemma Next(ids: seq<int>, xs: seq<real>, i: int, marked: seq<int>, from: nat, idx: nat)
    requires |ids| == |xs| && from <= |ids| && i >= 0 && Marked(marked, ids, i, from)
    requires idx < |marked| && marked[idx] == i && forall j :: 0 <= j < idx ==> marked[j] != i
    ensures from <= idx && ids[idx] == i && Marked(marked[idx := -1], ids, i, idx + 1)
    ensures Rows(ids, xs, i, idx + 1) == Rows(ids, xs, i, from) + [xs[idx]]
  {
    assert from <= idx;
    NoneBetween(ids, xs, i, from, idx);
  }

  lemma Remaining(ids: seq<int>, xs: seq<real>, i: int, marked: seq<int>, from: nat)
    requires |ids| == |xs| && from <= |ids| && i >= 0 && Marked(marked, ids, i, from)
    ensures i in marked <==> |Rows(ids, xs, i, from)| < |Rows(ids, xs, i, |ids|)|
    ensures i !in marked ==> Rows(ids, xs, i, from) == Rows(ids, xs, i, |ids|)
  {
    if i !in marked {
      forall k | from <= k < |ids| ensures ids[k] != i { assert marked[k] == ids[k]; }
      NoneBetween(ids, xs, i, from, |ids|);
    } else {
      var idx := Index(marked, i);
      Next(ids, xs, i, marked, from, idx);
      RowsGrow(ids, xs, i, idx + 1, |ids|);
    }
  }

  lemma {:induction false} RowsGrow(ids: seq<int>, xs: seq<real>, i: int, a: nat, b: nat)
    requires a <= b <= |ids| == |xs|
    ensures |Rows(ids, xs, i, a)| <= |Rows(ids, xs, i, b)|
  {
    if a < b { RowsGrow(ids, xs, i, a, b - 1); }
  }

  lemma {:induction false} CountIsRows(ids: seq<int>, xs: seq<real>, i: int, n: nat)
    requires n <= |ids| == |xs|
    ensures multiset(ids[..n])[i] == |Rows(ids, xs, i, n)|
  {
    if n > 0 {
      CountIsRows(ids, xs, i, n - 1);
      assert ids[..n] == ids[..n - 1] + [ids[n - 1]];
    }
  }

  /** After `m + 1` rows of the segment, the last of them at `idx`. */
  ghost predicate Visited(op: Op, ids: seq<int>, xs: seq<real>, i: int, marked: seq<int>, idx: nat, m: nat, tmp: real)
    requires |ids| == |xs|
  {
    && idx < |ids| == |marked| && Marked(marked[idx := -1], ids, i, idx + 1)
    && |Rows(ids, xs, i, idx + 1)| == m + 1 && tmp == Fold(op, Rows(ids, xs, i, idx + 1))
  }

  lemma VisitFirst(op: Op, ids: seq<int>, xs: seq<real>, i: int)
    requires |ids| == |xs| && i >= 0 && i in ids
    ensures Visited(op, ids, xs, i, ids, Index(ids, i), 0, xs[Index(ids, i)])
  {
    Next(ids, xs, i, ids, 0, Index(ids, i));
  }

  lemma VisitNext(op: Op, ids: seq<int>, xs: seq<real>, i: int, marked: seq<int>, idx: nat, m: nat, tmp: real)
    requires |ids| == |xs| && i >= 0 && Visited(op, ids, xs, i, marked, idx, m, tmp) &&
      m + 1 < |Rows(ids, xs, i, |ids|)|
    ensures i in marked[idx := -1]
    ensures Visited(op, ids, xs, i, marked[idx := -1], Index(marked[idx := -1], i), m + 1,
                    Combine(op, xs[Index(marked[idx := -1], i)], tmp))
  {
    var now := marked[idx := -1];
    Remaining(ids, xs, i, now, idx + 1);
    var next := Index(now, i);
    Next(ids, xs, i, now, idx + 1, next);
    FoldMore(op, Rows(ids, xs, i, idx + 1), xs[next]);
  }

  lemma VisitedAll(op: Op, ids: seq<int>, xs: seq<real>, i: int, marked: seq<int>, idx: nat, m: nat, tmp: real)
    requires |ids| == |xs| && i >= 0 && Visited(op, ids, xs, i, marked, idx, m, tmp) &&
      m + 1 == |Rows(ids, xs, i, |ids|)|
    ensures tmp == Fold(op, Rows(ids, xs, i, |ids|))
  {
    Remaining(ids, xs, i, marked[idx := -1], idx + 1);
  }

  lemma Occurs(ids: seq<int>, xs: seq<real>, i: int)
    requires |ids| == |xs| && i >= 0
    ensures multiset(ids)[i] == |Rows(ids, xs, i, |ids|)|
    ensures i in ids <==> Rows(ids, xs, i, |ids|) != []
  {
    assert ids[..|ids|] == ids;
    CountIsRows(ids, xs, i, |ids|);
    Remaining(ids, xs, i, ids, 0);
  }

  // ---- What a segment holds ----

  predicate Extreme(op: Op) { op == Min || op == Max }

  /** The sum of segment `i` over the first `n` rows. */
  function SumOf(ids: seq<int>, xs: seq<real>, i: int, n: nat): real
    requires n <= |ids| == |xs|
  {
    if n == 0 then 0.0 else SumOf(ids, xs, i, n - 1) + if ids[n - 1] == i then xs[n - 1] else 0.0
  }

  lemma {:induction false} FoldIsSum(ids: seq<int>, xs: seq<real>, i: int, n: nat)
    requires n <= |ids| == |xs|
    ensures SumOf(ids, xs, i, n) == if Rows(ids, xs, i, n) == [] then 0.0 else Fold(Sum, Rows(ids, xs, i, n))
  {
    if n > 0 {
      FoldIsSum(ids, xs, i, n - 1);
      FoldRows(Sum, ids, xs, i, n);
    }
  }

  /** The product of segment `i` over the first `n` rows. */
  function ProductOf(ids: seq<int>, xs: seq<real>, i: int, n: nat): real
    requires n <= |ids| == |xs|
  {
    if n == 0 then 1.0 else if ids[n - 1] == i then Times(xs[n - 1], ProductOf(ids, xs, i, n - 1))
      else ProductOf(ids, xs, i, n - 1)
  }

  lemma {:induction false} FoldIsProduct(ids: seq<int>, xs: seq<real>, i: int, n: nat)
    requires n <= |ids| == |xs|
    ensures ProductOf(ids, xs, i, n) == if Rows(ids, xs, i, n) == [] then 1.0 else Fold(Prod, Rows(ids, xs, i, n))
  {
    if n > 0 {
      FoldIsProduct(ids, xs, i, n - 1);
      FoldRows(Prod, ids, xs, i, n);
    }
  }

  /** The smaller, or larger, of two. */
  lemma {:induction false} FoldIsExtreme(op: Op, rows: seq<real>)
    requires rows != [] && Extreme(op)
    ensures Fold(op, rows) in rows
    ensures op == Min ==> forall k :: 0 <= k < |rows| ==> Fold(op, rows) <= rows[k]
    ensures op == Max ==> forall k :: 0 <= k < |rows| ==> Fold(op, rows) >= rows[k]
  {
    if |rows| > 1 {
      var init := rows[..|rows| - 1];
      FoldIsExtreme(op, init);
      assert forall k :: 0 <= k < |init| ==> rows[k] == init[k];
    }
  }

  /** The rows of a segment are the entries with its id. */
  lemma {:induction false} RowsAre(ids: seq<int>, xs: seq<real>, i: int, n: nat)
    requires n <= |ids| == |xs|
    ensures forall k :: 0 <= k < n && ids[k] == i ==> xs[k] in Rows(ids, xs, i, n)
    ensures forall x :: x in Rows(ids, xs, i, n) ==> exists k :: 0 <= k < n && ids[k] == i && xs[k] == x
  {
    if n > 0 { RowsAre(ids, xs, i, n - 1); }
  }

  /** Entry `x` belongs to segment `i`. */
  predicate Belongs(ids: seq<int>, xs: seq<real>, i: int, x: real)
    requires |ids| == |xs|
  {
    exists k :: 0 <= k < |ids| && ids[k] == i && xs[k] == x
  }

  /** What a segment holds, said of its entries: `init` if there are none; otherwise their sum, their product, the one
      among them that is least or greatest, or what times their number is their sum. */
  ghost predicate Holds(op: Op, ids: seq<int>, xs: seq<real>, i: int, init: real, v: real)
    requires |ids| == |xs|
  {
    if i !in ids then v == init
    else match op
      case Sum => v == SumOf(ids, xs, i, |ids|)
      case Mean => v * multiset(ids)[i] as real == SumOf(ids, xs, i, |ids|)
      case Prod => v == ProductOf(ids, xs, i, |ids|)
      case Min => Belongs(ids, xs, i, v) && forall k :: 0 <= k < |ids| && ids[k] == i ==> v <= xs[k]
      case Max => Belongs(ids, xs, i, v) && forall k :: 0 <= k < |ids| && ids[k] == i ==> v >= xs[k]
  }

  lemma ExtremeHolds(op: Op, ids: seq<int>, xs: seq<real>, i: int, init: real)
    requires |ids| == |xs| && i >= 0 && i in ids && Extreme(op)
    ensures Holds(op, ids, xs, i, init, Row(op, ids, xs, i, init))
  {
    Occurs(ids, xs, i);
    RowsAre(ids, xs, i, |ids|);
    FoldIsExtreme(op, Rows(ids, xs, i, |ids|));
  }

  lemma MeanHolds(ids: seq<int>, xs: seq<real>, i: int, init: real)
    requires |ids| == |xs| && i >= 0 && i in ids
    ensures Row(Mean, ids, xs, i, init) * multiset(ids)[i] as real == SumOf(ids, xs, i, |ids|)
  {
    var rows := Rows(ids, xs, i, |ids|);
    Occurs(ids, xs, i);
    FoldIsSum(ids, xs, i, |ids|);
    MeanIsSum(rows);
    Quotients(Fold(Mean, rows), |rows| as real);
  }

  /** Main result: the fold is that. */
  lemma RowHolds(op: Op, ids: seq<int>, xs: seq<real>, i: int, init: real)
    requires |ids| == |xs| && i >= 0
    ensures Holds(op, ids, xs, i, init, Row(op, ids, xs, i, init))
  {
    Occurs(ids, xs, i);
    if i in ids {
      match op
      case Sum => FoldIsSum(ids, xs, i, |ids|);
      case Mean => MeanHolds(ids, xs, i, init);
      case Prod => FoldIsProduct(ids, xs, i, |ids|);
      case Min => ExtremeHolds(op, ids, xs, i, init);
      case Max => ExtremeHolds(op, ids, xs, i, init);
    }
  }

  /** The mean adds up like the sum. */
  lemma {:induction false} MeanIsSum(rows: seq<real>)
    requires rows != []
    ensures Fold(Mean, rows) == Fold(Sum, rows)
  {
    if |rows| > 1 { MeanIsSum(rows[..|rows| - 1]); }
  }

  lemma Quotients(x: real, n: real)
    requires n > 0.0
    ensures x / n * n == x
  {
  }

  // ---- The program ----

  /** `__compute_outer_dim`: marking and searching again visits every row of the segment once, in order. */
  method ComputeOuterDim(op: Op, ids: seq<int>, xs: seq<real>, i: int, init: real) returns (tmp: real)
    requires |ids| == |xs| && i >= 0
    ensures tmp == Row(op, ids, xs, i, init) && Holds(op, ids, xs, i, init, tmp)
  {
    RowHolds(op, ids, xs, i, init);
    var marked := ids;
    Occurs(ids, xs, i);
    if i in ids {
      var idx := Index(marked, i);
      VisitFirst(op, ids, xs, i);
      tmp := xs[idx];
      marked := marked[idx := -1];
      var count := multiset(ids)[i];
      for m := 0 to count - 1
        invariant Visited(op, ids, xs, i, marked, idx, m, tmp)
      {
        VisitNext(op, ids, xs, i, marked, idx, m, tmp);
        marked := marked[idx := -1];
        idx := Index(marked, i);
        tmp := Combine(op, xs[idx], tmp);
      }
      VisitedAll(op, ids, xs, i, marked, idx, count - 1, tmp);
      if op == Mean { tmp := tmp / count as real; }
    } else {
      tmp := init;
    }
  }

  function MaxId(ids: seq<int>): (m: int)
    requires ids != []
    ensures m in ids && forall k :: 0 <= k < |ids| ==> ids[k] <= m
  {
    if |ids| == 1 then ids[0]
    else
      var m := MaxId(ids[..|ids| - 1]);
      if ids[|ids| - 1] > m then ids[|ids| - 1] else m
  }

  /** The output at segment `j`: a chain of selections over all the segments. */
  method SegmentCompute(op: Op, ids: seq<int>, xs: seq<real>, numSegments: nat, init: real, j: nat) returns (res: real)
    requires |ids| == |xs| && j < numSegments
    ensures res == Row(op, ids, xs, j, init)
  {
    res := ComputeOuterDim(op, ids, xs, 0, init);
    for i := 1 to numSegments
      invariant res == Row(op, ids, xs, if j < i then j else 0, init)
    {
      var row := ComputeOuterDim(op, ids, xs, i, init);
      res := if j == i then row else res;
    }
  }

  /** The list form of a segment reduction; nothing where the source raises an error. */
  method SegmentOp(op: Op, ids: seq<int>, xs: seq<real>, numSegments: nat, init: real) returns (out: Option<seq<real>>)
    requires xs != []
    ensures out.Some? <==> |ids| == |xs| && forall k :: 0 <= k < |ids| ==> ids[k] < numSegments
    ensures out.Some? ==> |out.value| == numSegments
    ensures out.Some? ==> forall i :: 0 <= i < numSegments ==> out.value[i] == Row(op, ids, xs, i, init)
    ensures out.Some? ==> forall i :: 0 <= i < numSegments ==> Holds(op, ids, xs, i, init, out.value[i])
  {
    if |ids| != |xs| { return None; }
    if MaxId(ids) + 1 > numSegments { return None; }
    var column: seq<real> := [];
    if MaxId(ids) < 0 {
      for j := 0 to numSegments
        invariant |column| == j && forall i :: 0 <= i < j ==> column[i] == Row(op, ids, xs, i, init)
      {
        NoneBetween(ids, xs, j, 0, |ids|);
        column := column + [(xs[0] - xs[0]) + init];
      }
    } else {
      for j := 0 to numSegments
        invariant |column| == j && forall i :: 0 <= i < j ==> column[i] == Row(op, ids, xs, i, init)
      {
        var x := SegmentCompute(op, ids, xs, numSegments, init, j);
        column := column + [x];
      }
    }
    forall i | 0 <= i < numSegments ensures Holds(op, ids, xs, i, init, column[i]) { RowHolds(op, ids, xs, i, init); }
    out := Some(column);
  }

  // ---- The sum over all segments ----

  function Total(ys: seq<real>): real {
    if ys == [] then 0.0 else ys[|ys| - 1] + Total(ys[..|ys| - 1])
  }

  /** The entries of the rows that belong to a segment at all. */
  function Assigned(ids: seq<int>, xs: seq<real>, n: nat): real
    requires n <= |ids| == |xs|
  {
    if n == 0 then 0.0 else Assigned(ids, xs, n - 1) + if ids[n - 1] >= 0 then xs[n - 1] else 0.0
  }

  function SumsTo(ids: seq<int>, xs: seq<real>, num: nat, n: nat): real
    requires n <= |ids| == |xs|
  {
    if num == 0 then 0.0 else SumsTo(ids, xs, num - 1, n) + SumOf(ids, xs, num - 1, n)
  }

  lemma {:induction false} OneSegmentGrows(ids: seq<int>, xs: seq<real>, num: nat, n: nat)
    requires 0 < n <= |ids| == |xs|
    ensures SumsTo(ids, xs, num, n) == SumsTo(ids, xs, num, n - 1) + if 0 <= ids[n - 1] < num then xs[n - 1] else 0.0
  {
    if num > 0 { OneSegmentGrows(ids, xs, num - 1, n); }
  }

  lemma {:induction false} SumsToAssigned(ids: seq<int>, xs: seq<real>, num: nat, n: nat)
    requires n <= |ids| == |xs| && forall k :: 0 <= k < |ids| ==> ids[k] < num
    ensures SumsTo(ids, xs, num, n) == Assigned(ids, xs, n)
  {
    if n > 0 {
      SumsToAssigned(ids, xs, num, n - 1);
      OneSegmentGrows(ids, xs, num, n);
    } else {
      SumsToNothing(ids, xs, num);
    }
  }

  lemma {:induction false} SumsToNothing(ids: seq<int>, xs: seq<real>, num: nat)
    requires |ids| == |xs|
    ensures SumsTo(ids, xs, num, 0) == 0.0
  {
    if num > 0 { SumsToNothing(ids, xs, num - 1); }
  }

  lemma {:induction false} OutputTotal(ids: seq<int>, xs: seq<real>, out: seq<real>)
    requires |ids| == |xs| && forall i :: 0 <= i < |out| ==> out[i] == Row(Sum, ids, xs, i, 0.0)
    ensures Total(out) == SumsTo(ids, xs, |out|, |ids|)
  {
    if out != [] {
      var i := |out| - 1;
      OutputTotal(ids, xs, out[..i]);
      FoldIsSum(ids, xs, i, |ids|);
    }
  }

  /** Main result: summing with 0 for empty segments loses and invents nothing. */
  lemma SumConserved(ids: seq<int>, xs: seq<real>, out: seq<real>)
    requires |ids| == |xs| && (forall k :: 0 <= k < |ids| ==> ids[k] < |out|)
    requires forall i :: 0 <= i < |out| ==> out[i] == Row(Sum, ids, xs, i, 0.0)
    ensures Total(out) == Assigned(ids, xs, |ids|)
  {
    OutputTotal(ids, xs, out);
    SumsToAssigned(ids, xs, |out|, |ids|);
  }

  // ---- The tensor form ----

  /** What the reduction over all rows combines: the rows of the segment, `init` for the others. */
  function Selected(ids: seq<int>, xs: seq<real>, i: int, init: real, n: nat): (s: seq<real>)
    requires n <= |ids| == |xs|
    ensures |s| == n
  {
    if n == 0 then [] else Selected(ids, xs, i, init, n - 1) + [if ids[n - 1] == i then xs[n - 1] else init]
  }

  /** The tensor form of a segment, as a caller gets it: whatever `init` is given, the product takes 1. */
  function TensorRow(op: Op, ids: seq<int>, xs: seq<real>, i: int, init: real): real
    requires |ids| == |xs| > 0
  {
    Fold(op, Selected(ids, xs, i, if op == Prod then 1.0 else init, |ids|))
  }

  /** The list form and the tensor form give the same, whatever the data. */
  ghost predicate FormsAgree(op: Op, ids: seq<int>, num: nat, init: real)
    requires ids != []
  {
    forall xs: seq<real>, i :: |xs| == |ids| && 0 <= i < num ==>
      Row(op, ids, xs, i, init) == TensorRow(op, ids, xs, i, init)
  }

  // ---- The product ----

  lemma SelectedMore(ids: seq<int>, xs: seq<real>, i: int, init: real, n: nat, x: real)
    requires 1 < n <= |ids| == |xs| && x == if ids[n - 1] == i then xs[n - 1] else init
    ensures Fold(Prod, Selected(ids, xs, i, init, n)) == Combine(Prod, x, Fold(Prod, Selected(ids, xs, i, init, n - 1)))
  {
    var before := Selected(ids, xs, i, init, n - 1);
    assert Selected(ids, xs, i, init, n) == before + [x];
    FoldMore(Prod, before, x);
  }

  /** Ones among the factors make no difference. */
  lemma {:induction false} SelectedProduct(ids: seq<int>, xs: seq<real>, i: int, n: nat)
    requires 0 < n <= |ids| == |xs|
    ensures Fold(Prod, Selected(ids, xs, i, 1.0, n)) == ProductOf(ids, xs, i, n)
  {
    if n > 1 {
      SelectedProduct(ids, xs, i, n - 1);
      SelectedMore(ids, xs, i, 1.0, n, if ids[n - 1] == i then xs[n - 1] else 1.0);
    } else {
      assert Selected(ids, xs, i, 1.0, 1) == [if ids[0] == i then xs[0] else 1.0];
    }
  }

  /** The two forms of the product, side by side. */
  lemma ProdForms(ids: seq<int>, xs: seq<real>, i: int, init: real)
    requires |ids| == |xs| > 0 && i >= 0
    ensures multiset(ids)[i] > 0 ==> TensorRow(Prod, ids, xs, i, init) == Row(Prod, ids, xs, i, init)
    ensures multiset(ids)[i] == 0 ==> TensorRow(Prod, ids, xs, i, init) == 1.0 && Row(Prod, ids, xs, i, init) == init
  {
    Occurs(ids, xs, i);
    SelectedProduct(ids, xs, i, |ids|);
    FoldIsProduct(ids, xs, i, |ids|);
  }

  /** Main result: the two forms of the product agree on all data exactly if the list form is given 1 for
      empty segments, as the tensor form always is, or no segment is empty. */
  lemma ProdAgree(ids: seq<int>, num: nat, init: real)
    requires ids != []
    ensures FormsAgree(Prod, ids, num, init) <==> init == 1.0 || forall i :: 0 <= i < num ==> multiset(ids)[i] > 0
  {
    if init == 1.0 || forall i :: 0 <= i < num ==> multiset(ids)[i] > 0 {
      forall xs: seq<real>, i | |xs| == |ids| && 0 <= i < num
        ensures Row(Prod, ids, xs, i, init) == TensorRow(Prod, ids, xs, i, init)
      {
        ProdForms(ids, xs, i, init);
      }
    } else {
      var i :| 0 <= i < num && multiset(ids)[i] == 0;
      var xs := seq(|ids|, k => 0.0);
      ProdForms(ids, xs, i, init);
    }
  }

  // ---- Minimum and maximum ----

  /** Order and repetition do not matter. */
  lemma ExtremeOrder(op: Op, x: real, y: real, z: real)
    requires Extreme(op)
    ensures Combine(op, x, x) == x && Combine(op, x, y) == Combine(op, y, x)
    ensures Combine(op, x, Combine(op, x, z)) == Combine(op, x, z)
    ensures Combine(op, y, Combine(op, x, z)) == Combine(op, x, Combine(op, y, z))
  {
  }

  /** What is selected comes to, `f` being what `count` of `n` rows come to. */
  function Extremum(op: Op, init: real, count: nat, n: nat, f: real): real {
    if count == 0 then init else if count == n then f else Combine(op, init, f)
  }

  lemma ExtremumMore(op: Op, init: real, count: nat, n: nat, f: real, x: real)
    requires Extreme(op) && count <= n && 0 < n
    ensures Combine(op, init, Extremum(op, init, count, n, f)) == Extremum(op, init, count, n + 1, f)
    ensures Combine(op, x, Extremum(op, init, count, n, f)) ==
      Extremum(op, init, count + 1, n + 1, if count == 0 then x else Combine(op, x, f))
  {
    ExtremeOrder(op, init, x, f);
    ExtremeOrder(op, x, init, f);
  }

  function FoldOr(op: Op, init: real, rows: seq<real>): real { if rows == [] then init else Fold(op, rows) }

  /** One row more, in these terms. */
  lemma RowsMore(op: Op, ids: seq<int>, xs: seq<real>, i: int, init: real, n: nat)
    requires 0 < n <= |ids| == |xs|
    ensures var before, rows := Rows(ids, xs, i, n - 1), Rows(ids, xs, i, n);
      if ids[n - 1] != i then rows == before
      else
        && |rows| == |before| + 1
        && FoldOr(op, init, rows) == if |before| == 0 then xs[n - 1]
          else Combine(op, xs[n - 1], FoldOr(op, init, before))
  {
    FoldRows(op, ids, xs, i, n);
  }

  lemma SelectedFold(op: Op, ids: seq<int>, xs: seq<real>, i: int, init: real, n: nat)
    requires 1 < n <= |ids| == |xs|
    ensures Fold(op, Selected(ids, xs, i, init, n)) ==
      Combine(op, if ids[n - 1] == i then xs[n - 1] else init, Fold(op, Selected(ids, xs, i, init, n - 1)))
  {
    FoldMore(op, Selected(ids, xs, i, init, n - 1), if ids[n - 1] == i then xs[n - 1] else init);
  }

  lemma SelectedFirst(op: Op, ids: seq<int>, xs: seq<real>, i: int, init: real)
    requires 1 <= |ids| == |xs|
    ensures Fold(op, Selected(ids, xs, i, init, 1)) == if ids[0] == i then xs[0] else init
  {
    assert Selected(ids, xs, i, init, 0) == [];
  }

  lemma {:induction false} SelectedExtreme(op: Op, ids: seq<int>, xs: seq<real>, i: int, init: real, n: nat)
    requires 0 < n <= |ids| == |xs| && Extreme(op)
    ensures var rows := Rows(ids, xs, i, n);
      Fold(op, Selected(ids, xs, i, init, n)) == Extremum(op, init, |rows|, n, FoldOr(op, init, rows))
  {
    RowsMore(op, ids, xs, i, init, n);
    if n > 1 {
      var rows := Rows(ids, xs, i, n - 1);
      SelectedExtreme(op, ids, xs, i, init, n - 1);
      SelectedFold(op, ids, xs, i, init, n);
      ExtremumMore(op, init, |rows|, n - 1, FoldOr(op, init, rows), xs[n - 1]);
    } else {
      SelectedFirst(op, ids, xs, i, init);
    }
  }

  lemma {:induction false} FoldOfSame(op: Op, ids: seq<int>, xs: seq<real>, i: int, n: nat, y: real)
    requires n <= |ids| == |xs| && Extreme(op) && forall k :: 0 <= k < |xs| ==> xs[k] == y
    ensures Rows(ids, xs, i, n) != [] ==> Fold(op, Rows(ids, xs, i, n)) == y
  {
    if n > 0 {
      FoldOfSame(op, ids, xs, i, n - 1, y);
      FoldRows(op, ids, xs, i, n);
    }
  }

  /** Main result: the two forms of the minimum (maximum) agree on all data exactly if every segment has no
      row or all of them; otherwise the tensor form takes `init` into account as well. */
  lemma ExtremeAgree(op: Op, ids: seq<int>, num: nat, init: real)
    requires ids != [] && Extreme(op)
    ensures FormsAgree(op, ids, num, init) <==>
      forall i :: 0 <= i < num ==> multiset(ids)[i] == 0 || multiset(ids)[i] == |ids|
  {
    if forall i :: 0 <= i < num ==> multiset(ids)[i] == 0 || multiset(ids)[i] == |ids| {
      forall xs: seq<real>, i | |xs| == |ids| && 0 <= i < num
        ensures Row(op, ids, xs, i, init) == TensorRow(op, ids, xs, i, init)
      {
        Occurs(ids, xs, i);
        SelectedExtreme(op, ids, xs, i, init, |ids|);
      }
    } else {
      var i :| 0 <= i < num && multiset(ids)[i] != 0 && multiset(ids)[i] != |ids|;
      var xs := ExtremeDiffers(op, ids, i, init);
    }
  }

  lemma ExtremeDiffers(op: Op, ids: seq<int>, i: int, init: real) returns (xs: seq<real>)
    requires ids != [] && Extreme(op) && 0 <= i && multiset(ids)[i] != 0 && multiset(ids)[i] != |ids|
    ensures |xs| == |ids| && Row(op, ids, xs, i, init) != TensorRow(op, ids, xs, i, init)
  {
    var y := if op == Min then init + 1.0 else init - 1.0;
    xs := seq(|ids|, k => y);
    Occurs(ids, xs, i);
    SelectedExtreme(op, ids, xs, i, init, |ids|);
    FoldOfSame(op, ids, xs, i, |ids|, y);
  }
}
