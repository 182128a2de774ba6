/** The Cartesian product of lists, the last one varying fastest (Python's `itertools.product`). */
module Cartesian {
  import opened Arith

  function Product<T>(lists: seq<seq<T>>): seq<seq<T>> {
    if lists == [] then [[]] else EachWith(Product(lists[..|lists| - 1]), lists[|lists| - 1])
  }

  /** Every row with every value behind it. */
  function EachWith<T>(rows: seq<seq<T>>, values: seq<T>): seq<seq<T>> {
    if rows == [] then [] else EachWith(rows[..|rows| - 1], values) + WithEach(rows[|rows| - 1], values)
  }

  function WithEach<T>(row: seq<T>, values: seq<T>): seq<seq<T>> {
    seq(|values|, i requires 0 <= i < |values| => row + [values[i]])
  }

  /** How often k goes into r. */
  function Quotient(r: nat, k: nat): nat {
    if k == 0 || r < k then 0 else Quotient(r - k, k) + 1
  }

  lemma {:induction false} QuotientFacts(r: nat, n: nat, k: nat)
    requires r < Sum(n, k)
    ensures Quotient(r, k) < n && 0 <= r - Sum(Quotient(r, k), k) < k
  {
    if n > 0 && k > 0 && r >= k { QuotientFacts(r - k, n - 1, k); } else { NoneOfNothing(n, k); }
  }

  lemma {:induction false} NoneOfNothing(n: nat, k: nat)
    ensures k == 0 ==> Sum(n, k) == 0
  {
    if n > 0 { NoneOfNothing(n - 1, k); }
  }

  lemma {:induction false} QuotientUnique(q: nat, d: nat, k: nat)
    requires d < k
    ensures Quotient(Sum(q, k) + d, k) == q
  {
    if q > 0 { QuotientUnique(q - 1, d, k); }
  }

  lemma {:induction false} EachWithAt<T>(rows: seq<seq<T>>, values: seq<T>, q: nat, d: nat)
    requires q < |rows| && d < |values|
    ensures |EachWith(rows, values)| == Sum(|rows|, |values|)
    ensures Sum(q, |values|) + d < |EachWith(rows, values)| &&
      EachWith(rows, values)[Sum(q, |values|) + d] == rows[q] + [values[d]]
  {
    var init := rows[..|rows| - 1];
    EachWithSize(init, values);
    if q < |init| { EachWithAt(init, values, q, d); }
  }

  lemma {:induction false} EachWithSize<T>(rows: seq<seq<T>>, values: seq<T>)
    ensures |EachWith(rows, values)| == Sum(|rows|, |values|)
  {
    if rows != [] { EachWithSize(rows[..|rows| - 1], values); }
  }

  function Sizes<T>(lists: seq<seq<T>>): seq<nat> {
    seq(|lists|, j requires 0 <= j < |lists| => |lists[j]|)
  }

  /** One position in each of lists of these sizes. */
  predicate Choice(digits: seq<int>, sizes: seq<nat>) {
    |digits| == |sizes| && forall j :: 0 <= j < |digits| ==> 0 <= digits[j] < sizes[j]
  }

  /** The row that takes these positions. */
  function RowOf(digits: seq<int>, sizes: seq<nat>): nat
    requires Choice(digits, sizes)
    decreases |sizes|
  {
    if sizes == [] then 0
    else Sum(RowOf(digits[..|sizes| - 1], sizes[..|sizes| - 1]), sizes[|sizes| - 1]) + digits[|sizes| - 1]
  }

  /** The positions that a row takes. */
  function Digits(row: nat, sizes: seq<nat>): (digits: seq<int>)
    ensures |digits| == |sizes|
    decreases |sizes|
  {
    if sizes == [] then []
    else
      var q := Quotient(row, sizes[|sizes| - 1]);
      Digits(q, sizes[..|sizes| - 1]) + [row - Sum(q, sizes[|sizes| - 1])]
  }

  function Picked<T>(digits: seq<int>, lists: seq<seq<T>>): seq<T>
    requires Choice(digits, Sizes(lists))
  {
    seq(|lists|, j requires 0 <= j < |lists| && 0 <= digits[j] < Sizes(lists)[j] => lists[j][digits[j]])
  }

  // ---- One list more ----

  lemma ProductMore<T>(lists: seq<seq<T>>, last: seq<T>)
    ensures Product(lists + [last]) == EachWith(Product(lists), last) &&
      Sizes(lists + [last]) == Sizes(lists) + [|last|]
  {
    assert (lists + [last])[..|lists|] == lists;
  }

  lemma DigitsMore(row: nat, sizes: seq<nat>, k: nat)
    ensures Digits(row, sizes + [k]) == Digits(Quotient(row, k), sizes) + [row - Sum(Quotient(row, k), k)]
  {
    DigitsOf(row, sizes + [k], sizes, k, Quotient(row, k));
  }

  lemma DigitsOf(row: nat, all: seq<nat>, sizes: seq<nat>, k: nat, q: nat)
    requires all == sizes + [k] && q == Quotient(row, k)
    ensures Digits(row, all) == Digits(q, sizes) + [row - Sum(q, k)]
  {
    assert all[|all| - 1] == k && all[..|all| - 1] == sizes;
  }

  lemma RowOfMore(digits: seq<int>, sizes: seq<nat>, d: nat, k: nat)
    requires Choice(digits, sizes) && d < k
    ensures Choice(digits + [d], sizes + [k]) && RowOf(digits + [d], sizes + [k]) == Sum(RowOf(digits, sizes), k) + d
  {
    assert (sizes + [k])[..|sizes|] == sizes && (digits + [d])[..|sizes|] == digits;
  }

  lemma PickedMore<T>(digits: seq<int>, lists: seq<seq<T>>, d: nat, last: seq<T>)
    requires Choice(digits, Sizes(lists)) && d < |last|
    ensures Choice(digits + [d], Sizes(lists + [last])) &&
      Picked(digits + [d], lists + [last]) == Picked(digits, lists) + [last[d]]
  {
  }

  lemma ListsSplit<T>(lists: seq<seq<T>>)
    requires lists != []
    ensures lists == lists[..|lists| - 1] + [lists[|lists| - 1]]
  {
  }

  /** A row holds what its positions pick, and the positions lead back to it. */
  lemma {:induction false} RowHolds<T>(lists: seq<seq<T>>, row: nat)
    requires row < |Product(lists)|
    ensures Choice(Digits(row, Sizes(lists)), Sizes(lists)) && RowOf(Digits(row, Sizes(lists)), Sizes(lists)) == row
    ensures Product(lists)[row] == Picked(Digits(row, Sizes(lists)), lists)
    decreases |lists|
  {
    if lists != [] {
      ListsSplit(lists);
      RowHoldsMore(lists[..|lists| - 1], lists[|lists| - 1], row, lists);
    }
  }

  lemma {:induction false} RowHoldsMore<T>(init: seq<seq<T>>, last: seq<T>, row: nat, lists: seq<seq<T>>)
    requires lists == init + [last] && row < |Product(lists)|
    ensures Choice(Digits(row, Sizes(lists)), Sizes(lists)) && RowOf(Digits(row, Sizes(lists)), Sizes(lists)) == row
    ensures Product(lists)[row] == Picked(Digits(row, Sizes(lists)), lists)
    decreases |lists|, 0
  {
    var k := |last|;
    var q := Quotient(row, k);
    ProductMore(init, last);
    EachWithSize(Product(init), last);
    QuotientFacts(row, |Product(init)|, k);
    RowHolds(init, q);
    EachWithAt(Product(init), last, q, row - Sum(q, k));
    DigitsMore(row, Sizes(init), k);
    RowOfMore(Digits(q, Sizes(init)), Sizes(init), row - Sum(q, k), k);
    PickedMore(Digits(q, Sizes(init)), init, row - Sum(q, k), last);
  }

  /** Every choice of positions has its row, and no other one. */
  lemma {:induction false} ChoiceHasRow<T>(lists: seq<seq<T>>, digits: seq<int>)
    requires Choice(digits, Sizes(lists))
    ensures RowOf(digits, Sizes(lists)) < |Product(lists)| &&
      Digits(RowOf(digits, Sizes(lists)), Sizes(lists)) == digits
    decreases |lists|
  {
    if lists != [] {
      var n := |lists| - 1;
      var init, last, front, d := lists[..n], lists[n], digits[..n], digits[n];
      ListsSplit(lists);
      assert digits == front + [d];
      assert Sizes(lists)[n] == |last|;
      ProductMore(init, last);
      ChoiceFront(front, d, Sizes(init), |last|);
      ChoiceHasRow(init, front);
      AppendedHasRow(Product(init), last, front, d, Sizes(init));
    }
  }

  lemma AppendedHasRow<T>(rows: seq<seq<T>>, last: seq<T>, front: seq<int>, d: nat, sizes: seq<nat>)
    requires Choice(front, sizes) && d < |last| && RowOf(front, sizes) < |rows| &&
      Digits(RowOf(front, sizes), sizes) == front
    ensures Choice(front + [d], sizes + [|last|]) && RowOf(front + [d], sizes + [|last|]) < |EachWith(rows, last)|
    ensures Digits(RowOf(front + [d], sizes + [|last|]), sizes + [|last|]) == front + [d]
  {
    var q := RowOf(front, sizes);
    EachWithAt(rows, last, q, d);
    RowOfMore(front, sizes, d, |last|);
    DigitsBack(front, q, d, sizes, |last|);
  }

  lemma DigitsBack(front: seq<int>, q: nat, d: nat, sizes: seq<nat>, k: nat)
    requires d < k && Digits(q, sizes) == front
    ensures Digits(Sum(q, k) + d, sizes + [k]) == front + [d]
  {
    var row := Sum(q, k) + d;
    QuotientUnique(q, d, k);
    DigitsOf(row, sizes + [k], sizes, k, q);
  }

  lemma ChoiceFront(front: seq<int>, d: nat, sizes: seq<nat>, k: nat)
    requires Choice(front + [d], sizes + [k]) && |front| == |sizes|
    ensures Choice(front, sizes)
  {
    assert forall j :: 0 <= j < |front| ==> front[j] == (front + [d])[j] && sizes[j] == (sizes + [k])[j];
  }

  /** Lists of one value, at the end, take no part in which row takes which positions. */
  lemma {:induction false} SingleValues(row: nat, sizes: seq<nat>, ones: seq<nat>)
    requires forall j :: 0 <= j < |ones| ==> ones[j] == 1
    ensures Digits(row, sizes + ones)[..|sizes|] == Digits(row, sizes)
  {
    if ones == [] {
      assert sizes + ones == sizes;
    } else {
      var n := |ones| - 1;
      assert sizes + ones == (sizes + ones[..n]) + [1];
      assert (sizes + ones)[..|sizes| + n] == sizes + ones[..n];
      OneEach(row);
      SingleValues(row, sizes, ones[..n]);
    }
  }

  lemma {:induction false} OneEach(r: nat)
    ensures Quotient(r, 1) == r && Sum(r, 1) == r
  {
    if r > 0 { OneEach(r - 1); }
  }

  /** The product, list by list: with one list more every row comes once with each of its values, the last list varying
      fastest. */
  lemma LastVariesFastest<T>(lists: seq<seq<T>>, last: seq<T>, q: nat, i: nat)
    requires q < |Product(lists)| && i < |last|
    ensures Product<T>([]) == [[]] && |Product(lists + [last])| == |Product(lists)| * |last|
    ensures q * |last| + i < |Product(lists + [last])| &&
      Product(lists + [last])[q * |last| + i] == Product(lists)[q] + [last[i]]
  {
    ProductMore(lists, last);
    EachWithAt(Product(lists), last, q, i);
    SumIs(q, |last|);
    SumIs(|Product(lists)|, |last|);
  }
}
