/** Multiplication and division facts the solver does not find by itself. */
module Arith {

  lemma MulMono(a: nat, b: nat, k: nat)
    requires a <= b
    ensures a * k <= b * k
  {
  }

  lemma MulStrict(a: nat, b: nat, k: nat)
    requires a < b
    ensures a * k + k <= b * k
  {
    MulMono(a + 1, b, k);
  }

  lemma DivModUnique(x: nat, y: nat, q: nat, r: nat)
    requires x == q * y + r && r < y
    ensures x / y == q && x % y == r
  {
    var q' := x / y;
    if q' < q { MulStrict(q', q, y); }
    if q < q' { MulStrict(q, q', y); }
  }

  lemma ModScale(x: nat, y: nat, k: nat)
    requires 0 < y && 0 < k
    ensures 0 < k * y && (k * x) % (k * y) == k * (x % y)
  {
    var q, r := x / y, x % y;
    assert k * x == q * (k * y) + k * r by {
      assert k * x == k * (q * y + r) == k * (q * y) + k * r;
      assert k * (q * y) == q * (k * y);
    }
    MulStrict(r, y, k);
    DivModUnique(k * x, k * y, q, k * r);
  }

  lemma DivFloor(x: nat, y: nat)
    requires 0 < y
    ensures x / y * y <= x < x / y * y + y
  {
  }

  lemma DivAtLeast(x: nat, y: nat, k: nat)
    requires 0 < y
    ensures k * y <= x <==> k <= x / y
  {
    if k <= x / y { MulMono(k, x / y, y); } else { MulMono(x / y + 1, k, y); }
  }

  /** The cube, as something the solver takes as it is. */
  function Cube(n: nat): nat { Sum(n, Sum(n, n)) }

  /** `k` times `x`, by adding: a product that the solver takes as it is. */
  function Sum(k: nat, x: nat): nat { if k == 0 then 0 else Sum(k - 1, x) + x }

  lemma {:induction false} SumIs(k: nat, x: nat)
    ensures Sum(k, x) == k * x
  {
    if k > 0 { SumIs(k - 1, x); }
  }

  lemma SumStrict(a: nat, b: nat, x: nat)
    requires a < b
    ensures Sum(a, x) + x <= Sum(b, x)
  {
    SumIs(a, x);
    SumIs(b, x);
    MulStrict(a, b, x);
  }

  lemma CubeIs(n: nat)
    ensures Cube(n) == n * n * n
  {
    SumIs(n, n);
    SumIs(n, n * n);
    assert n * (n * n) == n * n * n;
  }
}
