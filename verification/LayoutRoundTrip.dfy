/** The two conversions of auto_schedule/python/dim_conv.py undo each other. */
module LayoutRoundTrip {
  import opened Arith
  import opened Tiling
  import opened VectorUnit
  import opened Layout
  import opened Four2FiveProgram
  import opened Five2FourTheorem
  import opened Four2FiveTheorem

  /** Where element `q` of an NCHW image sits in the NC1HWC0 image. */
  function Seat(q: nat, hw: nat): nat {
    (RowOf(q, hw) / 16 * hw + PosOf(q, hw)) * 16 + RowOf(q, hw) % 16
  }

  /** Group, position and channel of a seat. */
  lemma SeatParts(c: nat, hw: nat, q: nat)
    requires 0 < hw && q < c * hw
    ensures RowOf(q, hw) < c && PosOf(q, hw) < hw && q == RowOf(q, hw) * hw + PosOf(q, hw)
    ensures GroupOf(Seat(q, hw), hw) == RowOf(q, hw) / 16 && PosIn(Seat(q, hw), hw) == PosOf(q, hw)
    ensures ChannelIn(Seat(q, hw)) == RowOf(q, hw) % 16 && Seat(q, hw) < Image5(c, hw)
  {
    var row, pos := RowOf(q, hw), PosOf(q, hw);
    DivAtLeast(q, hw, c);
    DivFloor(q, hw);
    SeatIn(row / 16, C1(c), hw, pos, row % 16, Seat(q, hw));
  }

  lemma SeatIn(g: nat, c1: nat, hw: nat, pos: nat, j: nat, y: nat)
    requires pos < hw && j < 16 && y == (g * hw + pos) * 16 + j && g < c1
    ensures GroupOf(y, hw) == g && PosIn(y, hw) == pos && ChannelIn(y) == j && y < c1 * (16 * hw)
  {
    var r := 16 * pos + j;
    SixteenTimes(g, hw);
    NextStart(g, hw);
    CellInGroup(y, g, hw);
    MulMono(g + 1, c1, 16 * hw);
    assert r / 16 == pos && r % 16 == j;
  }

  lemma SixteenTimes(g: nat, hw: nat)
    ensures g * hw * 16 == g * (16 * hw)
  {
  }

  /** The two defining formulas are inverse on every element of the NCHW tensor. */
  lemma FormulasInverse(c: nat, hw: nat, n: nat, q: nat)
    requires 0 < hw && q < c * hw
    ensures Seat(q, hw) < Image5(c, hw) && Real(c, hw, Seat(q, hw))
    ensures Formula54(c, hw, n, q) == Cell(n, Image5(c, hw), Seat(q, hw))
    ensures Formula45(c, hw, n, Seat(q, hw)) == Cell(n, c * hw, q)
  {
    SeatParts(c, hw, q);
    FlatIndex(n, C1(c), RowOf(q, hw) / 16, hw, PosOf(q, hw), RowOf(q, hw) % 16);
  }

  lemma FlatIndex(n: nat, c1: nat, g: nat, hw: nat, pos: nat, c0: nat)
    ensures Index5(n, c1, g, hw, pos, c0) == n * (c1 * (16 * hw)) + ((g * hw + pos) * 16 + c0)
  {
    var k := c1 * hw;
    Assoc(n, c1, hw);
    assert (n * c1 + g) * hw == n * c1 * hw + g * hw;
    Assoc(n, k, 16);
    SixteenTimes(c1, hw);
  }

  lemma NestedIndex(k: nat, h: nat, w: nat, y: nat, x: nat)
    requires y < h && x < w
    ensures (k * h + y) * w + x == k * (h * w) + (y * w + x) && y * w + x < h * w
  {
    MulMono(y + 1, h, w);
    assert (k * h + y) * w == k * h * w + y * w;
    Assoc(k, h, w);
  }

  /** Where element [n, ch, y, x] of an NCHW tensor and element [n, g, y, x, j] of an NC1HWC0 one stand. */
  function Index4(n: nat, c: nat, ch: nat, h: nat, y: nat, w: nat, x: nat): nat { ((n * c + ch) * h + y) * w + x }
  function IndexOf5(n: nat, c1: nat, g: nat, h: nat, y: nat, w: nat, x: nat, j: nat): nat {
    Index4(n, c1, g, h, y, w, x) * 16 + j
  }

  lemma PlaneOf(n: nat, c: nat, ch: nat, h: nat, y: nat, w: nat, x: nat)
    requires y < h && x < w
    ensures Index4(n, c, ch, h, y, w, x) == (n * c + ch) * (h * w) + (y * w + x) && y * w + x < h * w
  {
    NestedIndex(n * c + ch, h, w, y, x);
  }

  /** The two formulas in the indices of the tensors: element [n, ch, y, x] of the one is element
      [n, ch / 16, y, x, ch % 16] of the other, whose channel is then a real one. */
  lemma FormulaIndices(h: nat, w: nat, n: nat, c: nat, ch: nat, y: nat, x: nat)
    requires ch < c && y < h && x < w
    ensures Formula54(c, h * w, n, Index4(0, c, ch, h, y, w, x)) ==
      IndexOf5(n, (c + 15) / 16, ch / 16, h, y, w, x, ch % 16)
    ensures Formula45(c, h * w, n, IndexOf5(0, (c + 15) / 16, ch / 16, h, y, w, x, ch % 16)) ==
      Index4(n, c, ch, h, y, w, x)
    ensures Real(c, h * w, IndexOf5(0, (c + 15) / 16, ch / 16, h, y, w, x, ch % 16))
  {
    var pos := y * w + x;
    PlaneOf(0, c, ch, h, y, w, x);
    PlaneOf(n, c, ch, h, y, w, x);
    PlaneOf(0, C1(c), ch / 16, h, y, w, x);
    PlaneOf(n, C1(c), ch / 16, h, y, w, x);
    Formula54At(c, h * w, n, ch, pos, ch * (h * w) + pos);
    Formula45At(c, h * w, n, ch, pos, (ch / 16 * (h * w) + pos) * 16 + ch % 16);
  }

  lemma Formula54At(c: nat, hw: nat, n: nat, ch: nat, pos: nat, q: nat)
    requires ch < c && pos < hw && q == ch * hw + pos
    ensures Formula54(c, hw, n, q) == Index5(n, C1(c), ch / 16, hw, pos, ch % 16)
  {
    DivModUnique(q, hw, ch, pos);
    assert RowOf(q, hw) == ch && PosOf(q, hw) == pos;
  }

  lemma Formula45At(c: nat, hw: nat, n: nat, ch: nat, pos: nat, e: nat)
    requires ch < c && pos < hw && e == (ch / 16 * hw + pos) * 16 + ch % 16
    ensures Formula45(c, hw, n, e) == (n * c + ch) * hw + pos && Real(c, hw, e)
  {
    SeatIn(ch / 16, C1(c), hw, pos, ch % 16, e);
    assert 16 * (ch / 16) + ch % 16 == ch;
    Distribute(n * c, ch, hw);
    Assoc(n, c, hw);
  }

  lemma Distribute(a: nat, b: nat, k: nat)
    ensures (a + b) * k == a * k + b * k
  {
  }

  /** Main result: where both programs are safe, running one after the other restores the tensor. */
  method RoundTrip(x: array<Half>, n: nat, c: nat, h: nat, w: nat, five: array<Half>, z: array<Half>, ub: array<Half>,
                   ubSize: nat)
    requires 0 < Plane(h, w) && ValidUb(ubSize) && 2 * ub.Length == ubSize
    requires x != five && x != z && x != ub && five != z && five != ub && z != ub
    requires Safe45(MakePlan(Plane(h, w), true, ubSize), n, c) && Safe54(MakePlan(Plane(h, w), false, ubSize), n, c)
    requires Room(MakePlan(Plane(h, w), true, ubSize), n, c, x.Length, five.Length)
    requires Size5(n, c, Plane(h, w)) + 16 * Spill(Plane(h, w)) <= five.Length
    requires n * Plane(c, Plane(h, w)) + Spill(Plane(h, w)) <= z.Length
    modifies five, z, ub
    ensures forall i: nat, q: nat :: i < n && q < Plane(c, Plane(h, w)) ==>
              At(z[..], Cell(i, Plane(c, Plane(h, w)), q)) == At(x[..], Cell(i, Plane(c, Plane(h, w)), q))
  {
    ghost var hw := Plane(h, w);
    ghost var to, back := MakePlan(hw, true, ubSize), MakePlan(hw, false, ubSize);
    PlanWellTiled(hw, true, ubSize);
    PlanWellTiled(hw, false, ubSize);
    ghost var before, ub0 := five[..], ub[..];
    Four2FiveTheorem.Run(x, n, c, h, w, five, ub, ubSize);
    Four2FiveTheorem.SafeIsRight(to, n, c, x[..], before, ub0);
    ghost var stale := z[..];
    Five2FourTheorem.Run(five, n, c, h, w, z, ub, ubSize);
    Five2FourTheorem.SafeIsRight(back, n, c, five[..], stale);
    forall i: nat, q: nat | i < n && q < Plane(c, hw)
      ensures At(z[..], Cell(i, Plane(c, hw), q)) == At(x[..], Cell(i, Plane(c, hw), q))
    {
      Restored(x[..], before, five[..], stale, z[..], ub0, to, back, n, c, i, q);
    }
  }

  lemma Restored(x: seq<Half>, before: seq<Half>, five: seq<Half>, stale: seq<Half>, z: seq<Half>, ub0: seq<Half>,
                 to: Plan, back: Plan, n: nat, c: nat, i: nat, q: nat)
    requires 0 < to.hw == back.hw && i < n && q < c * to.hw
    requires n * Image5(c, to.hw) <= |five| && n * (c * to.hw) <= |z|
    requires Four2FiveTheorem.Converted(before, five, x, ub0, to, n, c) && RealRightOn(to, n, c, x, before, ub0)
    requires Five2FourTheorem.Converted(stale, z, five, back, n, c, c * to.hw) && RightOn(back, n, c, five, stale)
    ensures At(z, Cell(i, c * to.hw, q)) == At(x, Cell(i, c * to.hw, q))
  {
    var y := Seat(q, to.hw);
    FormulasInverse(c, to.hw, i, q);
    MulStrict(i, n, Image5(c, to.hw));
    MulStrict(i, n, c * to.hw);
  }
}
