/** The `n` and `c1` loops of `_five2four_ir` (auto_schedule/python/dim_conv.py) and its two passes. */
module Five2FourProgram {
  import opened Arith
  import opened Wrappers
  import opened Tiling
  import opened VectorUnit
  import opened Layout
  import opened Five2Four

  function Shifted(base: nat, s: Option<nat>): Option<nat> {
    match s
    case None => None
    case Some(v) => Some(base + v)
  }

  /** Where the group that owns element `q` of image `n` takes it from. */
  function OwnSource(p: Plan, c1: nat, n: nat, q: nat): Option<nat>
  {
    Shifted(GroupBase(n, c1, RowOf(q, p.hw) / 16, p.hw), PlaneSource(p, RowOf(q, p.hw) % 16, PosOf(q, p.hw)))
  }

  /** Where the elements that the last row of a group of `c0` channels spills past its end come from. */
  function SpillSource(p: Plan, c1: nat, n: nat, g: nat, c0: nat, q: nat): Option<nat>
    requires 0 < c0
  {
    Shifted(GroupBase(n, c1, g, p.hw), PlaneSource(p, c0 - 1, p.hw + q))
  }

  /** The value of cell `x` if it comes from `src` in the input, and otherwise was there before. */
  ghost function Fetch(src: Option<nat>, input: seq<Half>, before: seq<Half>, x: nat): Half {
    match src
    case Some(s) => At(input, s)
    case None => At(before, x)
  }

  /** How the cells of the tensor lie around the group that writes `c0` rows from element `start` of image `n`. */
  lemma CellAndGroup(n': nat, q: nat, n: nat, start: nat, size: nat, hw: nat, c0: nat)
    requires 0 < hw && 0 < c0 && start + c0 * hw <= size && q < size
    ensures var x, o := Cell(n', size, q), Cell(n, size, start);
            && (n' < n || (n' == n && q < start) ==> x < o)
            && (n' == n && start <= q < start + c0 * hw ==>
                  o <= x && LastRow(x - o, hw, c0) == (q - start) / hw && Pos(x - o, hw, c0) == (q - start) % hw)
            && (n' > n || (n' == n && start + c0 * hw <= q) ==>
                  o + c0 * hw <= x && LastRow(x - o, hw, c0) == c0 - 1 && Pos(x - o, hw, c0) == x - (o + c0 * hw) + hw)
  {
    var x, o := Cell(n', size, q), Cell(n, size, start);
    if n' < n {
      MulStrict(n', n, size);
    } else {
      if n < n' { MulStrict(n, n', size); }
      if o <= x {
        DivAtLeast(x - o, hw, c0);
        DivFloor(x - o, hw);
        assert c0 * hw == (c0 - 1) * hw + hw;
      }
    }
  }

  /** Rows of image `n` inside group `g`. */
  lemma RowInGroup(q: nat, g: nat, start: nat, hw: nat, c0: nat)
    requires 0 < hw && 0 < c0 <= 16 && start == g * (16 * hw) && start <= q < start + c0 * hw
    ensures (q - start) / hw < c0
    ensures RowOf(q, hw) == 16 * g + (q - start) / hw && PosOf(q, hw) == (q - start) % hw
    ensures RowOf(q, hw) / 16 == g && RowOf(q, hw) % 16 == (q - start) / hw
  {
    var y := q - start;
    DivAtLeast(y, hw, c0);
    var r := y / hw;
    assert g * (16 * hw) == 16 * g * hw;
    RowsAdd(16 * g, y, hw);
    assert (16 * g + r) / 16 == g && (16 * g + r) % 16 == r;
  }

  /** The effect of one group on every cell of the tensor. */
  lemma GroupEffect(before: seq<Half>, after: seq<Half>, input: seq<Half>, p: Plan, c1: nat, size: nat,
                    n: nat, g: nat, c0: nat, start: nat, end: nat, n': nat, q: nat)
    requires 0 < p.hw && 0 < c0 <= 16 && start == g * (16 * p.hw) && end == start + c0 * p.hw && end <= size && q < size
    requires GroupStored(before, after, Cell(n, size, start), input, GroupBase(n, c1, g, p.hw), p, c0)
    requires Cell(n', size, q) < |before|
    ensures var x := Cell(n', size, q);
            && (n' < n || (n' == n && q < start) ==> after[x] == before[x])
            && (n' == n && start <= q < end ==> after[x] == Fetch(OwnSource(p, c1, n, q), input, before, x))
            && (n' > n || (n' == n && end <= q) ==>
                  var over := x - (Cell(n, size, start) + (end - start));
                  && over >= 0
                  && after[x] == if over < Spill(p.hw)
                    then Fetch(SpillSource(p, c1, n, g, c0, over), input, before, x) else before[x])
  {
    var hw := p.hw;
    CellAndGroup(n', q, n, start, size, hw, c0);
    if n' == n && start <= q < end {
      RowInGroup(q, g, start, hw, c0);
    }
  }

  /** What has become of cell `q` of image `m` when groups before `g` of image `n` are done, `done`
      being where group `g` starts.  The cells of those groups have their own values.  If rows need no
      rounding no other cell has changed.  In a pass that does not start at the first group the cells
      before it have changed only where the last row of the previous image spilled. */
  ghost function CellNow(before: seq<Half>, now: seq<Half>, input: seq<Half>, p: Plan, c1: nat,
                         size: nat, pass: Pass, n: nat, g: nat, done: nat, m: nat, q: nat): Half
    requires 0 < pass.c0
  {
    var x := Cell(m, size, q);
    if pass.First(p.hw) <= q < pass.Last(p.hw) && (m < n || (m == n && q < done))
    then Fetch(OwnSource(p, c1, m, q), input, before, x)
    else if Spill(p.hw) == 0 then At(before, x)
    else if 0 < pass.begin && q < pass.First(p.hw) then
      if 0 < m && (m <= n || (m == n + 1 && pass.begin < g)) && q < Spill(p.hw)
      then Fetch(SpillSource(p, c1, m - 1, pass.begin, pass.c0, q), input, before, x)
      else At(before, x)
    else At(now, x)
  }

  /** All cells of the tensor, and the memory after the tensor and its last spill. */
  ghost predicate Progress(before: seq<Half>, now: seq<Half>, input: seq<Half>, p: Plan, c1: nat,
                           images: nat, size: nat, pass: Pass, n: nat, g: nat)
    requires 0 < pass.c0
  {
    && |now| == |before|
    && (forall m: nat, q: nat :: m < images && q < size && Cell(m, size, q) < |now| ==>
          At(now, Cell(m, size, q)) == CellNow(before, now, input, p, c1, size, pass, n, g, g * (16 * p.hw), m, q))
    && (forall x :: images * size + Spill(p.hw) <= x < |now| ==> now[x] == before[x])
  }

  /** A cell is left alone by its own group only where no row is rounded up. */
  lemma NoneMeansNoSpill(p: Plan, c1: nat, n: nat, q: nat)
    requires p.WellTiled() && OwnSource(p, c1, n, q).None?
    ensures Spill(p.hw) == 0
  {
    TailOf(p, RowOf(q, p.hw) % 16, PosOf(q, p.hw));
  }

  ghost predicate NoneOnlyUnspilled(p: Plan, c1: nat) {
    forall n: nat, q: nat :: OwnSource(p, c1, n, q).None? ==> Spill(p.hw) == 0
  }

  lemma WellTiledUnspilled(p: Plan, c1: nat)
    requires p.WellTiled()
    ensures NoneOnlyUnspilled(p, c1)
  {
    forall n: nat, q: nat | OwnSource(p, c1, n, q).None? ensures Spill(p.hw) == 0 { NoneMeansNoSpill(p, c1, n, q); }
  }

  lemma TailOf(p: Plan, row: nat, t: nat)
    requires p.WellTiled() && t < Ceil16(p.hw) && PlaneSource(p, row, t).None?
    ensures Spill(p.hw) == 0
  {
    if p.EmptyTail() {
      EmptyTailSource(p, row, t);
      LastCeil(p);
      WholeBlocksNeedNoSpill(p.hw);
    }
  }

  /** Where group `g` lies among the rows of its pass: from `start` to `end`. */
  predicate Window(pass: Pass, hw: nat, size: nat, g: nat, start: nat, end: nat) {
    && pass.First(hw) <= start <= end <= pass.Last(hw) <= size && end <= start + 16 * hw
    && (end == start + 16 * hw || end == pass.Last(hw))
    && (0 < pass.begin ==> g == pass.begin && end == size && 16 <= pass.First(hw))
  }

  /** One group takes every cell one step on. */
  lemma CellStep(before: seq<Half>, old_: seq<Half>, now: seq<Half>, input: seq<Half>, p: Plan, c1: nat,
                 size: nat, pass: Pass, n: nat, g: nat, start: nat, end: nat, m: nat, q: nat)
    requires 0 < p.hw && 0 < pass.c0 <= 16 && Window(pass, p.hw, size, g, start, end)
    requires OwnSource(p, c1, m, q).None? ==> Spill(p.hw) == 0
    requires q < size && Cell(m, size, q) < |before| == |old_| == |now|
    requires start == g * (16 * p.hw) && end == start + pass.c0 * p.hw
    requires At(old_, Cell(m, size, q)) == CellNow(before, old_, input, p, c1, size, pass, n, g, start, m, q)
    requires GroupStored(old_, now, Cell(n, size, start), input, GroupBase(n, c1, g, p.hw), p, pass.c0)
    ensures At(now, Cell(m, size, q)) ==
      CellNow(before, now, input, p, c1, size, pass, n, g + 1, start + 16 * p.hw, m, q)
  {
    GroupEffect(old_, now, input, p, c1, size, n, g, pass.c0, start, end, m, q);
    if m < n || (m == n && q < end) {
      DoneCellStep(before, old_, now, input, p, c1, size, pass, n, g, start, end, m, q);
    } else {
      LaterCellStep(before, old_, now, input, p, c1, size, pass, n, g, start, end, m, q);
    }
  }

  /** A cell before the end of the group. */
  lemma DoneCellStep(before: seq<Half>, old_: seq<Half>, now: seq<Half>, input: seq<Half>, p: Plan, c1: nat,
                     size: nat, pass: Pass, n: nat, g: nat, start: nat, end: nat, m: nat, q: nat)
    requires 0 < pass.c0 && Cell(m, size, q) < |before| == |old_| == |now| && Window(pass, p.hw, size, g, start, end)
    requires OwnSource(p, c1, m, q).None? ==> Spill(p.hw) == 0
    requires At(old_, Cell(m, size, q)) == CellNow(before, old_, input, p, c1, size, pass, n, g, start, m, q)
    requires m < n || (m == n && q < end)
    requires if m == n && start <= q
      then now[Cell(m, size, q)] == Fetch(OwnSource(p, c1, n, q), input, old_, Cell(m, size, q))
             else now[Cell(m, size, q)] == old_[Cell(m, size, q)]
    ensures At(now, Cell(m, size, q)) ==
      CellNow(before, now, input, p, c1, size, pass, n, g + 1, start + 16 * p.hw, m, q)
  {
  }

  lemma LaterCellStep(before: seq<Half>, old_: seq<Half>, now: seq<Half>, input: seq<Half>, p: Plan, c1: nat,
                      size: nat, pass: Pass, n: nat, g: nat, start: nat, end: nat, m: nat, q: nat)
    requires 0 < pass.c0 && q < size && Cell(m, size, q) < |before| == |old_| == |now|
    requires Window(pass, p.hw, size, g, start, end)
    requires At(old_, Cell(m, size, q)) == CellNow(before, old_, input, p, c1, size, pass, n, g, start, m, q)
    requires m > n || (m == n && end <= q)
    requires var x := Cell(m, size, q);
             var over := x - (Cell(n, size, start) + (end - start));
             over >= 0 && now[x] == if over < Spill(p.hw)
               then Fetch(SpillSource(p, c1, n, g, pass.c0, over), input, old_, x) else old_[x]
    ensures At(now, Cell(m, size, q)) ==
      CellNow(before, now, input, p, c1, size, pass, n, g + 1, start + 16 * p.hw, m, q)
  {
    assert !(m == n && q < start + 16 * p.hw && q < pass.Last(p.hw));
    if 0 < pass.begin { OverFrom(n, size, start, end, m, q, Spill(p.hw)); }
  }

  lemma OverFrom(n: nat, size: nat, start: nat, end: nat, m: nat, q: nat, spill: nat)
    requires q < size && m > n && end == size && start <= end && spill <= size
    ensures var over := Cell(m, size, q) - (Cell(n, size, start) + (end - start));
            if m == n + 1 then over == q else over >= spill
  {
    if m > n + 1 { MulStrict(n + 1, m, size); }
  }

  /** One group of one image. */
  method IntrinGroup(input: array<Half>, output: array<Half>, ub: array<Half>, va: seq<nat>, p: Plan,
                     images: nat, channels: nat, c1: nat, pass: Pass, n: nat, g: nat, ghost before: seq<Half>)
    requires p.WellTiled() && p.tile.bufMax < BURST && Configured(va, 16, p.col, p.tile.bufMax)
    requires input != ub && output != ub && input != output && p.Allocated(false) <= ub.Length
    requires pass.Fits(p.hw, channels * p.hw) && pass.begin <= g < pass.end <= c1 && n < images
    requires Sum(images * c1, 16 * p.hw) + 16 * Spill(p.hw) <= input.Length
    requires images * (channels * p.hw) + Spill(p.hw) <= output.Length
    requires Progress(before, output[..], input[..], p, c1, images, channels * p.hw, pass, n, g)
    modifies output, ub
    ensures Progress(before, output[..], input[..], p, c1, images, channels * p.hw, pass, n, g + 1)
  {
    ghost var stored := output[..];
    GroupRoom(pass, g, p.hw, n, images, channels, c1);
    var inBase := n * c1 * 16 * p.hw + g * 16 * p.hw;
    var outBase := n * channels * p.hw + g * 16 * p.hw;
    RunGroup(input, inBase, output, outBase, ub, va, p, pass.c0);
    WellTiledUnspilled(p, c1);
    ProgressStep(before, stored, output[..], input[..], p, c1, images, channels * p.hw, pass, n, g);
  }

  /** `_five2four_intrin`. */
  method Intrin(input: array<Half>, output: array<Half>, ub: array<Half>, va: seq<nat>, p: Plan,
                images: nat, channels: nat, c1: nat, pass: Pass)
    requires p.WellTiled() && p.tile.bufMax < BURST && Configured(va, 16, p.col, p.tile.bufMax)
    requires input != ub && output != ub && input != output && p.Allocated(false) <= ub.Length
    requires pass.Fits(p.hw, channels * p.hw) && pass.end <= c1
    requires Sum(images * c1, 16 * p.hw) + 16 * Spill(p.hw) <= input.Length
    requires images * (channels * p.hw) + Spill(p.hw) <= output.Length
    modifies output, ub
    ensures Progress(old(output[..]), output[..], input[..], p, c1, images, channels * p.hw, pass, images, pass.begin)
  {
    ghost var size := channels * p.hw;
    NoProgress(output[..], input[..], p, c1, images, size, pass);
    var n := 0;
    while n < images
      invariant 0 <= n <= images
      invariant Progress(old(output[..]), output[..], input[..], p, c1, images, size, pass, n, pass.begin)
    {
      var g := 0;
      while g < pass.end - pass.begin
        invariant 0 <= g <= pass.end - pass.begin
        invariant Progress(old(output[..]), output[..], input[..], p, c1, images, size, pass, n, g + pass.begin)
      {
        IntrinGroup(input, output, ub, va, p, images, channels, c1, pass, n, g + pass.begin, old(output[..]));
        g := g + 1;
      }
      ImageDone(old(output[..]), output[..], input[..], p, c1, images, size, pass, n);
      n := n + 1;
    }
  }

  lemma NoProgress(before: seq<Half>, input: seq<Half>, p: Plan, c1: nat, images: nat, size: nat, pass: Pass)
    requires 0 < pass.c0
    ensures Progress(before, before, input, p, c1, images, size, pass, 0, pass.begin)
  {
  }

  /** The offsets of one group, as the program computes them, and the room they leave. */
  lemma GroupRoom(pass: Pass, g: nat, hw: nat, n: nat, images: nat, channels: nat, c1: nat)
    requires 0 < hw && pass.Fits(hw, channels * hw) && pass.begin <= g < pass.end <= c1 && n < images
    ensures n * c1 * 16 * hw + g * 16 * hw == GroupBase(n, c1, g, hw)
    ensures n * channels * hw + g * 16 * hw == Cell(n, channels * hw, g * (16 * hw))
    ensures GroupBase(n, c1, g, hw) + 16 * hw <= Sum(images * c1, 16 * hw)
    ensures Cell(n, channels * hw, g * (16 * hw)) + (pass.c0 - 1) * hw + hw <= images * (channels * hw)
  {
    GroupOffsets(n, channels, c1, g, hw);
    assert n * c1 + g < images * c1 by { MulStrict(n, images, c1); }
    SumStrict(n * c1 + g, images * c1, 16 * hw);
    ImageRoom(n, images, channels * hw, g * (16 * hw), pass.c0, hw) by { PassStep(pass, g, hw, channels * hw); }
  }

  lemma GroupOffsets(n: nat, channels: nat, c1: nat, g: nat, hw: nat)
    ensures n * c1 * 16 * hw + g * 16 * hw == GroupBase(n, c1, g, hw)
    ensures n * channels * hw + g * 16 * hw == Cell(n, channels * hw, g * (16 * hw))
  {
    SumIs(n * c1 + g, 16 * hw);
    assert n * c1 * 16 * hw + g * 16 * hw == (n * c1 + g) * (16 * hw);
    assert n * channels * hw == n * (channels * hw);
  }

  lemma ImageRoom(n: nat, images: nat, size: nat, start: nat, c0: nat, hw: nat)
    requires n < images && 0 < c0 && start + c0 * hw <= size
    ensures Cell(n, size, start) + (c0 - 1) * hw + hw <= images * size
  {
    MulStrict(n, images, size);
    assert (c0 - 1) * hw + hw == c0 * hw;
  }

  lemma ProgressStep(before: seq<Half>, old_: seq<Half>, now: seq<Half>, input: seq<Half>, p: Plan, c1: nat,
                     images: nat, size: nat, pass: Pass, n: nat, g: nat)
    requires 0 < p.hw && NoneOnlyUnspilled(p, c1) && pass.Fits(p.hw, size) && pass.begin <= g < pass.end && n < images
    requires Progress(before, old_, input, p, c1, images, size, pass, n, g)
    requires GroupStored(old_, now, Cell(n, size, g * (16 * p.hw)), input, GroupBase(n, c1, g, p.hw), p, pass.c0)
    ensures Progress(before, now, input, p, c1, images, size, pass, n, g + 1)
  {
    var start := g * (16 * p.hw);
    GroupWindow(pass, g, p.hw, size);
    CellsStep(before, old_, now, input, p, c1, images, size, pass, n, g, start);
    NextStart(g, p.hw);
    RestStep(before, old_, now, input, p, images, size, pass.c0, n, start, GroupBase(n, c1, g, p.hw));
  }

  /** And the memory after them. */
  lemma RestStep(before: seq<Half>, old_: seq<Half>, now: seq<Half>, input: seq<Half>, p: Plan, images: nat, size: nat,
                 c0: nat,
                 n: nat, start: nat, base: nat)
    requires 0 < p.hw && 0 < c0 && n < images && start + c0 * p.hw <= size && |before| == |old_| == |now|
    requires forall x :: images * size + Spill(p.hw) <= x < |old_| ==> old_[x] == before[x]
    requires GroupStored(old_, now, Cell(n, size, start), input, base, p, c0)
    ensures forall x :: images * size + Spill(p.hw) <= x < |now| ==> now[x] == before[x]
  {
    forall x | images * size + Spill(p.hw) <= x < |now|
      ensures now[x] == before[x]
    {
      BeyondGroup(p, c0, n, images, size, start, x);
    }
  }

  lemma GroupWindow(pass: Pass, g: nat, hw: nat, size: nat)
    requires 0 < hw && pass.Fits(hw, size) && pass.begin <= g < pass.end
    ensures Window(pass, hw, size, g, g * (16 * hw), g * (16 * hw) + pass.c0 * hw)
  {
    PassStep(pass, g, hw, size);
  }

  /** All cells at once, `start` being where group `g` starts. */
  lemma CellsStep(before: seq<Half>, old_: seq<Half>, now: seq<Half>, input: seq<Half>, p: Plan, c1: nat,
                  images: nat, size: nat, pass: Pass, n: nat, g: nat, start: nat)
    requires 0 < p.hw && NoneOnlyUnspilled(p, c1)
    requires 0 < pass.c0 <= 16 && Window(pass, p.hw, size, g, start, start + pass.c0 * p.hw) && start == g * (16 * p.hw)
    requires |before| == |old_| == |now|
    requires forall m: nat, q: nat :: m < images && q < size && Cell(m, size, q) < |now| ==>
      At(old_, Cell(m, size, q)) == CellNow(before, old_, input, p, c1, size, pass, n, g, start, m, q)
    requires GroupStored(old_, now, Cell(n, size, start), input, GroupBase(n, c1, g, p.hw), p, pass.c0)
    ensures forall m: nat, q: nat :: m < images && q < size && Cell(m, size, q) < |now| ==>
      At(now, Cell(m, size, q)) == CellNow(before, now, input, p, c1, size, pass, n, g + 1, start + 16 * p.hw, m, q)
  {
    forall m: nat, q: nat | m < images && q < size && Cell(m, size, q) < |now|
      ensures At(now, Cell(m, size, q)) ==
        CellNow(before, now, input, p, c1, size, pass, n, g + 1, start + 16 * p.hw, m, q)
    {
      CellStep(before, old_, now, input, p, c1, size, pass, n, g, start, start + pass.c0 * p.hw, m, q);
    }
  }

  lemma BeyondGroup(p: Plan, c0: nat, n: nat, images: nat, size: nat, start: nat, x: nat)
    requires 0 < p.hw && 0 < c0 && n < images && start + c0 * p.hw <= size && images * size + Spill(p.hw) <= x
    ensures Cell(n, size, start) <= x && GroupSource(p, c0, x - Cell(n, size, start)).None?
  {
    MulStrict(n, images, size);
    var y := x - Cell(n, size, start);
    assert c0 * p.hw == (c0 - 1) * p.hw + p.hw;
    LastRowIs(y, p.hw, c0, c0 - 1);
  }

  lemma ImageDone(before: seq<Half>, now: seq<Half>, input: seq<Half>, p: Plan, c1: nat,
                  images: nat, size: nat, pass: Pass, n: nat)
    requires 0 < p.hw && pass.Fits(p.hw, size)
    requires Progress(before, now, input, p, c1, images, size, pass, n, pass.end)
    ensures Progress(before, now, input, p, c1, images, size, pass, n + 1, pass.begin)
  {
    forall m: nat, q: nat | m < images && q < size && Cell(m, size, q) < |now|
      ensures At(now, Cell(m, size, q)) ==
        CellNow(before, now, input, p, c1, size, pass, n + 1, pass.begin, pass.begin * (16 * p.hw), m, q)
    {
      if pass.begin < pass.end { PassStep(pass, pass.end - 1, p.hw, size); }
      assert At(now, Cell(m, size, q)) ==
        CellNow(before, now, input, p, c1, size, pass, n, pass.end, pass.end * (16 * p.hw), m, q);
    }
  }
}
