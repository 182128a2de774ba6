/** The `n` and `c1` loops of `_four2five_ir` (auto_schedule/python/dim_conv.py) and its two passes. */
module Four2FiveProgram {
  import opened Arith
  import opened Tiling
  import opened VectorUnit
  import opened Layout
  import opened Four2Five

  /** Where group `g` of image `n` starts in the NCHW tensor, and where the branch for full chunks of a
      plane that takes several looks for it: it multiplies by the cube of the batch size. */
  function Good(n: nat, c: nat, g: nat, hw: nat): nat { n * (c * hw) + g * (16 * hw) }
  function Bad(n: nat, images: nat, g: nat, hw: nat): nat { n * Cube(images) + g * (16 * hw) }

  /** Group, position and channel of element `y` of an NC1HWC0 image. */
  function GroupOf(y: nat, hw: nat): nat { RowOf(y, 16 * hw) }
  function PosIn(y: nat, hw: nat): nat { PosOf(y, 16 * hw) / 16 }
  function ChannelIn(y: nat): nat { y % 16 }

  /** fp16 elements of an NC1HWC0 image. */
  function Image5(c: nat, hw: nat): nat { C1(c) * (16 * hw) }

  /** What a group with `c0` channels puts in element `y` of image `m`. */
  ghost function CellValue(input: seq<Half>, ub0: seq<Half>, p: Plan, images: nat, c: nat, c0: nat, m: nat,
                           y: nat): Half
  {
    var g := GroupOf(y, p.hw);
    GroupValue(input, Good(m, c, g, p.hw), Bad(m, images, g, p.hw), ub0, p, c0, PosIn(y, p.hw), ChannelIn(y))
  }

  /** One call of `_four2five_intrin`, before group `g` of image `n`: the cells of the groups before it
      have their values, no other cell has changed, and the UB rows past the pass's channels are those
      it started with. */
  ghost predicate Progress(before: seq<Half>, now: seq<Half>, ub0: seq<Half>, ub: seq<Half>, input: seq<Half>, p: Plan,
                           images: nat, c: nat, pass: Pass, n: nat, g: nat)
  {
    && |now| == |before| && RestKept(ub0, ub, p.col, pass.c0)
    && (forall m: nat, y: nat :: m < images && y < Image5(c, p.hw) && Cell(m, Image5(c, p.hw), y) < |now| ==>
          At(now, Cell(m, Image5(c, p.hw), y)) ==
            if pass.begin * (16 * p.hw) <= y < pass.end * (16 * p.hw) && (m < n || (m == n && y < g * (16 * p.hw))) &&
              Written(p, PosIn(y, p.hw))
            then CellValue(input, ub0, p, images, c, pass.c0, m, y)
            else At(before, Cell(m, Image5(c, p.hw), y)))
    && (forall x :: images * Image5(c, p.hw) <= x < |now| ==> now[x] == before[x])
  }

  /** The input half of the UB still holds what the last group of image `n` loaded. */
  ghost predicate HoldsGroup(ub: seq<Half>, input: seq<Half>, p: Plan, images: nat, c: nat, c0: nat, n: nat, g: nat) {
    forall j: nat, t: nat :: j < c0 && t < p.col ==>
      At(ub, Loaded(p.col, j, t)) ==
        At(input, LastLoaded(p, Good(n, c, g, p.hw), Bad(n, images, g, p.hw), t) + j * p.hw)
  }

  lemma CellInGroup(y: nat, g: nat, hw: nat)
    requires 0 < hw
    ensures g * (16 * hw) <= y < (g + 1) * (16 * hw) <==> GroupOf(y, hw) == g
    ensures GroupOf(y, hw) == g ==>
      PosIn(y, hw) == (y - g * (16 * hw)) / 16 < hw && ChannelIn(y) == (y - g * (16 * hw)) % 16
    ensures (g + 1) * (16 * hw) == g * (16 * hw) + 16 * hw
  {
    var k := 16 * hw;
    DivAtLeast(y, k, g);
    DivAtLeast(y, k, g + 1);
    if GroupOf(y, hw) == g {
      DivFloor(y, k);
      assert g * k == 16 * (g * hw);
      InBlock(y, y - g * k, g * hw, hw);
    }
  }

  lemma InBlock(y: nat, r: nat, b: nat, hw: nat)
    requires y == 16 * b + r && r < 16 * hw
    ensures y % 16 == r % 16 && r / 16 < hw
  {
  }

  /** The effect of one group on every cell. */
  lemma GroupEffect(before: seq<Half>, after: seq<Half>, input: seq<Half>, ub: seq<Half>, p: Plan,
                    images: nat, c: nat, n: nat, g: nat, c0: nat, m: nat, y: nat)
    requires 0 < p.hw && g < C1(c) && y < Image5(c, p.hw) && Cell(m, Image5(c, p.hw), y) < |before|
    requires GroupStored(before, after, Cell(n, Image5(c, p.hw), g * (16 * p.hw)), input, Good(n, c, g, p.hw),
      Bad(n, images, g, p.hw), ub, p, c0)
    ensures At(after, Cell(m, Image5(c, p.hw), y)) ==
            if m == n && GroupOf(y, p.hw) == g &&
              Written(p, PosIn(y, p.hw)) then CellValue(input, ub, p, images, c, c0, n, y)
            else At(before, Cell(m, Image5(c, p.hw), y))
  {
    var size, start := Image5(c, p.hw), g * (16 * p.hw);
    CellInGroup(y, g, p.hw);
    MulMono(g + 1, C1(c), 16 * p.hw);
    Apart(m, y, n, start, size);
    if Cell(n, size, start) <= Cell(m, size, y) && !(m == n && GroupOf(y, p.hw) == g) {
      BeyondGroup(Cell(m, size, y) - Cell(n, size, start), p.hw);
    }
  }

  /** Cells of other images are before, or an image's rest after, a group that starts at `start`. */
  lemma Apart(m: nat, y: nat, n: nat, start: nat, size: nat)
    requires y < size && start <= size
    ensures m < n ==> Cell(m, size, y) < Cell(n, size, start)
    ensures n < m ==> Cell(n, size, start) + (size - start) <= Cell(m, size, y)
  {
    if m < n { MulStrict(m, n, size); }
    if n < m { MulStrict(n, m, size); }
  }

  lemma BeyondGroup(over: nat, hw: nat)
    requires 16 * hw <= over
    ensures over / 16 >= hw
  {
  }

  lemma ProgressStep(before: seq<Half>, old_: seq<Half>, now: seq<Half>, ub0: seq<Half>, ub: seq<Half>, ub': seq<Half>,
                     input: seq<Half>, p: Plan, images: nat, c: nat, pass: Pass, n: nat, g: nat)
    requires 0 < p.hw && 0 < p.col && 0 < pass.c0 && pass.begin <= g < pass.end <= C1(c) && n < images
    requires Progress(before, old_, ub0, ub, input, p, images, c, pass, n, g)
    requires GroupStored(old_, now, Cell(n, Image5(c, p.hw), g * (16 * p.hw)), input, Good(n, c, g, p.hw),
      Bad(n, images, g, p.hw), ub, p, pass.c0)
    requires GroupLoaded(ub, ub', input, Good(n, c, g, p.hw), Bad(n, images, g, p.hw), p, pass.c0)
    ensures Progress(before, now, ub0, ub', input, p, images, c, pass, n, g + 1)
  {
    var size, k := Image5(c, p.hw), 16 * p.hw;
    Bounds(pass, g, C1(c), k);
    forall m: nat, y: nat | m < images && y < size && Cell(m, size, y) < |now|
      ensures At(now, Cell(m, size, y)) ==
            if pass.begin * (16 * p.hw) <= y < pass.end * (16 * p.hw) &&
              (m < n || (m == n && y < (g + 1) * (16 * p.hw))) && Written(p, PosIn(y, p.hw))
            then CellValue(input, ub0, p, images, c, pass.c0, m, y)
            else At(before, Cell(m, size, y))
    {
      CellInGroup(y, g, p.hw);
      GroupEffect(old_, now, input, ub, p, images, c, n, g, pass.c0, m, y);
      SameValue(input, ub0, ub, p, images, c, pass.c0, m, y);
    }
    RestStep(before, old_, now, input, ub, p, images, c, pass.c0, n, g, Good(n, c, g, p.hw), Bad(n, images, g, p.hw));
  }

  lemma Bounds(pass: Pass, g: nat, c1: nat, k: nat)
    requires pass.begin <= g < pass.end <= c1
    ensures pass.begin * k <= g * k && g * k + k == (g + 1) * k <= pass.end * k
  {
    MulMono(pass.begin, g, k);
    MulMono(g + 1, pass.end, k);
  }

  /** The memory after the tensor. */
  lemma RestStep(before: seq<Half>, old_: seq<Half>, now: seq<Half>, input: seq<Half>, ub: seq<Half>, p: Plan,
                 images: nat, c: nat, c0: nat, n: nat, g: nat, good: nat, bad: nat)
    requires g < C1(c) && n < images && |before| == |old_| == |now|
    requires forall x :: images * Image5(c, p.hw) <= x < |old_| ==> old_[x] == before[x]
    requires GroupStored(old_, now, Cell(n, Image5(c, p.hw), g * (16 * p.hw)), input, good, bad, ub, p, c0)
    ensures forall x :: images * Image5(c, p.hw) <= x < |now| ==> now[x] == before[x]
  {
    ImageRoom(n, images, c, g, p.hw);
  }

  lemma SameValue(input: seq<Half>, ub0: seq<Half>, ub: seq<Half>, p: Plan, images: nat, c: nat, c0: nat, m: nat,
                  y: nat)
    requires 0 < p.col && RestKept(ub0, ub, p.col, c0)
    ensures CellValue(input, ub0, p, images, c, c0, m, y) == CellValue(input, ub, p, images, c, c0, m, y)
  {
  }

  /** The memory the program touches: the tensors, less than a block after the input, and what the
      wrong batch offset of full chunks reaches. */
  predicate Room(p: Plan, images: nat, c: nat, inputLength: nat, outputLength: nat) {
    && images * (c * p.hw) + Spill(p.hw) <= inputLength
    && (p.Multi() && 0 < images ==> (images - 1) * Cube(images) + c * p.hw <= inputLength)
    && images * Image5(c, p.hw) <= outputLength
  }

  predicate Ready(p: Plan, va: seq<nat>, pass: Pass, images: nat, c: nat, inputLength: nat, outputLength: nat,
                  ubLength: nat)
  {
    && p.WellTiled() && p.tile.bufMax < BURST && Configured(va, p.col, 16, p.tile.bufMax)
    && p.Allocated(true) <= ubLength
    && pass.Fits(p.hw, c * p.hw) && pass.end <= C1(c) && Room(p, images, c, inputLength, outputLength)
  }

  /** The last row of a group lies within the tensor, and within what the wrong offset reaches. */
  lemma GroupRoom(images: nat, c: nat, n: nat, g: nat, hw: nat, c0: nat)
    requires 0 < c0 && g * (16 * hw) + c0 * hw <= c * hw && g < C1(c) && n < images
    ensures Good(n, c, g, hw) + (c0 - 1) * hw + hw <= images * (c * hw)
    ensures Bad(n, images, g, hw) + (c0 - 1) * hw + hw <= (images - 1) * Cube(images) + c * hw
    ensures Cell(n, Image5(c, hw), g * (16 * hw)) + 16 * hw <= images * Image5(c, hw)
  {
    var start, rows, last := g * (16 * hw), c0 * hw, (c0 - 1) * hw;
    LastRowRoom(c0, hw);
    GoodRoom(n, images, c * hw, start, rows, last, hw);
    BadRoom(n, images, Cube(images), c * hw, start, rows, last, hw);
    ImageRoom(n, images, c, g, hw);
  }

  lemma GoodRoom(n: nat, images: nat, size: nat, start: nat, rows: nat, last: nat, hw: nat)
    requires n < images && start + rows <= size && last + hw == rows
    ensures n * size + start + last + hw <= images * size
  {
    MulStrict(n, images, size);
  }

  lemma BadRoom(n: nat, images: nat, cube: nat, size: nat, start: nat, rows: nat, last: nat, hw: nat)
    requires n < images && start + rows <= size && last + hw == rows
    ensures n * cube + start + last + hw <= (images - 1) * cube + size
  {
    MulMono(n, images - 1, cube);
  }

  lemma LastRowRoom(c0: nat, hw: nat)
    requires 0 < c0
    ensures (c0 - 1) * hw + hw == c0 * hw
  {
  }

  lemma ImageRoom(n: nat, images: nat, c: nat, g: nat, hw: nat)
    requires n < images && g < C1(c)
    ensures Cell(n, Image5(c, hw), g * (16 * hw)) + 16 * hw <= images * Image5(c, hw)
  {
    MulStrict(n, images, Image5(c, hw));
    MulStrict(g, C1(c), 16 * hw);
  }

  lemma Offsets(n: nat, images: nat, c: nat, g: nat, hw: nat)
    ensures n * c * hw + g * 16 * hw == Good(n, c, g, hw)
    ensures n * images * images * images + g * 16 * hw == Bad(n, images, g, hw)
    ensures n * (C1(c) * 16) * hw + g * 16 * hw == Cell(n, Image5(c, hw), g * (16 * hw))
  {
    assert g * 16 * hw == g * (16 * hw);
    assert n * c * hw == n * (c * hw);
    CubeIs(images);
    FourFactors(n, images);
    var k := C1(c);
    assert n * (k * 16) * hw == n * (k * (16 * hw)) by {
      Assoc(n, k * 16, hw);
      Assoc(k, 16, hw);
    }
  }

  lemma FourFactors(n: nat, m: nat)
    ensures n * m * m * m == n * (m * m * m)
  {
    Assoc(n, m * m, m);
    Assoc(n, m, m);
  }

  lemma Assoc(a: nat, b: nat, c: nat)
    ensures a * b * c == a * (b * c)
  {
  }

  /** Between two groups of an image: what holds of the output, and of the UB since the image began. */
  ghost predicate GroupsDone(before: seq<Half>, now: seq<Half>, ub0: seq<Half>, start: seq<Half>, ub: seq<Half>,
                             input: seq<Half>,
                             p: Plan, images: nat, c: nat, pass: Pass, n: nat, g: nat)
  {
    && Progress(before, now, ub0, ub, input, p, images, c, pass, n, g)
    && (pass.begin == g ==> ub == start)
    && (pass.begin < g ==> HoldsGroup(ub, input, p, images, c, pass.c0, n, g - 1))
  }

  /** All groups of one image. */
  method IntrinImage(input: array<Half>, output: array<Half>, ub: array<Half>, va: seq<nat>, p: Plan,
                     images: nat, c: nat, pass: Pass, n: nat, ghost before: seq<Half>, ghost ub0: seq<Half>)
    requires input != ub && output != ub && input != output
    requires Ready(p, va, pass, images, c, input.Length, output.Length, ub.Length)
    requires n < images && Progress(before, output[..], ub0, ub[..], input[..], p, images, c, pass, n, pass.begin)
    modifies output, ub
    ensures Progress(before, output[..], ub0, ub[..], input[..], p, images, c, pass, n, pass.end)
    ensures pass.begin < pass.end ==> HoldsGroup(ub[..], input[..], p, images, c, pass.c0, n, pass.end - 1)
    ensures pass.begin == pass.end ==> ub[..] == old(ub[..])
  {
    var g := pass.begin;
    while g < pass.end
      invariant pass.begin <= g <= pass.end
      invariant GroupsDone(before, output[..], ub0, old(ub[..]), ub[..], input[..], p, images, c, pass, n, g)
    {
      IntrinGroup(input, output, ub, va, p, images, c, pass, n, g, before, ub0);
      g := g + 1;
    }
  }

  /** `_four2five_intrin`. */
  method Intrin(input: array<Half>, output: array<Half>, ub: array<Half>, va: seq<nat>, p: Plan,
                images: nat, c: nat, pass: Pass)
    requires input != ub && output != ub && input != output
    requires Ready(p, va, pass, images, c, input.Length, output.Length, ub.Length)
    modifies output, ub
    ensures Progress(old(output[..]), output[..], old(ub[..]), ub[..], input[..], p, images, c, pass, images,
      pass.begin)
    ensures pass.begin == pass.end ==> ub[..] == old(ub[..])
    ensures 0 < images && pass.begin < pass.end ==>
      HoldsGroup(ub[..], input[..], p, images, c, pass.c0, images - 1, pass.end - 1)
  {
    NoProgress(output[..], ub[..], input[..], p, images, c, pass);
    var n := 0;
    while n < images
      invariant 0 <= n <= images
      invariant Progress(old(output[..]), output[..], old(ub[..]), ub[..], input[..], p, images, c, pass, n, pass.begin)
      invariant pass.begin == pass.end ==> ub[..] == old(ub[..])
      invariant 0 < n && pass.begin < pass.end ==>
        HoldsGroup(ub[..], input[..], p, images, c, pass.c0, n - 1, pass.end - 1)
    {
      IntrinImage(input, output, ub, va, p, images, c, pass, n, old(output[..]), old(ub[..]));
      ImageDone(old(output[..]), output[..], old(ub[..]), ub[..], input[..], p, images, c, pass, n);
      n := n + 1;
    }
  }

  lemma NoProgress(before: seq<Half>, ub: seq<Half>, input: seq<Half>, p: Plan, images: nat, c: nat, pass: Pass)
    ensures Progress(before, before, ub, ub, input, p, images, c, pass, 0, pass.begin)
  {
  }

  /** One group of one image. */
  method IntrinGroup(input: array<Half>, output: array<Half>, ub: array<Half>, va: seq<nat>, p: Plan,
                     images: nat, c: nat, pass: Pass, n: nat, g: nat, ghost before: seq<Half>, ghost ub0: seq<Half>)
    requires input != ub && output != ub && input != output
    requires Ready(p, va, pass, images, c, input.Length, output.Length, ub.Length)
    requires pass.begin <= g < pass.end && n < images
    requires Progress(before, output[..], ub0, ub[..], input[..], p, images, c, pass, n, g)
    modifies output, ub
    ensures Progress(before, output[..], ub0, ub[..], input[..], p, images, c, pass, n, g + 1)
    ensures HoldsGroup(ub[..], input[..], p, images, c, pass.c0, n, g)
  {
    ghost var stored, loaded := output[..], ub[..];
    Offsets(n, images, c, g, p.hw);
    GroupInside(pass, g, p.hw, c * p.hw);
    GroupRoom(images, c, n, g, p.hw, pass.c0);
    var good := n * c * p.hw + g * 16 * p.hw;
    var bad := n * images * images * images + g * 16 * p.hw;
    var outBase := n * (C1(c) * 16) * p.hw + g * 16 * p.hw;
    RunGroup(input, good, bad, output, outBase, ub, va, p, pass.c0);
    ProgressStep(before, stored, output[..], ub0, loaded, ub[..], input[..], p, images, c, pass, n, g);
  }

  lemma ImageDone(before: seq<Half>, now: seq<Half>, ub0: seq<Half>, ub: seq<Half>, input: seq<Half>, p: Plan,
                  images: nat, c: nat, pass: Pass, n: nat)
    requires Progress(before, now, ub0, ub, input, p, images, c, pass, n, pass.end)
    ensures Progress(before, now, ub0, ub, input, p, images, c, pass, n + 1, pass.begin)
  {
  }
}
