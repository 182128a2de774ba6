/** What the program of `_four2five_ir` does to the tensor, and exactly when that is the conversion
    `convert_4d_to_5d_for_protogenes` defines (auto_schedule/python/dim_conv.py). */
module Four2FiveTheorem {
  import opened Arith
  import opened Tiling
  import opened VectorUnit
  import opened Layout
  import opened Four2Five
  import opened Four2FiveProgram

  /** Channels of group `g`. */
  function Channels(c: nat, g: nat): nat { if g < c / 16 then 16 else c % 16 }

  /** Whether element `y` of an image belongs to a channel of the NCHW tensor. */
  predicate Real(c: nat, hw: nat, y: nat) { 16 * GroupOf(y, hw) + ChannelIn(y) < c }

  /** The defining formula: where element `y` of image `m` comes from if its channel is real. */
  function Formula45(c: nat, hw: nat, m: nat, y: nat): nat {
    m * (c * hw) + (16 * GroupOf(y, hw) + ChannelIn(y)) * hw + PosIn(y, hw)
  }

  /** Where the program takes it from instead. */
  function RealSource(p: Plan, images: nat, c: nat, m: nat, y: nat): nat {
    var g := GroupOf(y, p.hw);
    RowElement(ChunkSource(p, Good(m, c, g, p.hw), Bad(m, images, g, p.hw), PosIn(y, p.hw)), ChannelIn(y), p.hw)
  }

  function RowElement(first: nat, row: nat, hw: nat): nat { first + row * hw }

  /** The last full group of a tensor that has one. */
  function LastGroup(c: nat): nat { if c < 16 then 0 else c / 16 - 1 }

  /** What fills channel `j` of the partial group at position `t` of a chunk, if there are full groups. */
  function PadSource(p: Plan, images: nat, c: nat, t: nat, j: nat): nat {
    var n, g := if images == 0 then 0 else images - 1, LastGroup(c);
    RowElement(LastLoaded(p, Good(n, c, g, p.hw), Bad(n, images, g, p.hw), t), j, p.hw)
  }

  /** What the program leaves in element `y` of image `m`.  The padding of the partial group is what the
      UB held when the second pass began: the last full group of the first pass, or, if there is none,
      whatever was there before. */
  ghost function Value45(p: Plan, images: nat, c: nat, input: seq<Half>, before: seq<Half>, ub: seq<Half>, m: nat,
                         y: nat): Half
  {
    var t := PosOf(PosIn(y, p.hw), p.col);
    if !Written(p, PosIn(y, p.hw)) then At(before, Cell(m, Image5(c, p.hw), y))
    else if ChannelIn(y) < Channels(c, GroupOf(y, p.hw)) then At(input, RealSource(p, images, c, m, y))
    else if c < 16 then At(ub, Loaded(p.col, ChannelIn(y), t))
    else At(input, PadSource(p, images, c, t, ChannelIn(y)))
  }

  ghost predicate Converted(before: seq<Half>, after: seq<Half>, input: seq<Half>, ub: seq<Half>, p: Plan, images: nat,
                            c: nat)
  {
    && |after| == |before|
    && (forall m: nat, y: nat :: m < images && y < Image5(c, p.hw) && Cell(m, Image5(c, p.hw), y) < |after| ==>
          At(after, Cell(m, Image5(c, p.hw), y)) == Value45(p, images, c, input, before, ub, m, y))
    && (forall x :: images * Image5(c, p.hw) <= x < |after| ==> after[x] == before[x])
  }

  /** Both passes: full groups of every image, then the partial groups. */
  method RunPasses(input: array<Half>, n: nat, c: nat, output: array<Half>, ub: array<Half>, p: Plan)
    requires p.WellTiled() && p.tile.bufMax < BURST && p.Allocated(true) <= ub.Length
    requires input != output && input != ub && output != ub
    requires Room(p, n, c, input.Length, output.Length)
    modifies output, ub
    ensures Converted(old(output[..]), output[..], input[..], old(ub[..]), p, n, c)
  {
    var addr := new nat[32];
    SetArrayConfig(addr, p.col, 16, p.tile.bufMax);
    var va := addr[..];
    var c1Range := (c + 16 - 1) / 16;
    var c1Loop := c1Range;
    var c1Tail := c % 16;
    if c1Tail != 0 {
      c1Loop := c1Range - 1;
    }
    PassesFit(c, p.hw);
    ghost var before, ub0 := output[..], ub[..];
    Intrin(input, output, ub, va, p, n, c, Pass(16, 0, c1Loop));
    ghost var middle, ub1 := output[..], ub[..];
    if c1Tail != 0 {
      Intrin(input, output, ub, va, p, n, c, Pass(c1Tail, c1Loop, c1Range));
    }
    AllMeet(before, middle, output[..], input[..], ub0, ub1, ub[..], p, n, c);
  }

  lemma AllMeet(before: seq<Half>, middle: seq<Half>, after: seq<Half>, input: seq<Half>,
                ub0: seq<Half>, ub1: seq<Half>, ub2: seq<Half>, p: Plan, n: nat, c: nat)
    requires 0 < p.hw && 0 < p.col
    requires Progress(before, middle, ub0, ub1, input, p, n, c, Pass(16, 0, c / 16), n, 0)
    requires 16 <= c && 0 < n ==> HoldsGroup(ub1, input, p, n, c, 16, n - 1, c / 16 - 1)
    requires c < 16 ==> ub1 == ub0
    requires if c % 16 == 0 then after == middle
             else Progress(middle, after, ub1, ub2, input, p, n, c, Pass(c % 16, c / 16, C1(c)), n, c / 16)
    ensures Converted(before, after, input, ub0, p, n, c)
  {
    forall m: nat, y: nat | m < n && y < Image5(c, p.hw) && Cell(m, Image5(c, p.hw), y) < |after|
      ensures At(after, Cell(m, Image5(c, p.hw), y)) == Value45(p, n, c, input, before, ub0, m, y)
    {
      PassesMeet(before, middle, after, input, ub0, ub1, ub2, p, n, c, m, y);
    }
  }

  lemma PassesMeet(before: seq<Half>, middle: seq<Half>, after: seq<Half>, input: seq<Half>,
                   ub0: seq<Half>, ub1: seq<Half>, ub2: seq<Half>, p: Plan, n: nat, c: nat, m: nat, y: nat)
    requires 0 < p.hw && 0 < p.col && m < n && y < Image5(c, p.hw) && Cell(m, Image5(c, p.hw), y) < |before|
    requires Progress(before, middle, ub0, ub1, input, p, n, c, Pass(16, 0, c / 16), n, 0)
    requires 16 <= c ==> HoldsGroup(ub1, input, p, n, c, 16, n - 1, c / 16 - 1)
    requires c < 16 ==> ub1 == ub0
    requires if c % 16 == 0 then after == middle
             else Progress(middle, after, ub1, ub2, input, p, n, c, Pass(c % 16, c / 16, C1(c)), n, c / 16)
    ensures At(after, Cell(m, Image5(c, p.hw), y)) == Value45(p, n, c, input, before, ub0, m, y)
  {
    var g := GroupOf(y, p.hw);
    CellInGroup(y, g, p.hw);
    assert C1(c) == if c % 16 == 0 then c / 16 else c / 16 + 1;
    assert g < C1(c) by { DivAtLeast(y, 16 * p.hw, C1(c)); }
    if g < c / 16 { MulMono(g + 1, c / 16, 16 * p.hw); } else { MulMono(c / 16, g, 16 * p.hw); }
  }

  /** On this run every real channel gets the value the formula names. */
  ghost predicate RealRightOn(p: Plan, n: nat, c: nat, input: seq<Half>, before: seq<Half>, ub: seq<Half>) {
    forall m: nat, y: nat :: m < n && y < Image5(c, p.hw) && Real(c, p.hw, y) ==>
      Value45(p, n, c, input, before, ub, m, y) == At(input, Formula45(c, p.hw, m, y))
  }

  /** On this run the padding of the last group is zero, as the formula has it. */
  ghost predicate PadRightOn(p: Plan, n: nat, c: nat, input: seq<Half>, before: seq<Half>, ub: seq<Half>) {
    forall m: nat, y: nat :: m < n && y < Image5(c, p.hw) && !Real(c, p.hw, y) ==>
      Value45(p, n, c, input, before, ub, m, y) == 0
  }

  /** The memory of a run. */
  predicate Memory(p: Plan, n: nat, c: nat, input: seq<Half>, before: seq<Half>, ub: seq<Half>) {
    Room(p, n, c, |input|, |before|) && p.Allocated(true) <= |ub|
  }

  ghost predicate RealRight(p: Plan, n: nat, c: nat) {
    forall input: seq<Half>, before: seq<Half>, ub: seq<Half> :: Memory(p, n, c, input, before, ub) ==>
      RealRightOn(p, n, c, input, before, ub)
  }

  ghost predicate AllRight(p: Plan, n: nat, c: nat) {
    forall input: seq<Half>, before: seq<Half>, ub: seq<Half> ::
      Memory(p, n, c, input, before, ub) ==>
        RealRightOn(p, n, c, input, before, ub) && PadRightOn(p, n, c, input, before, ub)
  }

  /** What a caller has to check: the plane fits one chunk; or its last chunk is not empty and the batch
      stride that full chunks use, the cube of the batch size, does no harm. */
  predicate Safe45(p: Plan, n: nat, c: nat) {
    n == 0 || c == 0 || !p.Multi() || (!p.EmptyTail() && (n == 1 || n * n * n == c * p.hw))
  }

  /** Main result: on real channels the emitted four2five program is the conversion exactly on these shapes. */
  lemma Four2FiveExact(p: Plan, n: nat, c: nat)
    requires p.WellTiled()
    ensures RealRight(p, n, c) <==> Safe45(p, n, c)
  {
    if Safe45(p, n, c) {
      forall input: seq<Half>, before: seq<Half>, ub: seq<Half> | Memory(p, n, c, input, before, ub)
        ensures RealRightOn(p, n, c, input, before, ub)
      {
        SafeIsRight(p, n, c, input, before, ub);
      }
    } else {
      UnsafeIsWrong(p, n, c);
    }
  }

  /** Main result: padding included, it is the conversion only when there is no padding. */
  lemma Four2FivePaddingExact(p: Plan, n: nat, c: nat)
    requires p.WellTiled()
    ensures AllRight(p, n, c) <==> Safe45(p, n, c) && (n == 0 || c % 16 == 0)
  {
    if Safe45(p, n, c) && (n == 0 || c % 16 == 0) {
      forall input: seq<Half>, before: seq<Half>, ub: seq<Half> | Memory(p, n, c, input, before, ub)
        ensures RealRightOn(p, n, c, input, before, ub) && PadRightOn(p, n, c, input, before, ub)
      {
        SafeIsRight(p, n, c, input, before, ub);
        if 0 < n { NoPadding(p, c); }
      }
    } else if !Safe45(p, n, c) {
      UnsafeIsWrong(p, n, c);
    } else {
      StalePadding(p, n, c);
    }
  }

  /** The same said of the shape and the UB size: the plane fits one chunk; or it does not fill chunks of the widest
      size exactly, and there is one image or the batch size cubed is the size of an image. */
  lemma Four2FiveOnShapes(h: nat, w: nat, n: nat, c: nat, ubSize: nat)
    requires 0 < Plane(h, w) && ValidUb(ubSize)
    ensures var hw, p := h * w, MakePlan(Plane(h, w), true, ubSize);
      var rounded := (hw + 15) / 16 * 16;
      RealRight(p, n, c) <==>
        n == 0 || c == 0 || 64 * rounded <= ubSize ||
        (rounded % (ubSize / 1024 * 16) != 0 && (n == 1 || n * n * n == c * hw))
  {
    PlanWellTiled(Plane(h, w), true, ubSize);
    Four2FiveExact(MakePlan(Plane(h, w), true, ubSize), n, c);
  }

  lemma SafeIsRight(p: Plan, n: nat, c: nat, input: seq<Half>, before: seq<Half>, ub: seq<Half>)
    requires p.WellTiled() && Safe45(p, n, c)
    ensures RealRightOn(p, n, c, input, before, ub)
  {
    forall m: nat, y: nat | m < n && y < Image5(c, p.hw) && Real(c, p.hw, y)
      ensures Value45(p, n, c, input, before, ub, m, y) == At(input, Formula45(c, p.hw, m, y))
    {
      CellInGroup(y, GroupOf(y, p.hw), p.hw);
      CubeIs(n);
      RealIsFormula(p, n, c, m, y);
    }
  }

  lemma RealIsFormula(p: Plan, n: nat, c: nat, m: nat, y: nat)
    requires !p.EmptyTail() && (p.Multi() ==> m * Cube(n) == m * (c * p.hw))
    ensures RealSource(p, n, c, m, y) == Formula45(c, p.hw, m, y)
  {
    var g, j, pos := GroupOf(y, p.hw), ChannelIn(y), PosIn(y, p.hw);
    assert (16 * g + j) * p.hw == g * (16 * p.hw) + j * p.hw;
  }

  lemma NoPadding(p: Plan, c: nat)
    requires 0 < p.hw && c % 16 == 0
    ensures forall y: nat :: y < Image5(c, p.hw) ==> Real(c, p.hw, y)
  {
    forall y: nat | y < Image5(c, p.hw)
      ensures Real(c, p.hw, y)
    {
      DivAtLeast(y, 16 * p.hw, C1(c));
    }
  }

  /** An input that shows it: all zeros but for the element the formula asks for. */
  lemma WrongSomewhere(p: Plan, n: nat, c: nat, m: nat, y: nat)
    requires m < n && y < Image5(c, p.hw) && Real(c, p.hw, y)
    requires !Written(p, PosIn(y, p.hw)) || RealSource(p, n, c, m, y) != Formula45(c, p.hw, m, y)
    ensures !RealRight(p, n, c) && !AllRight(p, n, c)
  {
    var at := Formula45(c, p.hw, m, y);
    var room := EnoughRoom(p, n, c);
    var input := seq(at + 1 + room, k => if k == at then 1 as Half else 0);
    var before := seq(n * Image5(c, p.hw), k => 0 as Half);
    var ub := seq(p.Allocated(true), k => 0 as Half);
    assert Memory(p, n, c, input, before, ub);
    assert !RealRightOn(p, n, c, input, before, ub);
  }

  /** How far the tensor and its last rounded block reach, and how far the reads with the wrong batch stride. */
  function TensorEnd(p: Plan, n: nat, c: nat): nat { n * (c * p.hw) + Spill(p.hw) }
  function WrongEnd(p: Plan, n: nat, c: nat): int { (n - 1) * Cube(n) + c * p.hw }

  /** Input lengths long enough for a run. */
  lemma EnoughRoom(p: Plan, n: nat, c: nat) returns (room: nat)
    ensures forall length: nat :: room <= length ==> Room(p, n, c, length, n * Image5(c, p.hw))
  {
    var tensor, wrong := TensorEnd(p, n, c), WrongEnd(p, n, c);
    room := if wrong <= tensor then tensor else wrong;
    forall length: nat | room <= length ensures Room(p, n, c, length, n * Image5(c, p.hw)) {
      IsRoom(p, n, c, length);
    }
  }

  lemma IsRoom(p: Plan, n: nat, c: nat, length: nat)
    requires TensorEnd(p, n, c) <= length && WrongEnd(p, n, c) <= length
    ensures Room(p, n, c, length, n * Image5(c, p.hw))
  {
  }

  lemma UnsafeIsWrong(p: Plan, n: nat, c: nat)
    requires p.WellTiled() && !Safe45(p, n, c)
    ensures !RealRight(p, n, c) && !AllRight(p, n, c)
  {
    FirstGroupInside(c, p.hw);
    if p.EmptyTail() {
      FirstGroupCell(p.lastBase, p.hw);
      EmptyTailCell(p, n, c);
      WrongSomewhere(p, n, c, 0, 16 * p.lastBase);
    } else {
      FirstGroupCell(0, p.hw);
      CubeIs(n);
      TailSizes(p);
      SecondImage(p, n, c);
      WrongSomewhere(p, n, c, 1, 0);
    }
  }

  lemma FirstGroupInside(c: nat, hw: nat)
    requires 0 < c
    ensures 16 * hw <= Image5(c, hw)
  {
    MulMono(1, C1(c), 16 * hw);
  }

  /** The first element of the second image, looked for and asked for. */
  lemma SecondImage(p: Plan, n: nat, c: nat)
    requires 0 < p.lastBase < p.hw && p.Multi()
    ensures RealSource(p, n, c, 1, 0) == Cube(n) && Formula45(c, p.hw, 1, 0) == c * p.hw
  {
    FirstGroupCell(0, p.hw);
  }

  lemma FirstGroupCell(pos: nat, hw: nat)
    requires pos < hw
    ensures GroupOf(16 * pos, hw) == 0 && PosIn(16 * pos, hw) == pos && ChannelIn(16 * pos) == 0
  {
    CellInGroup(16 * pos, 0, hw);
  }

  lemma EmptyTailCell(p: Plan, n: nat, c: nat)
    requires p.WellTiled() && p.EmptyTail()
    ensures !Written(p, PosIn(16 * p.lastBase, p.hw)) ||
      RealSource(p, n, c, 0, 16 * p.lastBase) != Formula45(c, p.hw, 0, 16 * p.lastBase)
  {
    FirstGroupCell(p.lastBase, p.hw);
    TailSizes(p);
  }

  /** The first padding channel at position 0 of the first image. */
  lemma StalePadding(p: Plan, n: nat, c: nat)
    requires p.WellTiled() && 0 < n && c % 16 != 0
    ensures !AllRight(p, n, c)
  {
    var y := PaddingCell(c, p.hw);
    LoadedBounds(p.col, c % 16, 0);
    if p.Multi() { TailSizes(p); }
    StalePaddingAt(p, n, c, y, c % 16);
  }

  lemma PaddingCell(c: nat, hw: nat) returns (y: nat)
    requires 0 < hw && c % 16 != 0
    ensures y < Image5(c, hw) && GroupOf(y, hw) == c / 16 && PosIn(y, hw) == 0 && ChannelIn(y) == c % 16
  {
    var g, k := c / 16, 16 * hw;
    y := g * k + c % 16;
    CellInGroup(y, g, hw);
    MulMono(g + 1, C1(c), k);
    FirstOfGroup(y, g, hw, c % 16);
  }

  lemma FirstOfGroup(y: nat, g: nat, hw: nat, j: nat)
    requires 0 < hw && j < 16 && y == g * (16 * hw) + j
    ensures g * (16 * hw) <= y < (g + 1) * (16 * hw) && (y - g * (16 * hw)) / 16 == 0 && (y - g * (16 * hw)) % 16 == j
  {
    NextStart(g, hw);
  }

  lemma StalePaddingAt(p: Plan, n: nat, c: nat, y: nat, j: nat)
    requires 0 < n && y < Image5(c, p.hw) && !Real(c, p.hw, y) && j == ChannelIn(y)
    requires Written(p, PosIn(y, p.hw)) && Channels(c, GroupOf(y, p.hw)) <= j && PosOf(PosIn(y, p.hw), p.col) == 0
    requires Loaded(p.col, j, 0) < p.Allocated(true)
    ensures !AllRight(p, n, c)
  {
    var room := EnoughRoom(p, n, c);
    var input := seq(PadSource(p, n, c, 0, j) + 1 + room, k => 1 as Half);
    var before := seq(n * Image5(c, p.hw), k => 0 as Half);
    var ub := seq(p.Allocated(true), k => 1 as Half);
    assert Memory(p, n, c, input, before, ub);
    assert Value45(p, n, c, input, before, ub, 0, y) == 1;
    assert !PadRightOn(p, n, c, input, before, ub);
  }

  /** The program for one shape and one UB size. */
  method Run(input: array<Half>, n: nat, c: nat, h: nat, w: nat, output: array<Half>, ub: array<Half>, ubSize: nat)
    requires 0 < Plane(h, w) && ValidUb(ubSize)
    requires input != output && input != ub && output != ub && 2 * ub.Length == ubSize
    requires Room(MakePlan(Plane(h, w), true, ubSize), n, c, input.Length, output.Length)
    modifies output, ub
    ensures Converted(old(output[..]), output[..], input[..], old(ub[..]), MakePlan(Plane(h, w), true, ubSize), n, c)
  {
    var hw := h * w;
    PlanWellTiled(hw, true, ubSize);
    RunPasses(input, n, c, output, ub, MakePlan(hw, true, ubSize));
  }
}
