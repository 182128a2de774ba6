/** What the program of `_five2four_ir` does to the tensor, and exactly when that is the conversion
    `convert_5d_to_4d_for_protogenes` defines (auto_schedule/python/dim_conv.py). */
module Five2FourTheorem {
  import opened Arith
  import opened Wrappers
  import opened Tiling
  import opened VectorUnit
  import opened Layout
  import opened Five2Four
  import opened Five2FourProgram

  /** The defining formula: element `q` of image `n` is `input[n, c / 16, h, w, c % 16]`. */
  function Formula54(c: nat, hw: nat, n: nat, q: nat): nat {
    var channel := RowOf(q, hw);
    Index5(n, C1(c), channel / 16, hw, PosOf(q, hw), channel % 16)
  }

  /** Where the program takes it from instead.  The partial last group of every image is written after
      all the full ones, so its last row spills onto the next image for good. */
  function Source54(p: Plan, c: nat, n: nat, q: nat): Option<nat> {
    if 16 <= c && c % 16 != 0 && 0 < n && q < Spill(p.hw)
    then SpillSource(p, C1(c), n - 1, C1(c) - 1, c % 16, q)
    else OwnSource(p, C1(c), n, q)
  }

  /** The final tensor, cell by cell, and the memory after it. */
  ghost predicate Converted(before: seq<Half>, after: seq<Half>, input: seq<Half>, p: Plan, n: nat, c: nat, size: nat) {
    && |after| == |before|
    && (forall i: nat, q: nat :: i < n && q < size && Cell(i, size, q) < |after| ==>
          At(after, Cell(i, size, q)) == Fetch(Source54(p, c, i, q), input, before, Cell(i, size, q)))
    && (forall x :: n * size + Spill(p.hw) <= x < |after| ==> after[x] == before[x])
  }

  /** Both passes: full groups of every image, then the partial groups. */
  method RunPasses(input: array<Half>, n: nat, c: nat, output: array<Half>, ub: array<Half>, p: Plan)
    requires p.WellTiled() && p.tile.bufMax < BURST && p.Allocated(false) <= ub.Length
    requires input != output && input != ub && output != ub
    requires Size5(n, c, p.hw) + 16 * Spill(p.hw) <= input.Length
    requires n * (c * p.hw) + Spill(p.hw) <= output.Length
    modifies output, ub
    ensures Converted(old(output[..]), output[..], input[..], p, n, c, c * p.hw)
  {
    var addr := new nat[32];
    SetArrayConfig(addr, 16, p.col, p.tile.bufMax);
    var va := addr[..];
    var c1Range := (c + 16 - 1) / 16;
    var c1Loop := c1Range;
    var c1Tail := c % 16;
    if c1Tail != 0 {
      c1Loop := c1Range - 1;
    }
    PassesFit(c, p.hw);
    ghost var before := output[..];
    Intrin(input, output, ub, va, p, n, c, c1Range, Pass(16, 0, c1Loop));
    ghost var middle := output[..];
    if c1Tail != 0 {
      Intrin(input, output, ub, va, p, n, c, c1Range, Pass(c1Tail, c1Loop, c1Range));
    }
    forall i: nat, q: nat | i < n && q < c * p.hw && Cell(i, c * p.hw, q) < output.Length
      ensures At(output[..], Cell(i, c * p.hw, q)) ==
        Fetch(Source54(p, c, i, q), input[..], before, Cell(i, c * p.hw, q))
    {
      PassesMeet(before, middle, output[..], input[..], p, n, c, i, q);
    }
  }

  /** The program for one shape and one UB size. */
  method Run(input: array<Half>, n: nat, c: nat, h: nat, w: nat, output: array<Half>, ub: array<Half>, ubSize: nat)
    requires 0 < Plane(h, w) && ValidUb(ubSize)
    requires input != output && input != ub && output != ub && 2 * ub.Length == ubSize
    requires Size5(n, c, Plane(h, w)) + 16 * Spill(Plane(h, w)) <= input.Length
    requires n * Plane(c, Plane(h, w)) + Spill(Plane(h, w)) <= output.Length
    modifies output, ub
    ensures Converted(old(output[..]), output[..], input[..], MakePlan(Plane(h, w), false, ubSize), n, c,
      Plane(c, Plane(h, w)))
  {
    var hw := h * w;
    PlanWellTiled(hw, false, ubSize);
    RunPasses(input, n, c, output, ub, MakePlan(hw, false, ubSize));
  }

  lemma PassesMeet(before: seq<Half>, middle: seq<Half>, after: seq<Half>, input: seq<Half>, p: Plan, n: nat, c: nat,
                   i: nat, q: nat)
    requires p.WellTiled() && i < n && q < c * p.hw && Cell(i, c * p.hw, q) < |before| == |middle| == |after|
    requires Progress(before, middle, input, p, C1(c), n, c * p.hw, Pass(16, 0, c / 16), n, 0)
    requires if c % 16 == 0 then after == middle
             else Progress(middle, after, input, p, C1(c), n, c * p.hw, Pass(c % 16, c / 16, C1(c)), n, c / 16)
    ensures At(after, Cell(i, c * p.hw, q)) == Fetch(Source54(p, c, i, q), input, before, Cell(i, c * p.hw, q))
  {
    var size, full := c * p.hw, c / 16 * (16 * p.hw);
    PassesFit(c, p.hw);
    FullGroups(c, p.hw);
    SourcesKnown(p, c, i, q);
    CellOf(before, middle, input, p, C1(c), n, size, Pass(16, 0, c / 16), 0, 0, i, q);
    if c % 16 != 0 { CellOf(middle, after, input, p, C1(c), n, size, Pass(c % 16, c / 16, C1(c)), c / 16, full, i, q); }
    CellsMeet(before, middle, after, input, p, n, c, i, q, size, full);
  }

  lemma FullGroups(c: nat, hw: nat)
    requires 0 < hw
    ensures 16 <= c ==> Spill(hw) <= c / 16 * (16 * hw)
  {
    if 16 <= c { MulMono(1, c / 16, 16 * hw); }
  }

  /** A cell, or a spill, comes from nowhere only where nothing spills. */
  lemma SourcesKnown(p: Plan, c: nat, i: nat, q: nat)
    requires p.WellTiled()
    ensures OwnSource(p, C1(c), i, q).None? ==> Spill(p.hw) == 0
    ensures c % 16 != 0 && 0 < i && q < Spill(p.hw) ==> SpillSource(p, C1(c), i - 1, C1(c) - 1, c % 16, q).Some?
  {
    if OwnSource(p, C1(c), i, q).None? { NoneMeansNoSpill(p, C1(c), i, q); }
    if c % 16 != 0 && 0 < i && q < Spill(p.hw) { SpillKnown(p, C1(c), i - 1, C1(c) - 1, c % 16, q); }
  }

  lemma SpillKnown(p: Plan, c1: nat, n: nat, g: nat, c0: nat, q: nat)
    requires p.WellTiled() && 0 < c0 && q < Spill(p.hw)
    ensures SpillSource(p, c1, n, g, c0, q).Some?
  {
    if SpillSource(p, c1, n, g, c0, q).None? { TailOf(p, c0 - 1, p.hw + q); }
  }

  lemma CellOf(before: seq<Half>, now: seq<Half>, input: seq<Half>, p: Plan, c1: nat, images: nat, size: nat,
               pass: Pass,
               g: nat, done: nat, m: nat, q: nat)
    requires 0 < pass.c0 && Progress(before, now, input, p, c1, images, size, pass, images, g) &&
      done == g * (16 * p.hw)
    requires m < images && q < size && Cell(m, size, q) < |now|
    ensures At(now, Cell(m, size, q)) == CellNow(before, now, input, p, c1, size, pass, images, g, done, m, q)
  {
  }

  /** One cell through both passes, `full` being where the full groups of an image end. */
  lemma CellsMeet(before: seq<Half>, middle: seq<Half>, after: seq<Half>, input: seq<Half>, p: Plan, n: nat, c: nat,
                  i: nat, q: nat, size: nat, full: nat)
    requires 0 < p.hw && i < n && q < size && (c < 16 ==> full == 0) && (c % 16 == 0 ==> full == size)
    requires Pass(16, 0, c / 16).First(p.hw) == 0 && Pass(16, 0, c / 16).Last(p.hw) == full
    requires c % 16 != 0 ==>
      Pass(c % 16, c / 16, C1(c)).First(p.hw) == full && Pass(c % 16, c / 16, C1(c)).Last(p.hw) == size
    requires c % 16 != 0 ==> C1(c) == c / 16 + 1 && (16 <= c ==> Spill(p.hw) <= full)
    requires OwnSource(p, C1(c), i, q).None? ==> Spill(p.hw) == 0
    requires At(middle, Cell(i, size, q)) ==
      CellNow(before, middle, input, p, C1(c), size, Pass(16, 0, c / 16), n, 0, 0, i, q)
    requires c % 16 == 0 ==> after == middle
    requires c % 16 != 0 ==>
      At(after, Cell(i, size, q)) ==
        CellNow(middle, after, input, p, C1(c), size, Pass(c % 16, c / 16, C1(c)), n, c / 16, full, i, q)
    requires c % 16 != 0 && 0 < i && q < Spill(p.hw) ==> SpillSource(p, C1(c), i - 1, C1(c) - 1, c % 16, q).Some?
    ensures At(after, Cell(i, size, q)) == Fetch(Source54(p, c, i, q), input, before, Cell(i, size, q))
  {
  }

  /** On this input, whatever was in the output before, every cell gets the value the formula names. */
  ghost predicate RightOn(p: Plan, n: nat, c: nat, input: seq<Half>, before: seq<Half>) {
    forall i: nat, q: nat :: i < n && q < c * p.hw ==>
      Fetch(Source54(p, c, i, q), input, before, Cell(i, c * p.hw, q)) == At(input, Formula54(c, p.hw, i, q))
  }

  /** The program meets the formula on every input. */
  ghost predicate Right(p: Plan, n: nat, c: nat) {
    forall input: seq<Half>, before: seq<Half> ::
      |input| >= Size5(n, c, p.hw) + 16 * Spill(p.hw) && |before| >= n * (c * p.hw) + Spill(p.hw) ==>
        RightOn(p, n, c, input, before)
  }

  /** What a caller has to check: the last chunk is not empty; and, if rows need rounding and there is
      more than one image, no partial group follows a full one.  One partial channel does no harm as
      long as its spill stays in a row: it spills exactly the values that are already there. */
  predicate Safe54(p: Plan, n: nat, c: nat) {
    n == 0 || c == 0 ||
    (!p.EmptyTail() &&
     (p.hw % 16 == 0 || n == 1 || c % 16 == 0 || c < 16 || (c % 16 == 1 && Spill(p.hw) <= p.hw)))
  }

  /** Main result: the emitted five2four program is the conversion exactly on these shapes. */
  lemma Five2FourExact(p: Plan, n: nat, c: nat)
    requires p.WellTiled()
    ensures Right(p, n, c) <==> Safe54(p, n, c)
  {
    if Safe54(p, n, c) {
      forall input: seq<Half>, before: seq<Half> | |input| >= Size5(n, c, p.hw) + 16 * Spill(p.hw) &&
        |before| >= n * (c * p.hw) + Spill(p.hw)
        ensures RightOn(p, n, c, input, before)
      {
        SafeIsRight(p, n, c, input, before);
      }
    } else {
      var i, q := Unsafe(p, n, c);
      WrongSomewhere(p, n, c, i, q);
    }
  }

  /** The same said of the shape and the UB size: `blocks` positions in 16s, rounded up, fill chunks of the widest
      size exactly; or rows need rounding, there is more than one image, and a partial group follows a full one. */
  lemma Five2FourOnShapes(h: nat, w: nat, n: nat, c: nat, ubSize: nat)
    requires 0 < Plane(h, w) && ValidUb(ubSize)
    ensures var hw, p := h * w, MakePlan(Plane(h, w), false, ubSize);
      var rounded := (hw + 15) / 16 * 16;
      var widest := (ubSize - if hw % 16 != 0 then 512 else 0) / 1024 * 16;
      Right(p, n, c) <==>
        n == 0 || c == 0 ||
        (!(64 * rounded > ubSize && rounded % widest == 0) &&
         (hw % 16 == 0 || n == 1 || c % 16 == 0 || c < 16 || (c % 16 == 1 && rounded <= 2 * hw)))
  {
    PlanWellTiled(Plane(h, w), false, ubSize);
    Five2FourExact(MakePlan(Plane(h, w), false, ubSize), n, c);
  }

  lemma SafeIsRight(p: Plan, n: nat, c: nat, input: seq<Half>, before: seq<Half>)
    requires p.WellTiled() && Safe54(p, n, c)
    ensures RightOn(p, n, c, input, before)
  {
    forall i: nat, q: nat | i < n && q < c * p.hw
      ensures Source54(p, c, i, q) == Some(Formula54(c, p.hw, i, q))
    {
      if c > 0 { SafeMeans(p, n, c); }
      SafeCell(p, c, i, q);
    }
  }

  lemma SafeMeans(p: Plan, n: nat, c: nat)
    requires p.WellTiled() && Safe54(p, n, c) && 1 <= n && 1 <= c
    ensures 0 < p.hw && !p.EmptyTail()
    ensures 16 <= c && c % 16 != 0 && 1 < n && 0 < Spill(p.hw) ==> c % 16 == 1 && Spill(p.hw) <= p.hw
  {
    if p.hw % 16 == 0 { WholeBlocksNeedNoSpill(p.hw); }
  }

  lemma SafeCell(p: Plan, c: nat, i: nat, q: nat)
    requires 0 < p.hw && !p.EmptyTail()
    requires 16 <= c && c % 16 != 0 && 0 < i && 0 < Spill(p.hw) ==> c % 16 == 1 && Spill(p.hw) <= p.hw
    ensures Source54(p, c, i, q) == Some(Formula54(c, p.hw, i, q))
  {
    if 16 <= c && c % 16 != 0 && 0 < i && q < Spill(p.hw) {
      OneChannelSpill(p, c, i, q);
    } else {
      OwnIsFormula(p, c, i, q);
    }
  }

  /** Outside an empty tail every group reads what the formula says. */
  lemma OwnIsFormula(p: Plan, c: nat, n: nat, q: nat)
    requires 0 < p.hw && !p.EmptyTail()
    ensures OwnSource(p, C1(c), n, q) == Some(Formula54(c, p.hw, n, q))
  {
    var g := RowOf(q, p.hw) / 16;
    SumIs(n * C1(c) + g, 16 * p.hw);
    Sixteen(n * C1(c) + g, p.hw);
  }

  /** The next image starts where the last group of this one ends. */
  lemma NextBase(n: nat, c1: nat, hw: nat)
    requires 0 < n && 0 < c1
    ensures GroupBase(n - 1, c1, c1 - 1, hw) + 16 * hw == GroupBase(n, c1, 0, hw) == Index5(n, c1, 0, hw, 0, 0)
  {
    assert (n - 1) * c1 + (c1 - 1) + 1 == n * c1;
    SumIs(n * c1, 16 * hw);
    Sixteen(n * c1, hw);
  }

  lemma Sixteen(k: nat, hw: nat)
    ensures k * (16 * hw) == k * hw * 16
  {
  }

  /** A single partial channel spills the start of channel 0 of the next image onto itself. */
  lemma OneChannelSpill(p: Plan, c: nat, n: nat, q: nat)
    requires 0 < p.hw && !p.EmptyTail() && 16 <= c && c % 16 == 1 && 0 < n && q < Spill(p.hw) <= p.hw
    ensures SpillSource(p, C1(c), n - 1, C1(c) - 1, c % 16, q) == Some(Formula54(c, p.hw, n, q))
  {
    NextBase(n, C1(c), p.hw);
    DivModUnique(q, p.hw, 0, q);
  }

  /** A cell of an unsafe shape that gets its value from elsewhere. */
  lemma Unsafe(p: Plan, n: nat, c: nat) returns (i: nat, q: nat)
    requires p.WellTiled() && !Safe54(p, n, c)
    ensures i < n && q < c * p.hw && Source54(p, c, i, q) != Some(Formula54(c, p.hw, i, q))
  {
    MulMono(1, c, p.hw);
    if p.EmptyTail() {
      i, q := 0, p.lastBase;
      EmptyTailCell(p, c);
    } else {
      WholeBlocksNeedNoSpill(p.hw);
      i, q := 1, if c % 16 == 1 then p.hw else 0;
      SpilledCell(p, c, q);
      MulMono(2, c, p.hw);
    }
  }

  lemma EmptyTailCell(p: Plan, c: nat)
    requires p.WellTiled() && p.EmptyTail()
    ensures Source54(p, c, 0, p.lastBase) != Some(Formula54(c, p.hw, 0, p.lastBase))
  {
    DivModUnique(p.lastBase, p.hw, 0, p.lastBase);
    EmptyTailSource(p, 0, p.lastBase);
    assert GroupBase(0, C1(c), 0, p.hw) == 0;
  }

  lemma SpilledCell(p: Plan, c: nat, q: nat)
    requires 0 < p.hw && !p.EmptyTail() && 16 <= c && c % 16 != 0 && 0 < Spill(p.hw)
    requires if c % 16 == 1 then q == p.hw && p.hw < Spill(p.hw) else q == 0
    ensures Source54(p, c, 1, q) != Some(Formula54(c, p.hw, 1, q))
  {
    NextBase(1, C1(c), p.hw);
    DivModUnique(q, p.hw, if q == 0 then 0 else 1, 0);
  }

  /** An input that shows it: all zeros but for the element the formula asks for. */
  lemma WrongSomewhere(p: Plan, n: nat, c: nat, i: nat, q: nat)
    requires p.WellTiled() && i < n && q < c * p.hw && Source54(p, c, i, q) != Some(Formula54(c, p.hw, i, q))
    ensures !Right(p, n, c)
  {
    var at := Formula54(c, p.hw, i, q);
    FormulaInside(p.hw, n, c, i, q);
    var input, before := OneAt(Size5(n, c, p.hw) + 16 * Spill(p.hw), at, 1), OneAt(OutputRoom(p, n, c), 0, 0);
    WrongOn(p, n, c, i, q, input, before, at);
    NotRight(p, n, c, input, before);
  }

  function OutputRoom(p: Plan, n: nat, c: nat): nat { n * (c * p.hw) + Spill(p.hw) }

  /** Zeros but for one element. */
  function OneAt(size: nat, at: nat, one: Half): (s: seq<Half>)
    ensures |s| == size && forall k :: 0 <= k < size ==> s[k] == if k == at then one else 0
  {
    seq(size, k => if k == at then one else 0)
  }

  lemma NotRight(p: Plan, n: nat, c: nat, input: seq<Half>, before: seq<Half>)
    requires |input| >= Size5(n, c, p.hw) + 16 * Spill(p.hw) && |before| >= OutputRoom(p, n, c)
    requires !RightOn(p, n, c, input, before)
    ensures !Right(p, n, c)
  {
  }

  lemma WrongOn(p: Plan, n: nat, c: nat, i: nat, q: nat, input: seq<Half>, before: seq<Half>, at: nat)
    requires i < n && q < c * p.hw && Source54(p, c, i, q) != Some(at) && at == Formula54(c, p.hw, i, q) < |input|
    requires input[at] == 1 && forall k :: 0 <= k < |input| && k != at ==> input[k] == 0
    requires forall k :: 0 <= k < |before| ==> before[k] == 0
    ensures !RightOn(p, n, c, input, before)
  {
    assert Fetch(Source54(p, c, i, q), input, before, Cell(i, c * p.hw, q)) == 0;
  }

  lemma FormulaInside(hw: nat, n: nat, c: nat, i: nat, q: nat)
    requires 0 < hw && i < n && q < c * hw
    ensures Formula54(c, hw, i, q) < Size5(n, c, hw)
  {
    var row, pos := RowOf(q, hw), PosOf(q, hw);
    DivAtLeast(q, hw, c);
    assert row / 16 < C1(c);
    MulStrict(i, n, C1(c));
    var k := i * C1(c) + row / 16;
    MulStrict(k, n * C1(c), hw);
    SumIs(n * C1(c), 16 * hw);
    Sixteen(n * C1(c), hw);
  }
}
