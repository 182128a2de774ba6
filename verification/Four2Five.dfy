/** `_four2five_ir` of auto_schedule/python/dim_conv.py: NCHW to NC1HWC0, one group of channels. */
module Four2Five {
  import opened Arith
  import opened Tiling
  import opened VectorUnit
  import opened Layout

  /** Element `t` of loaded row `j` in the input half of the UB. */
  function Loaded(col: nat, j: nat, t: nat): nat {
    j * col + t
  }

  /** Channel `j` of position `t` in the output half. */
  function Transposed(col: nat, t: nat, j: nat): nat {
    16 * col + 16 * t + j
  }

  /** Where transposing takes the value of UB cell `x` from. */
  function From(col: nat, x: nat): nat {
    if x < 16 * col then 0 else Loaded(col, (x - 16 * col) % 16, (x - 16 * col) / 16)
  }

  lemma LoadedBounds(col: nat, j: nat, t: nat)
    requires j < 16 && t < col
    ensures Loaded(col, j, t) < 16 * col
    ensures RowOf(Loaded(col, j, t), col) == j && PosOf(Loaded(col, j, t), col) == t
    ensures From(col, Transposed(col, t, j)) == Loaded(col, j, t)
  {
    MulStrict(j, 16, col);
    DivModUnique(j * col + t, col, j, t);
  }

  lemma TransposeAddresses(va: seq<nat>, col: nat, repeat: nat, r: nat, i: nat, j: nat)
    requires Configured(va, col, 16, 16 * col)
    requires r < repeat && 16 * repeat <= col && i < 16 && j < 16
    ensures ScatterDst(va, r, Stride(repeat, 16), i, j) == Transposed(col, 16 * r + i, j)
    ensures ScatterSrc(va, r, Stride(repeat, 1), i, j) == From(col, Transposed(col, 16 * r + i, j)) ==
      Loaded(col, j, 16 * r + i)
    ensures Loaded(col, j, 16 * r + i) < 16 * col <= Transposed(col, 16 * r + i, j) < 32 * col
  {
    LoadedBounds(col, j, 16 * r + i);
    StrideOf(repeat, r, 1);
    StrideOf(repeat, r, 16);
    assert va[16 + i] == 2 * (16 * col + 16 * i);
    assert va[j] == 2 * col * j;
    TwiceRow(col, j);
  }

  /** The output half holds the transpose of the first `width` positions of the input half. */
  ghost predicate IsTransposed(ub: seq<Half>, col: nat, width: nat) {
    forall t: nat, j: nat :: t < width && j < 16 ==> At(ub, Transposed(col, t, j)) == At(ub, Loaded(col, j, t))
  }

  method TransposeChunk(ub: array<Half>, va: seq<nat>, repeat: nat, col: nat)
    requires Configured(va, col, 16, 16 * col)
    requires 16 * repeat <= col && 32 * col <= ub.Length
    modifies ub
    ensures forall x :: 0 <= x < 16 * col ==> ub[x] == old(ub[x])
    ensures IsTransposed(ub[..], col, 16 * repeat)
    ensures repeat == 0 ==> ub[..] == old(ub[..])
  {
    forall r: nat, i: nat, j: nat | r < repeat && i < 16 && j < 16
      ensures ScatterSrc(va, r, Stride(repeat, 1), i, j) < 16 * col <=
        ScatterDst(va, r, Stride(repeat, 16), i, j) < ub.Length
      ensures From(col, ScatterDst(va, r, Stride(repeat, 16), i, j)) == ScatterSrc(va, r, Stride(repeat, 1), i, j)
    {
      TransposeAddresses(va, col, repeat, r, i, j);
    }
    Scatter(ub, va, repeat, Stride(repeat, 16), Stride(repeat, 1), 16 * col, x => From(col, x));
    forall t: nat, j: nat | t < 16 * repeat && j < 16
      ensures At(ub[..], Transposed(col, t, j)) == At(ub[..], Loaded(col, j, t))
    {
      var r, i := t / 16, t % 16;
      TransposeAddresses(va, col, repeat, r, i, j);
      assert ub[ScatterDst(va, r, Stride(repeat, 16), i, j)] == old(ub[ScatterSrc(va, r, Stride(repeat, 1), i, j)]);
    }
  }

  /** The input half after rows `[0, c0)` got `width` elements each from `src`, `hw` apart. */
  ghost predicate RowsLoaded(before: seq<Half>, after: seq<Half>, col: nat, input: seq<Half>, src: nat, hw: nat,
                             c0: nat, width: nat)
  {
    && |after| == |before|
    && forall j: nat, t: nat :: j < 16 && t < col ==>
         At(after, Loaded(col, j, t)) == if j < c0 && t < width then At(input, src + j * hw + t)
           else At(before, Loaded(col, j, t))
  }

  /** Load `c0` rows of `size` elements and transpose them; with size 0 nothing happens. */
  method LoadChunk(input: array<Half>, src: nat, hw: nat, c0: nat, size: nat, ub: array<Half>, va: seq<nat>, col: nat)
    requires Configured(va, col, 16, 16 * col) && 0 < c0 <= 16
    requires size % 16 == 0 && size <= col && 0 < col && 16 * col < BURST && 32 * col <= ub.Length
    requires input != ub && src + (c0 - 1) * hw + size <= input.Length
    modifies ub
    ensures RowsLoaded(old(ub[..]), ub[..], col, input[..], src, hw, c0, size)
    ensures IsTransposed(ub[..], col, size)
    ensures size == 0 ==> ub[..] == old(ub[..])
  {
    assert Ceil16(size) == size;
    LoadRows(input, src, hw, c0, size, ub, col);
    TransposeChunk(ub, va, size / 16, col);
    forall j: nat, t: nat | j < 16 && t < col
      ensures Loaded(col, j, t) < 16 * col
    {
      LoadedBounds(col, j, t);
    }
  }

  method LoadRows(input: array<Half>, src: nat, hw: nat, c0: nat, size: nat, ub: array<Half>, col: nat)
    requires 0 < c0 <= 16 && Ceil16(size) == size <= col && 0 < col && 16 * col < BURST && 16 * col <= ub.Length
    requires input != ub && src + (c0 - 1) * hw + size <= input.Length
    modifies ub
    ensures RowsLoaded(old(ub[..]), ub[..], col, input[..], src, hw, c0, size)
    ensures size == 0 ==> ub[..] == old(ub[..])
  {
    MulStrict(c0 - 1, 16, col);
    CopyRows(c0, size, ub, 0, col, input, src, hw);
    forall j: nat, t: nat | j < 16 && t < col
      ensures At(ub[..], Loaded(col, j, t)) == if j < c0 && t < size then At(input[..], src + j * hw + t)
        else At(old(ub[..]), Loaded(col, j, t))
    {
      LoadedBounds(col, j, t);
      if j < c0 {
        LastRowIs(Loaded(col, j, t), col, c0, j);
      } else {
        MulStrict(c0 - 1, j, col);
        LastRowIs(Loaded(col, j, t), col, c0, c0 - 1);
      }
    }
  }

  /** Channel `j` at `pos` of a group whose window `[lo, hi)` was loaded from `src`: rows past the group's
      channels still hold what the UB held before. */
  ghost function Value(input: seq<Half>, src: nat, hw: nat, ub0: seq<Half>, col: nat, c0: nat, lo: nat, pos: nat,
                       j: nat): Half
  {
    if j < c0 then (if lo <= pos then At(input, src + j * hw + (pos - lo)) else 0)
    else At(ub0, Loaded(col, j, PosOf(pos, col)))
  }

  ghost predicate WindowStored(before: seq<Half>, after: seq<Half>, outBase: nat, input: seq<Half>, src: nat,
                               hw: nat, ub0: seq<Half>, col: nat, c0: nat, lo: nat, hi: nat) {
    && |after| == |before|
    && forall x :: 0 <= x < |after| ==>
         after[x] == if outBase + 16 * lo <= x < outBase + 16 * hi
                     then Value(input, src, hw, ub0, col, c0, lo, (x - outBase) / 16, (x - outBase) % 16)
                     else before[x]
  }

  /** The rows past the group's channels are those of `ub0`. */
  ghost predicate RestKept(ub0: seq<Half>, ub: seq<Half>, col: nat, c0: nat) {
    forall j: nat, t: nat :: c0 <= j < 16 && t < col ==> At(ub, Loaded(col, j, t)) == At(ub0, Loaded(col, j, t))
  }

  /** The rows of the group's channels hold `width` elements each from `src`. */
  ghost predicate RowsHold(ub: seq<Half>, col: nat, input: seq<Half>, src: nat, hw: nat, c0: nat, width: nat) {
    forall j: nat, t: nat :: j < c0 && t < width ==> At(ub, Loaded(col, j, t)) == At(input, src + j * hw + t)
  }

  /** Copy the first `width` transposed positions out, to position `shift` of the group. */
  method StoreChunk(ub: array<Half>, col: nat, ghost input: seq<Half>, ghost src: nat, ghost hw: nat,
                    ghost ub0: seq<Half>,
                    ghost c0: nat, output: array<Half>, outBase: nat, shift: nat, width: nat)
    requires 0 < c0 <= 16 && 0 < col && width <= col && 16 * col < BURST && 32 * col <= ub.Length && output != ub
    requires outBase + 16 * (shift + width) <= output.Length
    requires PosOf(shift, col) == 0
    requires RowsHold(ub[..], col, input, src, hw, c0, width) && RestKept(ub0, ub[..], col, c0)
    requires IsTransposed(ub[..], col, width)
    modifies output
    ensures WindowStored(old(output[..]), output[..], outBase, input, src, hw, ub0, col, c0, shift, shift + width)
  {
    assert Ceil16(width * 16) == width * 16;
    CopyRow(width * 16, output, outBase + 16 * shift, ub, 16 * col);
    forall x | outBase + 16 * shift <= x < outBase + 16 * (shift + width)
      ensures output[x] == Value(input, src, hw, ub0, col, c0, shift, (x - outBase) / 16, (x - outBase) % 16)
    {
      var t, j := (x - outBase) / 16 - shift, (x - outBase) % 16;
      ChunkPos(shift, t, col);
      assert At(ub[..], Transposed(col, t, j)) == At(ub[..], Loaded(col, j, t));
    }
  }

  lemma ChunkPos(shift: nat, t: nat, col: nat)
    requires t < col && PosOf(shift, col) == 0
    ensures PosOf(shift + t, col) == t
  {
    DivFloor(shift, col);
    DivModUnique(shift + t, col, shift / col, t);
  }

  lemma WindowsJoin(a: seq<Half>, b: seq<Half>, c: seq<Half>, outBase: nat, input: seq<Half>, src: nat,
                    hw: nat, ub0: seq<Half>, col: nat, c0: nat, mid: nat, hi: nat)
    requires mid <= hi
    requires WindowStored(a, b, outBase, input, src, hw, ub0, col, c0, 0, mid)
    requires WindowStored(b, c, outBase, input, src + mid, hw, ub0, col, c0, mid, hi)
    ensures WindowStored(a, c, outBase, input, src, hw, ub0, col, c0, 0, hi)
  {
  }

  /** All chunks but the last.  `bad` is where this branch of the program believes the group starts. */
  method RunFullChunks(input: array<Half>, bad: nat, output: array<Half>, outBase: nat,
                       ub: array<Half>, va: seq<nat>, hw: nat, col: nat, chunks: nat, c0: nat, ghost lastBase: nat)
    requires 1 < chunks && 0 < col && col % 16 == 0 && 16 * col < BURST && (chunks - 1) * col == lastBase < hw
    requires Configured(va, col, 16, 16 * col)
    requires 0 < c0 <= 16 && input != ub && output != ub && input != output && 32 * col <= ub.Length
    requires bad + (c0 - 1) * hw + hw <= input.Length && outBase + 16 * hw <= output.Length
    modifies output, ub
    ensures WindowStored(old(output[..]), output[..], outBase, input[..], bad, hw, old(ub[..]), col, c0, 0, lastBase)
    ensures col <= lastBase && RowsHold(ub[..], col, input[..], bad + lastBase - col, hw, c0, col)
    ensures RestKept(old(ub[..]), ub[..], col, c0) && IsTransposed(ub[..], col, col)
  {
    var k := 0;
    ghost var shift, was, ub0 := 0, output[..], ub[..];
    while k < chunks - 1
      invariant 0 <= k < chunks && shift == k * col && (0 < k ==> col <= shift)
      invariant WindowStored(was, output[..], outBase, input[..], bad, hw, ub0, col, c0, 0, shift)
      invariant RestKept(ub0, ub[..], col, c0)
      invariant 0 < k ==>
        RowsHold(ub[..], col, input[..], bad + shift - col, hw, c0, col) && IsTransposed(ub[..], col, col)
    {
      ghost var stored := output[..];
      ChunkStep(k, chunks, col);
      RunChunk(input, bad + k * col, output, outBase, ub, va, hw, col, c0, k * col, ub0);
      WindowsJoin(was, stored, output[..], outBase, input[..], bad, hw, ub0, col, c0, shift, shift + col);
      k, shift := k + 1, shift + col;
    }
  }

  lemma ChunkStep(k: nat, chunks: nat, col: nat)
    requires k < chunks - 1 && 0 < col
    ensures k * col + col <= (chunks - 1) * col && (k + 1) * col == k * col + col && PosOf(k * col, col) == 0
    ensures k * (16 * col) == 16 * (k * col)
  {
    MulStrict(k, chunks - 1, col);
    DivModUnique(k * col, col, k, 0);
  }

  /** One full chunk from `src` to position `shift`. */
  method RunChunk(input: array<Half>, src: nat, output: array<Half>, outBase: nat, ub: array<Half>, va: seq<nat>,
                  hw: nat, col: nat, c0: nat, shift: nat, ghost ub0: seq<Half>)
    requires 0 < col && col % 16 == 0 && 16 * col < BURST && shift + col <= hw && PosOf(shift, col) == 0
    requires Configured(va, col, 16, 16 * col)
    requires 0 < c0 <= 16 && input != ub && output != ub && input != output && 32 * col <= ub.Length
    requires src + (c0 - 1) * hw + col <= input.Length && outBase + 16 * hw <= output.Length
    requires RestKept(ub0, ub[..], col, c0)
    modifies output, ub
    ensures WindowStored(old(output[..]), output[..], outBase, input[..], src, hw, ub0, col, c0, shift, shift + col)
    ensures RowsHold(ub[..], col, input[..], src, hw, c0, col)
    ensures RestKept(ub0, ub[..], col, c0) && IsTransposed(ub[..], col, col)
  {
    LoadChunk(input, src, hw, c0, col, ub, va, col);
    StoreChunk(ub, col, input[..], src, hw, ub0, c0, output, outBase, shift, col);
  }

  /** Where channel 0 of position `pos` of a group comes from: `good` is where the group starts, `bad`
      where the branch for full chunks looks for it.  An empty tail repeats the chunk before it. */
  function ChunkSource(p: Plan, good: nat, bad: nat, pos: nat): nat {
    if !p.Multi() then good + pos
    else if pos < p.lastBase then bad + pos
    else if !p.EmptyTail() then good + pos
    else if p.col <= pos then bad + (pos - p.col) else 0
  }

  /** Only the last chunk of a whole number of blocks can be missing. */
  predicate Written(p: Plan, pos: nat) {
    pos < p.hw && !(p.EmptyTail() && p.hw % 16 == 0 && p.lastBase <= pos)
  }

  ghost function GroupValue(input: seq<Half>, good: nat, bad: nat, ub0: seq<Half>, p: Plan, c0: nat, pos: nat,
                            j: nat): Half
  {
    if j < c0 then At(input, ChunkSource(p, good, bad, pos) + j * p.hw)
    else At(ub0, Loaded(p.col, j, PosOf(pos, p.col)))
  }

  ghost predicate GroupStored(before: seq<Half>, after: seq<Half>, outBase: nat, input: seq<Half>, good: nat, bad: nat,
                              ub0: seq<Half>, p: Plan, c0: nat) {
    && |after| == |before|
    && forall x :: 0 <= x < |after| ==>
         after[x] == if outBase <= x && Written(p, (x - outBase) / 16)
                     then GroupValue(input, good, bad, ub0, p, c0, (x - outBase) / 16, (x - outBase) % 16)
                     else before[x]
  }

  /** Where element `t` of loaded row 0 was last loaded from. */
  function LastLoaded(p: Plan, good: nat, bad: nat, t: nat): nat {
    if !p.Multi() then good + t
    else if t < p.tile.tailCube / 16 then good + p.lastBase + t
    else if p.col <= p.lastBase then bad + (p.lastBase - p.col) + t else 0
  }

  /** The input half of the UB after a group. */
  ghost predicate GroupLoaded(ub0: seq<Half>, ub: seq<Half>, input: seq<Half>, good: nat, bad: nat, p: Plan, c0: nat) {
    forall j: nat, t: nat :: j < 16 && t < p.col ==>
      At(ub, Loaded(p.col, j, t)) == if j < c0 then At(input, LastLoaded(p, good, bad, t) + j * p.hw)
                                     else At(ub0, Loaded(p.col, j, t))
  }

  lemma SingleStored(a: seq<Half>, b: seq<Half>, outBase: nat, input: seq<Half>, good: nat, bad: nat,
                     ub0: seq<Half>, p: Plan, c0: nat)
    requires !p.Multi()
    requires WindowStored(a, b, outBase, input, good, p.hw, ub0, p.col, c0, 0, p.hw)
    ensures GroupStored(a, b, outBase, input, good, bad, ub0, p, c0)
  {
  }

  lemma TailStored(a: seq<Half>, b: seq<Half>, c: seq<Half>, outBase: nat, input: seq<Half>, good: nat, bad: nat,
                   ub0: seq<Half>, p: Plan, c0: nat, src: nat, hi: nat)
    requires p.Multi() && p.col <= p.lastBase < p.hw
    requires src == if p.EmptyTail() then bad + (p.lastBase - p.col) else good + p.lastBase
    requires hi == if p.EmptyTail() && p.hw % 16 == 0 then p.lastBase else p.hw
    requires WindowStored(a, b, outBase, input, bad, p.hw, ub0, p.col, c0, 0, p.lastBase)
    requires WindowStored(b, c, outBase, input, src, p.hw, ub0, p.col, c0, p.lastBase, hi)
    ensures GroupStored(a, c, outBase, input, good, bad, ub0, p, c0)
  {
  }

  /** After the last chunk is loaded: its rows, behind them what the chunk before it left. */
  lemma TailHolds(before: seq<Half>, after: seq<Half>, col: nat, input: seq<Half>, src: nat, old_: nat, hw: nat,
                  ub0: seq<Half>, c0: nat, size: nat)
    requires c0 <= 16 && size <= col && RowsLoaded(before, after, col, input, src, hw, c0, size)
    requires RowsHold(before, col, input, old_, hw, c0, col) && RestKept(ub0, before, col, c0)
    ensures RestKept(ub0, after, col, c0) && RowsHold(after, col, input, src, hw, c0, size)
    ensures forall j: nat, t: nat :: j < c0 && size <= t < col ==>
      At(after, Loaded(col, j, t)) == At(input, old_ + j * hw + t)
  {
  }

  /** What is stored is there: the rows of the last chunk or, if it is empty, those of the one before. */
  lemma TailReady(before: seq<Half>, after: seq<Half>, col: nat, input: seq<Half>, tail: nat, old_: nat, hw: nat,
                  c0: nat, size: nat,
                  hwTail: nat, src: nat)
    requires hwTail <= col && if size == 0 then src == old_ && after == before else src == tail && hwTail <= size
    requires RowsHold(before, col, input, old_, hw, c0, col) && IsTransposed(before, col, col)
    requires RowsHold(after, col, input, tail, hw, c0, size) && IsTransposed(after, col, size)
    ensures RowsHold(after, col, input, src, hw, c0, hwTail) && IsTransposed(after, col, hwTail)
  {
  }

  /** The last chunk of a plane that takes several: `size` positions are loaded and `hwTail` stored. */
  method RunTailChunk(input: array<Half>, good: nat, ghost bad: nat, output: array<Half>, outBase: nat,
                      ub: array<Half>, va: seq<nat>, hw: nat, col: nat, c0: nat, lastBase: nat, size: nat, hwTail: nat,
                      ghost src: nat, ghost ub0: seq<Half>)
    requires 0 < col && size % 16 == 0 && size <= col && 16 * col < BURST && Configured(va, col, 16, 16 * col)
    requires 0 < c0 <= 16 && input != ub && output != ub && input != output && 32 * col <= ub.Length
    requires col <= lastBase && PosOf(lastBase, col) == 0 && hwTail <= col
    requires if size == 0 then src == bad + (lastBase - col) else src == good + lastBase && hwTail <= size
    requires good + lastBase + (c0 - 1) * hw + size <= input.Length &&
      outBase + 16 * (lastBase + hwTail) <= output.Length
    requires RowsHold(ub[..], col, input[..], bad + lastBase - col, hw, c0, col)
    requires RestKept(ub0, ub[..], col, c0) && IsTransposed(ub[..], col, col)
    modifies output, ub
    ensures WindowStored(old(output[..]), output[..], outBase, input[..], src, hw, ub0, col, c0, lastBase,
      lastBase + hwTail)
    ensures RestKept(ub0, ub[..], col, c0) && RowsHold(ub[..], col, input[..], good + lastBase, hw, c0, size)
    ensures forall j: nat, t: nat :: j < c0 && size <= t < col ==>
              At(ub[..], Loaded(col, j, t)) == At(input[..], bad + lastBase - col + j * hw + t)
  {
    ghost var held := ub[..];
    LoadChunk(input, good + lastBase, hw, c0, size, ub, va, col);
    TailHolds(held, ub[..], col, input[..], good + lastBase, bad + lastBase - col, hw, ub0, c0, size);
    TailReady(held, ub[..], col, input[..], good + lastBase, bad + lastBase - col, hw, c0, size, hwTail, src);
    StoreChunk(ub, col, input[..], src, hw, ub0, c0, output, outBase, lastBase, hwTail);
  }

  /** The whole plane in one chunk. */
  method RunSingleChunk(input: array<Half>, good: nat, output: array<Half>, outBase: nat,
                        ub: array<Half>, va: seq<nat>, hw: nat, col: nat, c0: nat)
    requires 0 < hw && col == Ceil16(hw) && 16 * col < BURST && Configured(va, col, 16, 16 * col)
    requires 0 < c0 <= 16 && input != ub && output != ub && input != output && 32 * col <= ub.Length
    requires good + (c0 - 1) * hw + col <= input.Length && outBase + 16 * hw <= output.Length
    modifies output, ub
    ensures WindowStored(old(output[..]), output[..], outBase, input[..], good, hw, old(ub[..]), col, c0, 0, hw)
    ensures RowsLoaded(old(ub[..]), ub[..], col, input[..], good, hw, c0, col)
  {
    LoadChunk(input, good, hw, c0, col, ub, va, col);
    StoreChunk(ub, col, input[..], good, hw, old(ub[..]), c0, output, outBase, 0, hw);
  }

  /** A plane that takes several chunks: full ones, which are read from `bad`, and the last. */
  method RunChunks(input: array<Half>, good: nat, bad: nat, output: array<Half>, outBase: nat,
                   ub: array<Half>, va: seq<nat>, p: Plan, c0: nat)
    requires p.WellTiled() && p.Multi() && p.tile.bufMax < BURST && Configured(va, p.col, 16, p.tile.bufMax)
    requires 0 < c0 <= 16 && input != ub && output != ub && input != output && p.Allocated(true) <= ub.Length
    requires good + (c0 - 1) * p.hw + Ceil16(p.hw) <= input.Length
    requires bad + (c0 - 1) * p.hw + p.hw <= input.Length
    requires outBase + 16 * p.hw <= output.Length
    modifies output, ub
    ensures GroupStored(old(output[..]), output[..], outBase, input[..], good, bad, old(ub[..]), p, c0)
    ensures GroupLoaded(old(ub[..]), ub[..], input[..], good, bad, p, c0)
  {
    TailSizes(p);
    RunFullChunks(input, bad, output, outBase, ub, va, p.hw, p.col, p.chunks, c0, p.lastBase);
    ghost var stored := output[..];
    ghost var src := if p.EmptyTail() then bad + (p.lastBase - p.col) else good + p.lastBase;
    RunTailChunk(input, good, bad, output, outBase, ub, va, p.hw, p.col, c0, (p.chunks - 1) * p.col,
                 p.tile.tailCube / 16, p.hwTail, src, old(ub[..]));
    TailStored(old(output[..]), stored, output[..], outBase, input[..], good, bad, old(ub[..]), p, c0, src,
      p.lastBase + p.hwTail);
  }

  /** The body of the `n` and `c1` loops. */
  method RunGroup(input: array<Half>, good: nat, bad: nat, output: array<Half>, outBase: nat,
                  ub: array<Half>, va: seq<nat>, p: Plan, c0: nat)
    requires p.WellTiled() && p.tile.bufMax < BURST && Configured(va, p.col, 16, p.tile.bufMax)
    requires 0 < c0 <= 16 && input != ub && output != ub && input != output && p.Allocated(true) <= ub.Length
    requires good + (c0 - 1) * p.hw + Ceil16(p.hw) <= input.Length
    requires p.Multi() ==> bad + (c0 - 1) * p.hw + p.hw <= input.Length
    requires outBase + 16 * p.hw <= output.Length
    modifies output, ub
    ensures GroupStored(old(output[..]), output[..], outBase, input[..], good, bad, old(ub[..]), p, c0)
    ensures GroupLoaded(old(ub[..]), ub[..], input[..], good, bad, p, c0)
  {
    if p.chunks > 1 {
      RunChunks(input, good, bad, output, outBase, ub, va, p, c0);
    } else {
      RunSingleChunk(input, good, output, outBase, ub, va, p.hw, p.col, c0);
      SingleStored(old(output[..]), output[..], outBase, input[..], good, bad, old(ub[..]), p, c0);
    }
  }

  lemma TailSizes(p: Plan)
    requires p.WellTiled() && p.Multi()
    ensures var size := p.tile.tailCube / 16;
            && size % 16 == 0 && size <= p.col <= p.lastBase && p.hwTail <= p.col && PosOf(p.lastBase, p.col) == 0
            && (p.EmptyTail() <==> size == 0) && (0 < size ==> p.hwTail <= size)
            && p.lastBase + size <= Ceil16(p.hw) && p.lastBase + p.hwTail <= p.hw
            && p.lastBase + p.hwTail == if p.EmptyTail() && p.hw % 16 == 0 then p.lastBase else p.hw
  {
    WholeBlocks(p.chunks - 1, p.col);
    CeilShift(p.lastBase, p.hw - p.lastBase);
    MulMono(1, p.chunks - 1, p.col);
    DivModUnique(p.lastBase, p.col, p.chunks - 1, 0);
  }
}
