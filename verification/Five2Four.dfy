/** `_five2four_ir` of auto_schedule/python/dim_conv.py: NC1HWC0 to NCHW, as the program it emits. */
module Five2Four {
  import opened Arith
  import opened Wrappers
  import opened Tiling
  import opened VectorUnit
  import opened Layout

  /** Element `t` of transposed row `i` in the output half of the UB, whose rows are `col` wide. */
  function RowCell(col: nat, i: nat, t: nat): nat {
    16 * col + i * col + t
  }

  lemma RowCellBounds(col: nat, i: nat, t: nat)
    requires i < 16 && t < col
    ensures 16 * col <= RowCell(col, i, t) < 32 * col
    ensures From(col, RowCell(col, i, t)) == 16 * t + i
  {
    MulStrict(i, 16, col);
    DivModUnique(i * col + t, col, i, t);
  }

  /** Where transposing takes the value of UB cell `x` from. */
  function From(col: nat, x: nat): nat {
    if x < 16 * col || col == 0 then 0 else 16 * ((x - 16 * col) % col) + (x - 16 * col) / col
  }

  /** The output half holds positions `[0, width)` of the chunk that starts at `inOff` in the input. */
  ghost predicate HoldsRows(ub: seq<Half>, col: nat, input: seq<Half>, inOff: nat, width: nat) {
    forall i: nat, t: nat :: i < 16 && t < width && RowCell(col, i, t) < |ub| && inOff + 16 * t + i < |input| ==>
      ub[RowCell(col, i, t)] == input[inOff + 16 * t + i]
  }

  lemma TransposeAddresses(va: seq<nat>, col: nat, repeat: nat, r: nat, i: nat, j: nat)
    requires Configured(va, 16, col, 16 * col)
    requires r < repeat && 16 * repeat <= col && i < 16 && j < 16
    ensures ScatterDst(va, r, Stride(repeat, 1), i, j) == RowCell(col, i, 16 * r + j)
    ensures ScatterSrc(va, r, Stride(repeat, 16), i, j) == From(col, RowCell(col, i, 16 * r + j)) ==
      16 * (16 * r + j) + i
    ensures 16 * (16 * r + j) + i < 16 * col <= RowCell(col, i, 16 * r + j) < 32 * col
  {
    RowCellBounds(col, i, 16 * r + j);
    StrideOf(repeat, r, 1);
    StrideOf(repeat, r, 16);
    TwiceRow(col, i);
    assert va[16 + i] == 2 * (16 * col + col * i);
    assert va[j] == 2 * 16 * j;
  }

  /** Copy one chunk of `16 * repeat` positions to the UB and transpose it into 16 rows. */
  method LoadChunk(input: array<Half>, inOff: nat, repeat: nat, ub: array<Half>, va: seq<nat>, col: nat)
    requires Configured(va, 16, col, 16 * col)
    requires 16 * repeat <= col && 16 * col < BURST && 32 * col <= ub.Length
    requires input != ub && inOff + 256 * repeat <= input.Length
    modifies ub
    ensures HoldsRows(ub[..], col, input[..], inOff, 16 * repeat)
    ensures repeat == 0 ==> ub[..] == old(ub[..])
  {
    CopyRow(256 * repeat, ub, 0, input, inOff);
    label copied:
    TransposeChunk(ub, va, repeat, col);
    forall i: nat, t: nat | i < 16 && t < 16 * repeat
      ensures RowCell(col, i, t) < ub.Length && ub[RowCell(col, i, t)] == input[inOff + 16 * t + i]
    {
      RowCellBounds(col, i, t);
    }
  }

  method TransposeChunk(ub: array<Half>, va: seq<nat>, repeat: nat, col: nat)
    requires Configured(va, 16, col, 16 * col)
    requires 16 * repeat <= col && 32 * col <= ub.Length
    modifies ub
    ensures forall i: nat, t: nat :: i < 16 && t < 16 * repeat ==>
              RowCell(col, i, t) < ub.Length && 16 * t + i < ub.Length && ub[RowCell(col, i, t)] == old(ub[16 * t + i])
    ensures repeat == 0 ==> ub[..] == old(ub[..])
  {
    forall r: nat, i: nat, j: nat | r < repeat && i < 16 && j < 16
      ensures ScatterSrc(va, r, Stride(repeat, 16), i, j) < 16 * col <=
        ScatterDst(va, r, Stride(repeat, 1), i, j) < ub.Length
      ensures From(col, ScatterDst(va, r, Stride(repeat, 1), i, j)) == ScatterSrc(va, r, Stride(repeat, 16), i, j)
    {
      TransposeAddresses(va, col, repeat, r, i, j);
    }
    Scatter(ub, va, repeat, Stride(repeat, 1), Stride(repeat, 16), 16 * col, x => From(col, x));
    forall i: nat, t: nat | i < 16 && t < 16 * repeat
      ensures RowCell(col, i, t) < ub.Length && 16 * t + i < ub.Length && ub[RowCell(col, i, t)] == old(ub[16 * t + i])
    {
      var r, j := t / 16, t % 16;
      TransposeAddresses(va, col, repeat, r, i, j);
      assert ub[ScatterDst(va, r, Stride(repeat, 1), i, j)] == old(ub[ScatterSrc(va, r, Stride(repeat, 16), i, j)]);
    }
  }

  /** Where cell `q` of a group's output gets its value from: an offset in the group's input, or None
      if the group leaves the cell alone.  Past the last row's end lie the rounded-up elements. */
  function GroupSource(p: Plan, c0: nat, q: nat): Option<nat>
    requires 0 < p.hw && 0 < c0
  {
    var row := LastRow(q, p.hw, c0);
    PlaneSource(p, row, q - row * p.hw)
  }

  /** An empty tail chunk is not loaded: it is not written if the plane ends with a block, and
      otherwise repeats the chunk before it. */
  function PlaneSource(p: Plan, row: nat, t: nat): Option<nat>
  {
    if t >= Ceil16(p.hw) then None
    else if p.EmptyTail() && p.lastBase <= t then
      if p.hw % 16 == 0 then None else if t < p.col then None else Some(16 * (t - p.col) + row)
    else Some(16 * t + row)
  }

  /** Rows of `width` elements that start `shift` into each plane reach `q` exactly when the position
      of `q` in its own plane is in `[shift, shift + width)`; what spills over the end of a plane only
      reaches the first 16 positions of the next. */
  lemma ShiftedRow(q: nat, shift: nat, width: nat, hw: nat, rows: nat)
    requires 0 < rows && shift < hw && width <= hw && shift + width < hw + 16
    ensures var row := LastRow(q, hw, rows);
            var t := q - row * hw;
            shift + width <= hw || 16 <= t ==>
              (shift <= q && q - shift - LastRow(q - shift, hw, rows) * hw < width <==> shift <= t < shift + width)
              && (shift <= t < shift + width ==> LastRow(q - shift, hw, rows) == row)
  {
    var row := LastRow(q, hw, rows);
    var t := q - row * hw;
    LastRowIs(q, hw, rows, row);
    if shift <= t {
      LastRowIs(q - shift, hw, rows, row);
    } else if shift <= q {
      var r := LastRow(q - shift, hw, rows);
      LastRowIs(q - shift, hw, rows, r);
      if row <= r { MulMono(row, r, hw); }
      MulStrict(r, row, hw);
      if r + 1 < row { MulStrict(r + 1, row, hw); }
    }
  }

  /** Position of cell `q` in the plane of its row. */
  function Pos(q: nat, hw: nat, rows: nat): nat
    requires 0 < hw && 0 < rows
  {
    q - LastRow(q, hw, rows) * hw
  }

  /** `after` is `before` with the window `[shift, shift + width)` of every row replaced by the
      corresponding positions of the input, counted from position `from` of the group.  Nothing is said
      of the first `unknown` positions of a row. */
  ghost predicate WindowStored(before: seq<Half>, after: seq<Half>, outBase: nat, input: seq<Half>, inBase: nat,
                               hw: nat, rows: nat, shift: nat, width: nat, from: nat, unknown: nat)
    requires 0 < hw && 0 < rows
  {
    && |after| == |before|
    && forall x :: 0 <= x < |after| && (x < outBase || unknown <= Pos(x - outBase, hw, rows)) ==>
         after[x] == if outBase <= x && shift <= Pos(x - outBase, hw, rows) < shift + width
                     then At(input, inBase + 16 * (Pos(x - outBase, hw, rows) - shift + from) + LastRow(x - outBase, hw,
                       rows))
                     else before[x]
  }

  /** What a whole group stores. */
  ghost predicate GroupStored(before: seq<Half>, after: seq<Half>, outBase: nat, input: seq<Half>, inBase: nat, p: Plan,
                              c0: nat)
    requires 0 < p.hw && 0 < c0
  {
    && |after| == |before|
    && forall x :: 0 <= x < |after| ==>
         after[x] == if outBase <= x && GroupSource(p, c0, x - outBase).Some?
                     then At(input, inBase + GroupSource(p, c0, x - outBase).value)
                     else before[x]
  }

  /** The `col` loop that copies transposed rows of `size` positions out.  Rounding may run past the
      end of a row by less than a block. */
  method StoreRows(ub: array<Half>, col: nat, ghost input: seq<Half>, ghost inBase: nat, ghost from: nat,
                   output: array<Half>, outBase: nat, hw: nat, rows: nat, shift: nat, size: nat)
    requires 0 < rows <= 16 && shift < hw && 0 < size && Ceil16(size) <= col && 16 * col < BURST
    requires shift + Ceil16(size) < hw + 16 && (shift == 0 || col <= hw)
    requires output != ub && 32 * col <= ub.Length
    requires outBase + (rows - 1) * hw + shift + Ceil16(size) <= output.Length
    requires HoldsRows(ub[..], col, input, inBase + 16 * from, Ceil16(size))
    requires inBase + 16 * from + 16 * Ceil16(size) <= |input|
    modifies output
    ensures WindowStored(old(output[..]), output[..], outBase, input, inBase, hw, rows, shift, Ceil16(size), from,
                         if shift == 0 || shift + Ceil16(size) <= hw then 0 else 16)
  {
    MulMono(rows, 16, col);
    CopyRows(rows, size, output, outBase + shift, hw, ub, 16 * col, col);
    forall x | outBase <= x < output.Length &&
      (shift == 0 || shift + Ceil16(size) <= hw || 16 <= Pos(x - outBase, hw, rows))
      ensures output[x] == if shift <= Pos(x - outBase, hw, rows) < shift + Ceil16(size)
                     then At(input, inBase + 16 * (Pos(x - outBase, hw, rows) - shift + from) + LastRow(x - outBase, hw,
                       rows))
                     else old(output[x])
    {
      if shift > 0 {
        ShiftedRow(x - outBase, shift, Ceil16(size), hw, rows);
      }
      if shift <= Pos(x - outBase, hw, rows) < shift + Ceil16(size) {
        var row, t := LastRow(x - outBase, hw, rows), Pos(x - outBase, hw, rows) - shift;
        RowCellBounds(col, row, t);
        assert ub[RowCell(col, row, t)] == input[inBase + 16 * from + 16 * t + row];
      }
    }
  }

  /** Where cell `x` of the tensor is saved if it is in the head of a row. */
  function HeadCell(x: int, col: nat, outBase: nat, hw: nat, rows: nat): nat
    requires 0 < hw && 0 < rows && outBase <= x
  {
    32 * col + 16 * LastRow(x - outBase, hw, rows) + Pos(x - outBase, hw, rows)
  }

  predicate InHead(x: int, outBase: nat, hw: nat, rows: nat)
    requires 0 < hw && 0 < rows
  {
    outBase <= x && Pos(x - outBase, hw, rows) < 16
  }

  /** The heads of the rows of the group, 16 elements each, stand in the head buffer. */
  ghost predicate HeadsHeld(ub: seq<Half>, output: seq<Half>, col: nat, outBase: nat, hw: nat, rows: nat)
    requires 0 < hw && 0 < rows
  {
    forall x :: 0 <= x < |output| && InHead(x, outBase, hw, rows) ==>
      HeadCell(x, col, outBase, hw, rows) < |ub| && ub[HeadCell(x, col, outBase, hw, rows)] == output[x]
  }

  lemma HeadSource(x: nat, col: nat, outBase: nat, hw: nat, rows: nat)
    requires 0 < rows <= 16 && 16 <= hw && InHead(x, outBase, hw, rows)
    ensures HeadCell(x, col, outBase, hw, rows) < 32 * col + 256
    ensures RowSource(HeadCell(x, col, outBase, hw, rows), rows, 16, 32 * col, 16, outBase, hw) == Some(x)
  {
    var row, t := LastRow(x - outBase, hw, rows), Pos(x - outBase, hw, rows);
    LastRowIs(16 * row + t, 16, rows, row);
  }

  /** Save the heads behind the two halves of the UB, which stay as they are. */
  method SaveHeads(ub: array<Half>, col: nat, output: array<Half>, outBase: nat, hw: nat, rows: nat)
    requires 0 < rows <= 16 && 16 <= hw && output != ub && 32 * col + 256 <= ub.Length
    requires outBase + (rows - 1) * hw + 16 <= output.Length
    modifies ub
    ensures HeadsHeld(ub[..], output[..], col, outBase, hw, rows)
    ensures forall x :: 0 <= x < 32 * col ==> ub[x] == old(ub[x])
  {
    CopyRows(rows, 16, ub, 32 * col, 16, output, outBase, hw);
    forall x | 0 <= x < output.Length && InHead(x, outBase, hw, rows)
      ensures HeadCell(x, col, outBase, hw, rows) < ub.Length && ub[HeadCell(x, col, outBase, hw, rows)] == output[x]
    {
      HeadSource(x, col, outBase, hw, rows);
    }
  }

  /** Put them back, whatever has become of the rows. */
  method RestoreHeads(ub: array<Half>, col: nat, output: array<Half>, outBase: nat, hw: nat, rows: nat,
                      ghost was: seq<Half>)
    requires 0 < rows <= 16 && 16 <= hw && output != ub && 32 * col + 256 <= ub.Length && |was| == output.Length
    requires outBase + (rows - 1) * hw + 16 <= output.Length
    requires HeadsHeld(ub[..], was, col, outBase, hw, rows)
    modifies output
    ensures forall x :: 0 <= x < output.Length ==>
      output[x] == if InHead(x, outBase, hw, rows) then was[x] else old(output[x])
  {
    CopyRows(rows, 16, output, outBase, hw, ub, 32 * col, 16);
  }

  /** The rows lie in the output half of the UB. */
  lemma RowsBelow(col: nat, width: nat)
    requires width <= col
    ensures forall i: nat, t: nat :: i < 16 && t < width ==> RowCell(col, i, t) < 32 * col
  {
    forall i: nat, t: nat | i < 16 && t < width ensures RowCell(col, i, t) < 32 * col { RowCellBounds(col, i, t); }
  }

  /** The tail of a plane that ends inside a block: save the 16-element head of each row, store the
      rows, whose rounding clobbers the heads, and put the heads back. */
  method StoreRowsKeepingHeads(ub: array<Half>, col: nat, ghost input: seq<Half>, ghost inBase: nat, ghost from: nat,
                               output: array<Half>, outBase: nat, hw: nat, rows: nat, shift: nat, size: nat)
    requires 0 < rows <= 16 && 16 <= shift < hw && 0 < size && Ceil16(size) <= col && 16 * col < BURST
    requires hw < shift + Ceil16(size) < hw + 16 && col <= hw
    requires output != ub && 32 * col + 256 <= ub.Length
    requires outBase + (rows - 1) * hw + shift + Ceil16(size) <= output.Length
    requires HoldsRows(ub[..], col, input, inBase + 16 * from, Ceil16(size))
    requires inBase + 16 * from + 16 * Ceil16(size) <= |input|
    modifies output, ub
    ensures WindowStored(old(output[..]), output[..], outBase, input, inBase, hw, rows, shift, Ceil16(size), from, 0)
  {
    ghost var was := output[..];
    SaveHeads(ub, col, output, outBase, hw, rows);
    RowsBelow(col, Ceil16(size));
    StoreRows(ub, col, input, inBase, from, output, outBase, hw, rows, shift, size);
    RestoreHeads(ub, col, output, outBase, hw, rows, was);
  }

  /** Consecutive windows read from their own positions make one window. */
  lemma WindowsJoin(a: seq<Half>, b: seq<Half>, c: seq<Half>, outBase: nat, input: seq<Half>, inBase: nat,
                    hw: nat, rows: nat, mid: nat, width: nat)
    requires 0 < hw && 0 < rows
    requires WindowStored(a, b, outBase, input, inBase, hw, rows, 0, mid, 0, 0)
    requires WindowStored(b, c, outBase, input, inBase, hw, rows, mid, width, mid, 0)
    ensures WindowStored(a, c, outBase, input, inBase, hw, rows, 0, mid + width, 0, 0)
  {
  }

  /** One full window makes a group. */
  lemma WholePlaneStored(a: seq<Half>, b: seq<Half>, outBase: nat, input: seq<Half>, inBase: nat, p: Plan, c0: nat)
    requires p.WellTiled() && 0 < c0 && !p.EmptyTail()
    requires WindowStored(a, b, outBase, input, inBase, p.hw, c0, 0, Ceil16(p.hw), 0, 0)
    ensures GroupStored(a, b, outBase, input, inBase, p, c0)
  {
  }

  /** With an empty tail the last window repeats the chunk before it, or is missing. */
  lemma EmptyTailStored(a: seq<Half>, b: seq<Half>, c: seq<Half>, outBase: nat, input: seq<Half>, inBase: nat, p: Plan,
                        c0: nat)
    requires p.WellTiled() && 0 < c0 && p.EmptyTail()
    requires WindowStored(a, b, outBase, input, inBase, p.hw, c0, 0, p.lastBase, 0, 0)
    requires if p.hw % 16 == 0 then b == c
             else p.col <= p.lastBase && WindowStored(b, c, outBase, input, inBase, p.hw, c0, p.lastBase, p.col,
               p.lastBase - p.col, 0)
    ensures GroupStored(a, c, outBase, input, inBase, p, c0)
  {
    LastCeil(p);
    forall x | 0 <= x < |c|
      ensures c[x] == if outBase <= x && GroupSource(p, c0, x - outBase).Some?
                      then At(input, inBase + GroupSource(p, c0, x - outBase).value)
                      else a[x]
    {
      if outBase <= x {
        EmptyTailSource(p, LastRow(x - outBase, p.hw, c0), Pos(x - outBase, p.hw, c0));
      }
    }
  }

  lemma EmptyTailSource(p: Plan, row: nat, t: nat)
    requires p.WellTiled() && p.EmptyTail()
    ensures PlaneSource(p, row, t)
         == if t < p.lastBase then Some(16 * t + row)
            else if p.hw % 16 != 0 && t < p.lastBase + p.col then Some(16 * (t - p.col) + row)
            else None
  {
    LastCeil(p);
  }

  lemma LastCeil(p: Plan)
    requires p.WellTiled()
    ensures p.lastBase % 16 == 0 && Ceil16(p.hw) == p.lastBase + Ceil16(p.hw - p.lastBase)
    ensures p.Multi() ==> p.col <= p.lastBase && (p.chunks - 2) * p.col == p.lastBase - p.col
  {
    WholeBlocks(p.chunks - 1, p.col);
    CeilShift(p.lastBase, p.hw - p.lastBase);
    if p.Multi() { MulMono(1, p.chunks - 1, p.col); }
  }

  /** One full chunk, entirely inside the plane. */
  method RunFullChunk(input: array<Half>, inBase: nat, inOff: nat, output: array<Half>, outBase: nat,
                      ub: array<Half>, va: seq<nat>, hw: nat, col: nat, c0: nat, shift: nat)
    requires 0 < col && col % 16 == 0 && 16 * col < BURST && shift + col <= hw && inOff == inBase + 16 * shift
    requires Configured(va, 16, col, 16 * col)
    requires 0 < c0 <= 16 && input != ub && output != ub && input != output && 32 * col <= ub.Length
    requires inBase + 16 * hw <= input.Length && outBase + (c0 - 1) * hw + hw <= output.Length
    modifies output, ub
    ensures WindowStored(old(output[..]), output[..], outBase, input[..], inBase, hw, c0, shift, col, shift, 0)
    ensures HoldsRows(ub[..], col, input[..], inBase + 16 * shift, col)
  {
    LoadChunk(input, inOff, col / 16, ub, va, col);
    StoreRows(ub, col, input[..], inBase, shift, output, outBase, hw, c0, shift, col);
  }

  /** All chunks but the last. */
  method RunFullChunks(input: array<Half>, inBase: nat, output: array<Half>, outBase: nat,
                       ub: array<Half>, va: seq<nat>, hw: nat, col: nat, chunks: nat, c0: nat, ghost lastBase: nat)
    requires 1 < chunks && 0 < col && col % 16 == 0 && 16 * col < BURST && (chunks - 1) * col == lastBase < hw
    requires Configured(va, 16, col, 16 * col)
    requires 0 < c0 <= 16 && input != ub && output != ub && input != output && 32 * col <= ub.Length
    requires inBase + 16 * hw <= input.Length && outBase + (c0 - 1) * hw + hw <= output.Length
    modifies output, ub
    ensures WindowStored(old(output[..]), output[..], outBase, input[..], inBase, hw, c0, 0, lastBase, 0, 0)
    ensures col <= lastBase && HoldsRows(ub[..], col, input[..], inBase + 16 * (lastBase - col), col)
  {
    var k := 0;
    ghost var shift := 0;
    while k < chunks - 1
      invariant 0 <= k < chunks && shift == k * col && (0 < k ==> col <= shift)
      invariant WindowStored(old(output[..]), output[..], outBase, input[..], inBase, hw, c0, 0, shift, 0, 0)
      invariant 0 < k ==> HoldsRows(ub[..], col, input[..], inBase + 16 * (shift - col), col)
    {
      ghost var stored := output[..];
      ChunkStep(k, chunks, col);
      RunFullChunk(input, inBase, inBase + k * (16 * col), output, outBase, ub, va, hw, col, c0, k * col);
      WindowsJoin(old(output[..]), stored, output[..], outBase, input[..], inBase, hw, c0, shift, col);
      k, shift := k + 1, shift + col;
    }
  }

  lemma ChunkStep(k: nat, chunks: nat, col: nat)
    requires k < chunks - 1
    ensures k * col + col <= (chunks - 1) * col && (k + 1) * col == k * col + col && k * (16 * col) == 16 * (k * col)
  {
    MulStrict(k, chunks - 1, col);
  }

  /** The last chunk, `w` positions wide, of a plane that takes several.  With `repeat` 0 nothing is
      loaded and the UB still holds the chunk before. */
  method RunTailChunk(input: array<Half>, inBase: nat, output: array<Half>, outBase: nat,
                      ub: array<Half>, va: seq<nat>, hw: nat, col: nat, c0: nat,
                      lastBase: nat, repeat: nat, hwTail: nat, ghost from: nat)
    requires 0 < col && col % 16 == 0 && 16 * col < BURST && Configured(va, 16, col, 16 * col)
    requires 0 < c0 <= 16 && input != ub && output != ub && input != output
    requires 32 * col + (if hwTail % 16 != 0 then 256 else 0) <= ub.Length
    requires col <= lastBase < hw && lastBase % 16 == 0 && 16 * repeat <= col
    requires hwTail == 0 || hwTail == hw - lastBase
    requires inBase + 16 * (lastBase + Ceil16(hwTail)) <= input.Length
    requires outBase + (c0 - 1) * hw + lastBase + Ceil16(hwTail) <= output.Length
    requires if repeat == 0 then from == lastBase - col && Ceil16(hwTail) <= col
             else from == lastBase && Ceil16(hwTail) == 16 * repeat
    requires HoldsRows(ub[..], col, input[..], inBase + 16 * (lastBase - col), col)
    modifies output, ub
    ensures WindowStored(old(output[..]), output[..], outBase, input[..], inBase, hw, c0, lastBase, Ceil16(hwTail),
      from, 0)
  {
    LoadChunk(input, inBase + 16 * lastBase, repeat, ub, va, col);
    CeilShift(lastBase, hwTail);
    if hwTail % 16 == 0 {
      if hwTail > 0 {
        StoreRows(ub, col, input[..], inBase, from, output, outBase, hw, c0, lastBase, hwTail);
      }
    } else {
      StoreRowsKeepingHeads(ub, col, input[..], inBase, from, output, outBase, hw, c0, lastBase, hwTail);
    }
  }

  /** The whole plane in one chunk. */
  method RunSingleChunk(input: array<Half>, inBase: nat, output: array<Half>, outBase: nat,
                        ub: array<Half>, va: seq<nat>, hw: nat, col: nat, c0: nat, hwTail: nat)
    requires 0 < hw && col == Ceil16(hw) && 16 * col < BURST && hwTail == (if hw % 16 == 0 then 0 else hw)
    requires Configured(va, 16, col, 16 * col)
    requires 0 < c0 <= 16 && input != ub && output != ub && input != output && 32 * col <= ub.Length
    requires inBase + 16 * col <= input.Length && outBase + (c0 - 1) * hw + col <= output.Length
    modifies output, ub
    ensures WindowStored(old(output[..]), output[..], outBase, input[..], inBase, hw, c0, 0, col, 0, 0)
  {
    LoadChunk(input, inBase, col / 16, ub, va, col);
    var size := if hwTail == 0 then col else hwTail;
    StoreRows(ub, col, input[..], inBase, 0, output, outBase, hw, c0, 0, size);
  }

  /** The body of the `n` and `c1` loops: all chunks of one group of `c0` channels, whose input starts
      at `inBase` and whose output starts at `outBase`. */
  method RunGroup(input: array<Half>, inBase: nat, output: array<Half>, outBase: nat,
                  ub: array<Half>, va: seq<nat>, p: Plan, c0: nat)
    requires p.WellTiled() && p.tile.bufMax < BURST && Configured(va, 16, p.col, p.tile.bufMax)
    requires 0 < c0 <= 16 && input != ub && output != ub && input != output
    requires p.Allocated(false) <= ub.Length
    requires inBase + 16 * Ceil16(p.hw) <= input.Length
    requires outBase + (c0 - 1) * p.hw + Ceil16(p.hw) <= output.Length
    modifies output, ub
    ensures GroupStored(old(output[..]), output[..], outBase, input[..], inBase, p, c0)
  {
    ghost var before := output[..];
    if p.chunks > 1 {
      var repeat := p.tile.tailCube / 16 / 16;
      TailFacts(p);
      RunFullChunks(input, inBase, output, outBase, ub, va, p.hw, p.col, p.chunks, c0, p.lastBase);
      ghost var stored := output[..];
      ghost var from := if p.EmptyTail() then p.lastBase - p.col else p.lastBase;
      RunTailChunk(input, inBase, output, outBase, ub, va, p.hw, p.col, c0, (p.chunks - 1) * p.col, repeat, p.hwTail,
        from);
      TailStored(before, stored, output[..], outBase, input[..], inBase, p, c0, from);
    } else {
      RunSingleChunk(input, inBase, output, outBase, ub, va, p.hw, p.col, c0, p.hwTail);
      WholePlaneStored(before, output[..], outBase, input[..], inBase, p, c0);
    }
  }

  lemma TailStored(a: seq<Half>, b: seq<Half>, c: seq<Half>, outBase: nat, input: seq<Half>, inBase: nat,
                   p: Plan, c0: nat, from: nat)
    requires p.WellTiled() && p.Multi() && 0 < c0
    requires WindowStored(a, b, outBase, input, inBase, p.hw, c0, 0, p.lastBase, 0, 0)
    requires WindowStored(b, c, outBase, input, inBase, p.hw, c0, p.lastBase, Ceil16(p.hwTail), from, 0)
    requires from == if p.EmptyTail() then p.lastBase - p.col else p.lastBase
    ensures GroupStored(a, c, outBase, input, inBase, p, c0)
  {
    TailFacts(p);
    if p.EmptyTail() {
      EmptyTailStored(a, b, c, outBase, input, inBase, p, c0);
    } else {
      WindowsJoin(a, b, c, outBase, input, inBase, p.hw, c0, p.lastBase, Ceil16(p.hwTail));
      WholePlaneStored(a, c, outBase, input, inBase, p, c0);
    }
  }

  lemma TailFacts(p: Plan)
    requires p.WellTiled() && p.Multi()
    ensures var repeat := p.tile.tailCube / 16 / 16;
            && p.lastBase % 16 == 0 && p.col <= p.lastBase && 16 * repeat <= p.col
            && (p.EmptyTail() ==> repeat == 0 && Ceil16(p.hwTail) <= p.col && (p.hwTail == 0 <==> p.hw % 16 == 0))
            && (!p.EmptyTail() ==> 0 < repeat && Ceil16(p.hwTail) == 16 * repeat)
            && (p.hwTail % 16 == 0 <==> p.hw % 16 == 0)
            && Ceil16(p.hw) == p.lastBase + Ceil16(p.hw - p.lastBase)
            && (p.hwTail != 0 ==> p.hwTail == p.hw - p.lastBase)
            && (p.hwTail != 0 && p.EmptyTail() ==> Ceil16(p.hwTail) == p.col)
  {
    LastCeil(p);
  }
}
