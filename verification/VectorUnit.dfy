/** The hardware steps that auto_schedule/python/dim_conv.py emits, run on arrays of fp16 bit patterns. */
module VectorUnit {
  import opened Arith
  import opened Tiling
  import opened Wrappers

  type Half = bv16

  /** Element `i` of a buffer, for statements that would otherwise have to say again that `i` is in it. */
  function At(a: seq<Half>, i: nat): Half { if i < |a| then a[i] else 0 }

  /** Elements of one copy burst, 2^16 * 32. */
  const BURST: nat := 0x20_0000

  /** `_emit_copy_gm_ubuf`: one burst of 16-element blocks.  Whole bursts of 2^16 * 32 elements are skipped, and what
      is left is rounded up to blocks. */
  method EmitCopy(size: nat, dst: array<Half>, dstOffset: nat, src: array<Half>, srcOffset: nat)
    requires dst != src
    requires dstOffset + Ceil16(size) <= dst.Length && srcOffset + Ceil16(size) <= src.Length
    modifies dst
    ensures var skipped, moved := size - size % 0x20_0000, (size % 0x20_0000 + 15) / 16 * 16;
      forall x :: 0 <= x < dst.Length ==>
        dst[x] == if dstOffset + skipped <= x < dstOffset + skipped + moved then src[x - dstOffset + srcOffset]
                  else old(dst[x])
  {
    var nBurst := size / BURST;
    var tail := size % BURST;
    if tail > 0 {
      var d, s := dstOffset + nBurst * BURST, srcOffset + nBurst * BURST;
      var lenBurst := (tail + 15) / 16;
      BurstsOfBlocks(size, nBurst, tail);
      forall i | 0 <= i < lenBurst * 16 {
        dst[d + i] := src[s + i];
      }
    }
  }

  lemma BurstsOfBlocks(size: nat, n: nat, tail: nat)
    requires n == size / BURST && tail == size % BURST
    ensures n * BURST == size - tail && Ceil16(size) == n * BURST + (tail + 15) / 16 * 16
  {
    CeilShift(n * BURST, tail);
  }

  /** A copy smaller than a burst skips nothing. */
  method CopyRow(size: nat, dst: array<Half>, dstOffset: nat, src: array<Half>, srcOffset: nat)
    requires dst != src && size < BURST
    requires dstOffset + Ceil16(size) <= dst.Length
    requires srcOffset + Ceil16(size) <= src.Length
    modifies dst
    ensures forall x :: 0 <= x < dst.Length ==>
              dst[x] == if dstOffset <= x < dstOffset + Ceil16(size) then src[x - dstOffset + srcOffset]
                else old(dst[x])
  {
    EmitCopy(size, dst, dstOffset, src, srcOffset);
  }

  /** The row that has the last word on offset `y` when `rows` rows, `stride` apart, are written in order. */
  function LastRow(y: nat, stride: nat, rows: nat): (r: nat)
    requires 0 < stride && 0 < rows
    ensures r < rows && r * stride <= y
  {
    if y / stride < rows then y / stride else MulMono(rows - 1, y / stride, stride); rows - 1
  }

  /** Row `r` is the last one on `y` exactly when it starts at or before `y` and the next does not. */
  lemma LastRowIs(y: nat, stride: nat, rows: nat, r: nat)
    requires 0 < stride && r < rows
    ensures r == LastRow(y, stride, rows) <==> r * stride <= y && (r == rows - 1 || y < r * stride + stride)
  {
    DivAtLeast(y, stride, r);
    DivAtLeast(y, stride, r + 1);
  }

  /** Where `x` gets its value from when `rows` rows of `width` elements are copied from `srcOffset` to
      `dstOffset`: an offset in the source, or None if no row reaches `x`. */
  function RowSource(x: nat, rows: nat, width: nat, dstOffset: nat, dstStride: nat, srcOffset: nat,
                     srcStride: nat): (s: Option<nat>)
    requires 0 < dstStride
    ensures s.Some? ==> 0 < rows && srcOffset <= s.value < srcOffset + (rows - 1) * srcStride + width
  {
    if x < dstOffset || rows == 0 then None else
    var r := LastRow(x - dstOffset, dstStride, rows);
    var t := x - dstOffset - r * dstStride;
    MulMono(r, rows - 1, srcStride);
    if t < width then Some(srcOffset + r * srcStride + t) else None
  }

  /** Element `t` of row `r` stands where the rows put it, unless the next row has been written over it. */
  lemma RowCell(rows: nat, width: nat, dstOffset: nat, dstStride: nat, srcOffset: nat, srcStride: nat, r: nat, t: nat)
    requires 0 < dstStride && r < rows && t < width && (r == rows - 1 || t < dstStride)
    ensures RowSource(dstOffset + r * dstStride + t, rows, width, dstOffset, dstStride, srcOffset, srcStride) ==
      Some(srcOffset + r * srcStride + t)
  {
    LastRowIs(r * dstStride + t, dstStride, rows, r);
  }

  /** Nothing is written only where no row gets. */
  lemma RowReaches(x: nat, rows: nat, width: nat, dstOffset: nat, dstStride: nat, srcOffset: nat, srcStride: nat,
                   r: nat)
    requires 0 < dstStride && r < rows && dstOffset + r * dstStride <= x < dstOffset + r * dstStride + width
    ensures RowSource(x, rows, width, dstOffset, dstStride, srcOffset, srcStride).Some?
  {
    var last := LastRow(x - dstOffset, dstStride, rows);
    LastRowIs(x - dstOffset, dstStride, rows, last);
    LaterRow(x - dstOffset, dstStride, rows, last, r);
  }

  lemma LaterRow(y: nat, stride: nat, rows: nat, last: nat, r: nat)
    requires r < rows && last < rows && r * stride <= y && (last == rows - 1 || y < last * stride + stride)
    ensures r * stride <= last * stride
  {
    if r > last { MulMono(last + 1, r, stride); } else { MulMono(r, last, stride); }
  }

  lemma RowSourceStep(x: nat, row: nat, width: nat, dstOffset: nat, dstStride: nat, srcOffset: nat, srcStride: nat)
    requires 0 < dstStride
    ensures RowSource(x, row + 1, width, dstOffset, dstStride, srcOffset, srcStride)
         == if dstOffset + row * dstStride <= x < dstOffset + row * dstStride + width
            then Some(srcOffset + row * srcStride + (x - (dstOffset + row * dstStride)))
            else RowSource(x, row, width, dstOffset, dstStride, srcOffset, srcStride)
  {
    if dstOffset <= x {
      DivAtLeast(x - dstOffset, dstStride, row);
      if 0 < row && row * dstStride <= x - dstOffset {
        MulStrict(row - 1, row, dstStride);
      }
    }
  }

  /** The effect of the first `rows` copies. */
  ghost predicate RowsCopied(before: seq<Half>, now: seq<Half>, src: seq<Half>, rows: nat, width: nat,
                             dstOffset: nat, dstStride: nat, srcOffset: nat, srcStride: nat)
    requires 0 < dstStride
  {
    |now| == |before| && forall x :: 0 <= x < |now| ==>
      var s := RowSource(x, rows, width, dstOffset, dstStride, srcOffset, srcStride);
      now[x] == if s.Some? && s.value < |src| then src[s.value] else before[x]
  }

  lemma RowsStep(before: seq<Half>, now: seq<Half>, next: seq<Half>, src: seq<Half>, row: nat, width: nat,
                 dstOffset: nat, dstStride: nat, srcOffset: nat, srcStride: nat)
    requires 0 < dstStride && RowsCopied(before, now, src, row, width, dstOffset, dstStride, srcOffset, srcStride)
    requires srcOffset + row * srcStride + width <= |src|
    requires |next| == |now| && forall x :: 0 <= x < |next| ==>
      next[x] == if dstOffset + row * dstStride <= x < dstOffset + row * dstStride + width
                 then src[srcOffset + row * srcStride + (x - (dstOffset + row * dstStride))] else now[x]
    ensures RowsCopied(before, next, src, row + 1, width, dstOffset, dstStride, srcOffset, srcStride)
  {
    forall x | 0 <= x < |next|
      ensures var s := RowSource(x, row + 1, width, dstOffset, dstStride, srcOffset, srcStride);
              next[x] == if s.Some? && s.value < |src| then src[s.value] else before[x]
    {
      RowSourceStep(x, row, width, dstOffset, dstStride, srcOffset, srcStride);
    }
  }

  /** The `col` loops: `rows` copies of `size` elements each, `srcStride` and `dstStride` apart.  Where
      rounded rows overlap the later row wins. */
  method CopyRows(rows: nat, size: nat, dst: array<Half>, dstOffset: nat, dstStride: nat,
                  src: array<Half>, srcOffset: nat, srcStride: nat)
    requires dst != src && 0 < rows && 0 < dstStride && size < BURST
    requires dstOffset + (rows - 1) * dstStride + Ceil16(size) <= dst.Length
    requires srcOffset + (rows - 1) * srcStride + Ceil16(size) <= src.Length
    modifies dst
    ensures forall x :: 0 <= x < dst.Length ==>
              var s := RowSource(x, rows, Ceil16(size), dstOffset, dstStride, srcOffset, srcStride);
              dst[x] == if s.Some? then src[s.value] else old(dst[x])
  {
    ghost var before := dst[..];
    var row := 0;
    while row < rows
      invariant 0 <= row <= rows
      invariant RowsCopied(before, dst[..], src[..], row, Ceil16(size), dstOffset, dstStride, srcOffset, srcStride)
    {
      MulMono(row, rows - 1, dstStride);
      MulMono(row, rows - 1, srcStride);
      var d, s := dstOffset + row * dstStride, srcOffset + row * srcStride;
      ghost var now := dst[..];
      CopyRow(size, dst, d, src, s);
      RowsStep(before, now, dst[..], src[..], row, Ceil16(size), dstOffset, dstStride, srcOffset, srcStride);
      row := row + 1;
    }
  }

  /** `_set_array_config`: byte addresses of 16 source rows (VA0, VA1) and 16 destination rows (VA2, VA3). */
  method SetArrayConfig(addr: array<nat>, srcStride: nat, dstStride: nat, outputOffset: nat)
    requires addr.Length == 32
    modifies addr
    ensures forall i :: 0 <= i < 16 ==> addr[i] == 2 * srcStride * i
    ensures forall i :: 16 <= i < 32 ==> addr[i] == 2 * (outputOffset + dstStride * (i - 16))
  {
    var i := 0;
    while i < 8
      invariant 0 <= i <= 8
      invariant forall k :: 0 <= k < i || 8 <= k < 8 + i ==> addr[k] == 2 * srcStride * k
      invariant forall k :: 16 <= k < 16 + i || 24 <= k < 24 + i ==>
        addr[k] == 2 * (outputOffset + dstStride * (k - 16))
    {
      addr[i] := 2 * srcStride * i;
      addr[8 + i] := 2 * srcStride * (i + 8);
      addr[16 + i] := 2 * (outputOffset + dstStride * i);
      addr[24 + i] := 2 * (outputOffset + dstStride * (i + 8));
      i := i + 1;
    }
  }

  /** Repeat `r` of `scatter_vnchwconv_b16` sends element `i` of source row `j` to element `j` of
      destination row `i`; strides count 16-element blocks. */
  function ScatterSrc(va: seq<nat>, r: nat, srcStride: nat, i: nat, j: nat): nat
    requires |va| == 32 && i < 16 && j < 16
  {
    va[j] / 2 + r * srcStride * 16 + i
  }

  function ScatterDst(va: seq<nat>, r: nat, dstStride: nat, i: nat, j: nat): nat
    requires |va| == 32 && i < 16 && j < 16
  {
    va[16 + i] / 2 + r * dstStride * 16 + j
  }

  /** `scatter_vnchwconv_b16`.  `bound` separates what it reads from what it writes, and `from` says for
      each written cell where its value comes from, so that no two repeats disagree about a cell. */
  method Scatter(ub: array<Half>, va: seq<nat>, repeat: nat, dstStride: nat, srcStride: nat,
                 ghost bound: nat, ghost from: nat -> nat)
    requires |va| == 32 && bound <= ub.Length
    requires forall r: nat, i: nat, j: nat :: r < repeat && i < 16 && j < 16 ==>
               ScatterSrc(va, r, srcStride, i, j) < bound <= ScatterDst(va, r, dstStride, i, j) < ub.Length
    requires forall r: nat, i: nat, j: nat :: r < repeat && i < 16 && j < 16 ==>
               from(ScatterDst(va, r, dstStride, i, j)) == ScatterSrc(va, r, srcStride, i, j)
    modifies ub
    ensures forall x :: 0 <= x < bound ==> ub[x] == old(ub[x])
    ensures repeat == 0 ==> ub[..] == old(ub[..])
    ensures forall r: nat, i: nat, j: nat :: r < repeat && i < 16 && j < 16 ==>
              ub[ScatterDst(va, r, dstStride, i, j)] == old(ub[ScatterSrc(va, r, srcStride, i, j)])
  {
    var r := 0;
    while r < repeat
      invariant 0 <= r <= repeat
      invariant forall x :: 0 <= x < bound ==> ub[x] == old(ub[x])
      invariant r == 0 ==> ub[..] == old(ub[..])
      invariant forall r': nat, i: nat, j: nat :: r' < r && i < 16 && j < 16 ==>
                  var d := ScatterDst(va, r', dstStride, i, j);
                  from(d) < bound && ub[d] == old(ub[from(d)])
    {
      var i := 0;
      while i < 16
        invariant 0 <= i <= 16
        invariant forall x :: 0 <= x < bound ==> ub[x] == old(ub[x])
        invariant forall r': nat, i': nat, j: nat :: i' < 16 && j < 16 && (r' < r || (r' == r && i' < i)) ==>
                    var d := ScatterDst(va, r', dstStride, i', j);
                    from(d) < bound && ub[d] == old(ub[from(d)])
      {
        forall j | 0 <= j < 16 {
          ub[ScatterDst(va, r, dstStride, i, j)] := ub[ScatterSrc(va, r, srcStride, i, j)];
        }
        i := i + 1;
      }
      r := r + 1;
    }
  }
}
