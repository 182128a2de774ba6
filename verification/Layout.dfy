/** Indices, offsets and loop ranges shared by both conversions of auto_schedule/python/dim_conv.py. */
module Layout {
  import opened Arith
  import opened Tiling

  /** The vector address registers hold 16 source rows at 0, `srcStride`, ... and 16 destination rows
      at `out`, `out + dstStride`, ... */
  predicate Configured(va: seq<nat>, srcStride: nat, dstStride: nat, out: nat) {
    && |va| == 32
    && (forall i :: 0 <= i < 16 ==> va[i] == 2 * srcStride * i)
    && (forall i :: 16 <= i < 32 ==> va[i] == 2 * (out + dstStride * (i - 16)))
  }

  /** The strides of the transpose, which are 0 when there is only one repeat. */
  function Stride(repeat: nat, blocks: nat): nat {
    if repeat == 1 then 0 else blocks
  }

  lemma StrideOf(repeat: nat, r: nat, blocks: nat)
    requires r < repeat && (blocks == 1 || blocks == 16)
    ensures r * Stride(repeat, blocks) * 16 == 16 * blocks * r
  {
  }

  lemma TwiceRow(col: nat, j: nat)
    ensures 2 * col * j == 2 * (j * col)
  {
  }

  /** Element `q` of image `n` in a tensor of images of `size` elements. */
  function Cell(n: nat, size: nat, q: nat): nat {
    n * size + q
  }

  /** Where a group of 16 channels of an NC1HWC0 tensor with `c1` groups an image starts. */
  function GroupBase(n: nat, c1: nat, g: nat, hw: nat): nat {
    Sum(n * c1 + g, 16 * hw)
  }

  /** Row and position of element `q` of an image. */
  function RowOf(q: nat, hw: nat): nat { if hw == 0 then 0 else q / hw }
  function PosOf(q: nat, hw: nat): nat { if hw == 0 then 0 else q % hw }

  /** Rounded-up elements past the end of a plane. */
  function Spill(hw: nat): nat {
    Ceil16(hw) - hw
  }

  lemma RowsAdd(k: nat, y: nat, hw: nat)
    requires 0 < hw
    ensures (k * hw + y) / hw == k + y / hw && (k * hw + y) % hw == y % hw
  {
    var r, t := y / hw, y % hw;
    assert k * hw + y == (k + r) * hw + t;
    DivModUnique(k * hw + y, hw, k + r, t);
  }

  /** One call of `_five2four_intrin` or `_four2five_intrin`: groups `[begin, end)` of every image, `c0` channels
      each. */
  datatype Pass = Pass(c0: nat, begin: nat, end: nat) {

    /** Elements of an image before this pass's rows, and up to their end. */
    function First(hw: nat): nat { begin * (16 * hw) }
    function Last(hw: nat): nat { if begin < end then (end - 1) * (16 * hw) + c0 * hw else First(hw) }

    /** Full groups from the first on, or one last partial group. */
    predicate Fits(hw: nat, size: nat) {
      && 0 < c0 <= 16 && begin <= end
      && Last(hw) <= size
      && (c0 < 16 || 0 < begin ==> end == begin + 1 && Last(hw) == size)
    }
  }

  lemma PassStep(pass: Pass, g: nat, hw: nat, size: nat)
    requires 0 < hw && pass.Fits(hw, size) && pass.begin <= g < pass.end
    ensures pass.First(hw) <= g * (16 * hw)
    ensures g * (16 * hw) + pass.c0 * hw <= pass.Last(hw) <= size
    ensures (g + 1) * (16 * hw) == g * (16 * hw) + 16 * hw
    ensures if g + 1 == pass.end then pass.Last(hw) == g * (16 * hw) + pass.c0 * hw
            else pass.c0 == 16 && (g + 1) * (16 * hw) <= pass.Last(hw)
    ensures 0 < pass.begin ==>
      16 <= 16 * hw <= pass.First(hw) && g == pass.begin && pass.First(hw) + pass.c0 * hw == size
    ensures pass.c0 * hw <= 16 * hw
  {
    MulMono(pass.begin, g, 16 * hw);
    MulMono(g, pass.end - 1, 16 * hw);
    MulMono(pass.c0, 16, hw);
    if g + 1 < pass.end { MulStrict(g, pass.end - 1, 16 * hw); }
    if 0 < pass.begin { MulMono(1, pass.begin, 16 * hw); }
  }

  lemma GroupInside(pass: Pass, g: nat, hw: nat, size: nat)
    requires 0 < hw && pass.Fits(hw, size) && pass.begin <= g < pass.end
    ensures g * (16 * hw) + pass.c0 * hw <= size
  {
    PassStep(pass, g, hw, size);
  }

  lemma NextStart(g: nat, hw: nat)
    ensures (g + 1) * (16 * hw) == g * (16 * hw) + 16 * hw
  {
  }

  lemma WholeBlocksNeedNoSpill(hw: nat)
    ensures Spill(hw) == 0 <==> hw % 16 == 0
  {
  }

  /** Groups of 16 channels, rounded up. */
  function C1(c: nat): nat { (c + 15) / 16 }

  /** Element `[n, c1i, pos, c0]` of an NC1HWC0 tensor, `pos` standing for `h * W + w`. */
  function Index5(n: nat, c1: nat, c1i: nat, hw: nat, pos: nat, c0: nat): nat {
    ((n * c1 + c1i) * hw + pos) * 16 + c0
  }

  /** fp16 elements of an NC1HWC0 tensor. */
  function Size5(n: nat, c: nat, hw: nat): nat { Sum(n * C1(c), 16 * hw) }

  function Plane(h: nat, w: nat): nat { h * w }

  lemma PassesFit(c: nat, hw: nat)
    requires 0 < hw
    ensures var first, last := Pass(16, 0, c / 16), Pass(c % 16, c / 16, C1(c));
            && first.Fits(hw, c * hw) && first.First(hw) == 0 && first.Last(hw) == c / 16 * (16 * hw)
            && (c % 16 != 0 ==> C1(c) == c / 16 + 1 && last.Fits(hw, c * hw)
                                && last.First(hw) == c / 16 * (16 * hw) && last.Last(hw) == c * hw)
            && (c % 16 == 0 ==> C1(c) == c / 16 && first.Last(hw) == c * hw)
  {
    var k, t := c / 16, c % 16;
    assert c * hw == k * (16 * hw) + t * hw;
    if 0 < k { assert (k - 1) * (16 * hw) + 16 * hw == k * (16 * hw); }
  }
}
