/** Tile sizes of the NCHW <-> NC1HWC0 layout conversions (auto_schedule/python/dim_conv.py).

    The unified buffer (UB) holds `ubSize` bytes.  A 16-channel group of an H*W plane is moved
    through it in chunks of `col` positions: `bufMax` fp16 elements for the input half and as many
    for the transposed half. */
module Tiling {
  import opened Arith

  /** Position counts rounded up to whole blocks of 16 fp16 elements. */
  function Ceil16(x: nat): (r: nat)
    ensures x <= r < x + 16 && r % 16 == 0
  {
    (x + 15) / 16 * 16
  }

  /** What the source assumes of the chip: whole kilobytes, more than one, and small enough that a
      buffer half never reaches the 2^21 elements beyond which a copy drops data. */
  predicate ValidUb(ubSize: nat) {
    ubSize % 1024 == 0 && 1024 < ubSize < 0x80_0000
  }

  datatype Tile = Tile(bufMax: nat, tailCube: nat)

  /** Both results count fp16 elements; the arithmetic inside is in bytes. */
  function CubeBufMax(hw: nat, four2five: bool, ubSize: nat): Tile
    requires 0 < hw && ValidUb(ubSize)
  {
    var cube := ((hw - 1) / 16 + 1) * 16 * 16 * 2;
    var limit := ubSize / 2;
    if cube > limit then
      if four2five then
        Tile(limit / 2, cube % limit / 2)
      else
        var limit := if hw % 16 != 0 then (ubSize - 512) / 2 / (2 * 16 * 16) * (2 * 16 * 16) else limit;
        Tile(limit / 2, cube % limit / 2)
    else
      Tile(cube / 2, 0)
  }

  /** What both conversions compute from the plane size `hw` before their loops: `col` positions a
      chunk, `chunks` of them, `lastBase` the first position of the last one, and `hwTail` =
      `hw % col`. */
  datatype Plan = Plan(hw: nat, tile: Tile, col: nat, chunks: nat, lastBase: nat, hwTail: nat) {

    predicate Multi() {
      chunks > 1
    }

    /** The rounded plane fills its chunks exactly: the last chunk is given a `tailCube` of 0. */
    predicate EmptyTail() {
      Multi() && tile.tailCube == 0
    }

    /** five2four allocates a buffer for 16 row heads exactly when this holds. */
    predicate NeedsHead() {
      hwTail != 0 && hwTail % 16 != 0 && chunks > 1
    }

    /** fp16 elements allocated in the UB. */
    function Allocated(four2five: bool): nat {
      2 * tile.bufMax + if !four2five && NeedsHead() then 256 else 0
    }

    /** The chunks partition the plane [0, hw): all but the last are full, the last holds
        [lastBase, hw), and unless the tail is empty `tailCube` is its rounded size. */
    predicate WellTiled() {
      && 0 < hw && 1 <= chunks
      && 16 <= col && col % 16 == 0 && tile.bufMax == 16 * col
      && lastBase == (chunks - 1) * col && lastBase < hw <= lastBase + col
      && (!Multi() ==> col == Ceil16(hw) && hwTail == if hw % 16 == 0 then 0 else hw)
      && (EmptyTail() ==> Ceil16(hw - lastBase) == col && hwTail == if hw % 16 == 0 then 0 else hw - lastBase)
      && (Multi() && !EmptyTail() ==>
            Ceil16(hw - lastBase) < col && tile.tailCube == 16 * Ceil16(hw - lastBase) && hwTail == hw - lastBase)
      && (NeedsHead() <==> Multi() && hw % 16 != 0)
    }
  }

  function MakePlan(hw: nat, four2five: bool, ubSize: nat): (p: Plan)
    requires 0 < hw && ValidUb(ubSize)
  {
    InBlocks(hw, four2five, ubSize);
    PlanOf(hw, CubeBufMax(hw, four2five, ubSize))
  }

  function PlanOf(hw: nat, tile: Tile): Plan
    requires 0 < hw && 16 <= tile.bufMax
  {
    var col := tile.bufMax / 16;
    ChunkCount(hw, col);
    var chunks := (hw + col - 1) / col;
    Plan(hw, tile, col, chunks, (chunks - 1) * col, hw % col)
  }

  /** Blocks of 16 positions in a chunk: the whole plane if its half of the UB can hold it. */
  function ChunkBlocks(hw: nat, four2five: bool, ubSize: nat): nat
    requires 0 < hw && ValidUb(ubSize)
  {
    var u := ubSize / 1024;
    if Ceil16(hw) <= 16 * u then Ceil16(hw) / 16
    else if four2five || hw % 16 == 0 then u
    else u - 1
  }

  lemma InBlocks(hw: nat, four2five: bool, ubSize: nat)
    requires 0 < hw && ValidUb(ubSize)
    ensures var v := ChunkBlocks(hw, four2five, ubSize);
            && 0 < v
            && CubeBufMax(hw, four2five, ubSize)
               == Tile(256 * v, if Ceil16(hw) <= ubSize / 64 then 0 else 256 * (Ceil16(hw) / 16 % v))
  {
    var b, u, v := Ceil16(hw) / 16, ubSize / 1024, ChunkBlocks(hw, four2five, ubSize);
    assert (hw - 1) / 16 + 1 == b;
    if b > u {
      assert (ubSize - 512) / 2 / 512 == u - 1;
      ModScale(b, v, 512);
      var r := b % v;
      assert 512 * b % (512 * v) / 2 == 256 * r;
    }
  }

  /** The fields of a plan, in blocks. */
  lemma PlanFields(hw: nat, four2five: bool, ubSize: nat)
    requires 0 < hw && ValidUb(ubSize)
    ensures var p, v := MakePlan(hw, four2five, ubSize), ChunkBlocks(hw, four2five, ubSize);
            && 0 < v && p.hw == hw && p.col == 16 * v && p.hwTail == hw % p.col
            && p.tile == Tile(256 * v, if Ceil16(hw) <= ubSize / 64 then 0 else 256 * (Ceil16(hw) / 16 % v))
            && 1 <= p.chunks && p.lastBase == (p.chunks - 1) * p.col
            && p.lastBase < hw <= p.lastBase + p.col && (p.chunks == 1 <==> hw <= p.col)
  {
    InBlocks(hw, four2five, ubSize);
    ChunkCount(hw, MakePlan(hw, four2five, ubSize).col);
  }

  /** How many blocks a chunk has, and how much of the UB that takes. */
  lemma BlocksFit(hw: nat, four2five: bool, ubSize: nat)
    requires 0 < hw && ValidUb(ubSize)
    ensures var v := ChunkBlocks(hw, four2five, ubSize);
            && 1024 * v <= ubSize
            && (Ceil16(hw) <= ubSize / 64 ==> 16 * v == Ceil16(hw))
            && (Ceil16(hw) > ubSize / 64 ==> 16 * v < hw && (four2five || hw % 16 == 0 || 1024 * v + 512 <= ubSize))
  {
    var u := ubSize / 1024;
    assert ubSize == 1024 * u && ubSize / 64 == 16 * u;
  }

  /** The bytes that a head buffer takes: five2four needs one when a chunked plane has ragged rows. */
  function HeadBytes(hw: nat, four2five: bool): nat { if !four2five && hw % 16 != 0 then 512 else 0 }

  /** Every plan is well tiled and fits the UB, for each plane size and each UB size.  A chunk is the rounded plane if
      two halves of the UB can hold it, and otherwise as wide as they can with the head buffer beside them; and its
      tail is empty exactly when the plane is chunked and rounds up to whole chunks. */
  lemma PlanWellTiled(hw: nat, four2five: bool, ubSize: nat)
    requires 0 < hw && ValidUb(ubSize)
    ensures var p := MakePlan(hw, four2five, ubSize);
            && p.WellTiled()
            && 4 * p.tile.bufMax + (if p.Multi() then HeadBytes(hw, four2five) else 0) <= ubSize
            && 2 * p.Allocated(four2five) <= ubSize
            && (64 * Ceil16(hw) <= ubSize ==> p.col == Ceil16(hw) && !p.Multi())
            && (64 * Ceil16(hw) > ubSize ==> p.Multi() && ubSize < 64 * (p.col + 16) + HeadBytes(hw, four2five))
            && (p.EmptyTail() <==> hw > p.col && Ceil16(hw) % p.col == 0)
    ensures MakePlan(hw, four2five, ubSize).EmptyTail() <==>
      64 * Ceil16(hw) > ubSize && Ceil16(hw) % ((ubSize - HeadBytes(hw, four2five)) / 1024 * 16) == 0
  {
    var p, v := MakePlan(hw, four2five, ubSize), ChunkBlocks(hw, four2five, ubSize);
    PlanFields(hw, four2five, ubSize);
    BlocksFit(hw, four2five, ubSize);
    if Ceil16(hw) <= ubSize / 64 {
      SingleWellTiled(p);
    } else {
      WidestChunk(hw, four2five, ubSize);
      MultiWellTiled(p, Ceil16(hw) / 16, v);
    }
    Allocation(p, v, four2five, ubSize);
  }

  lemma WidestChunk(hw: nat, four2five: bool, ubSize: nat)
    requires 0 < hw && ValidUb(ubSize) && 64 * Ceil16(hw) > ubSize
    ensures ChunkBlocks(hw, four2five, ubSize) == (ubSize - HeadBytes(hw, four2five)) / 1024
    ensures 1024 * ChunkBlocks(hw, four2five, ubSize) + HeadBytes(hw, four2five) <= ubSize
    ensures ubSize < 1024 * (ChunkBlocks(hw, four2five, ubSize) + 1) + HeadBytes(hw, four2five)
  {
    assert ubSize == 1024 * (ubSize / 1024);
  }

  lemma Allocation(p: Plan, v: nat, four2five: bool, ubSize: nat)
    requires p.tile.bufMax == 256 * v && 1024 * v <= ubSize
    requires !four2five && p.NeedsHead() ==> 1024 * v + 512 <= ubSize
    ensures 2 * p.Allocated(four2five) <= ubSize
  {
  }

  lemma SingleWellTiled(p: Plan)
    requires 0 < p.hw && p.tile == Tile(16 * Ceil16(p.hw), 0) && p.col == Ceil16(p.hw) && p.chunks == 1
    requires p.lastBase == 0 && p.hwTail == p.hw % p.col
    ensures p.WellTiled()
  {
    if p.hw < p.col { DivModUnique(p.hw, p.col, 0, p.hw); }
  }

  lemma MultiWellTiled(p: Plan, b: nat, v: nat)
    requires 0 < p.hw && 16 * b == Ceil16(p.hw) && 0 < v && p.chunks > 1
    requires p.col == 16 * v && p.tile == Tile(256 * v, 256 * (b % v)) && p.hwTail == p.hw % p.col
    requires p.lastBase == (p.chunks - 1) * p.col && p.lastBase < p.hw <= p.lastBase + p.col
    ensures p.WellTiled() && (p.EmptyTail() <==> Ceil16(p.hw) % p.col == 0)
  {
    var c, w := b % v, p.hw - p.lastBase;
    ModScale(b, v, 16);
    LastChunk(p.hw, p.col, p.chunks, p.lastBase, w);
    FieldsWellTiled(p, c, w, Ceil16(p.hw) % p.col);
  }

  /** The last step, in which no product is left. */
  lemma FieldsWellTiled(p: Plan, c: nat, w: nat, r: nat)
    requires 0 < p.hw && p.chunks > 1 && 16 <= p.col && p.col % 16 == 0 && p.tile == Tile(16 * p.col, 256 * c) &&
      r == 16 * c
    requires p.lastBase == (p.chunks - 1) * p.col && p.hw == p.lastBase + w && 0 < w <= p.col
    requires p.hw % 16 == w % 16 && Ceil16(w) <= p.col
    requires Ceil16(w) == p.col ==> r == 0 && p.hwTail == if p.hw % 16 == 0 then 0 else w
    requires Ceil16(w) < p.col ==> r == Ceil16(w) > 0 && p.hwTail == w
    ensures p.WellTiled() && (p.EmptyTail() <==> r == 0)
  {
    assert w % 16 == 0 ==> Ceil16(w) == w;
  }

  lemma ChunkCount(hw: nat, col: nat)
    requires 0 < hw && 0 < col
    ensures var n := (hw + col - 1) / col;
      1 <= n && (n - 1) * col < hw <= (n - 1) * col + col && (n == 1 <==> hw <= col)
  {
    var n, r := (hw + col - 1) / col, (hw + col - 1) % col;
    assert hw + col - 1 == n * col + r;
    assert (n - 1) * col == n * col - col;
    if n > 1 { MulMono(1, n - 1, col); }
  }

  lemma LastChunk(hw: nat, col: nat, n: nat, base: nat, w: nat)
    requires 0 < col && col % 16 == 0 && 0 < n && base == (n - 1) * col && hw == base + w && 0 < w <= col
    ensures Ceil16(hw) == base + Ceil16(w) && Ceil16(w) <= col && n * col == base + col
    ensures hw % 16 == w % 16
    ensures Ceil16(w) == col ==> Ceil16(hw) % col == 0 && hw % col == if hw % 16 == 0 then 0 else w
    ensures Ceil16(w) < col ==> Ceil16(hw) % col == Ceil16(w) > 0 && hw % col == w
  {
    WholeBlocks(n - 1, col);
    CeilShift(base, w);
    CeilAtMost(w, col);
    LastWidth(base, col, n, w);
    LastWidth(base, col, n, Ceil16(w));
  }

  lemma CeilAtMost(w: nat, col: nat)
    requires w <= col && col % 16 == 0
    ensures Ceil16(w) <= col && (w == col ==> w % 16 == 0) && (w % 16 == 0 ==> Ceil16(w) == w)
  {
  }

  lemma LastWidth(base: nat, col: nat, n: nat, w: nat)
    requires 0 < n && base == (n - 1) * col && w <= col && 0 < col
    ensures (base + w) % col == if w == col then 0 else w
    ensures base + col == n * col
  {
    if w < col { DivModUnique(base + w, col, n - 1, w); } else { DivModUnique(base + w, col, n, 0); }
  }

  lemma WholeBlocks(k: nat, col: nat)
    requires col % 16 == 0
    ensures k * col % 16 == 0
  {
    assert k * col == k * (col / 16) * 16;
  }

  lemma CeilShift(k: nat, w: nat)
    requires k % 16 == 0
    ensures Ceil16(k + w) == k + Ceil16(w) && (k + w) % 16 == w % 16
  {
    var b := k / 16;
    assert k == 16 * b;
    assert (16 * b + w + 15) / 16 == b + (w + 15) / 16;
  }
}
