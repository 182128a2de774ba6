/** The conversion kernel (auto_schedule/python/irbuilder_api.py, `kernel_cast_to_fuc`): rounds of at most
    255 repeats, then the tail. A repeat is taken to convert as many elements as its strides advance. */
module CastRounds {
  import opened Arith
  import opened VectorMask

  datatype Conversion =
    | U8ToF16 | S8ToF16 | F16ToF32 | F16ToS32Round | F16ToS32Floor | Dequant | F32ToF16
    | F32ToS32Round | S32ToF32 | F32ToS32Floor

  /** The strides between repeats in 32-byte blocks: of the destination and of the source. */
  function Strides(c: Conversion): (nat, nat) {
    match c
    case U8ToF16 | S8ToF16 => (4, 2)
    case F16ToF32 | F16ToS32Round | F16ToS32Floor => (8, 4)
    case Dequant | F32ToF16 => (4, 8)
    case F32ToS32Round | S32ToF32 | F32ToS32Floor => (8, 8)
  }

  /** Bytes of a destination and of a source element. */
  function Widths(c: Conversion): (nat, nat)
    ensures Widths(c).0 > 0 && Widths(c).1 > 0
  {
    match c
    case U8ToF16 | S8ToF16 => (2, 1)
    case F16ToF32 | F16ToS32Round | F16ToS32Floor => (4, 2)
    case Dequant | F32ToF16 => (2, 4)
    case F32ToS32Round | S32ToF32 | F32ToS32Floor => (4, 4)
  }

  /** The elements a repeat advances in the destination and in the source. */
  function Advance(c: Conversion): (nat, nat) {
    (Strides(c).0 * (32 / Widths(c).0), Strides(c).1 * (32 / Widths(c).1))
  }

  const LANES: nat := 64

  lemma AdvancesAgree(c: Conversion)
    ensures Advance(c) == (LANES, LANES)
  {
  }

  /** One repeat of a conversion `f` from `src` at `s` to `dst` at `d`. */
  function OneRepeat(dst: seq<int>, src: seq<int>, f: int -> int, d: nat, s: nat, mask0: nat, mask1: nat): seq<int> {
    seq(|dst|, p requires 0 <= p < |dst| =>
      if d <= p < d + LANES && LaneOn(mask0, mask1, p - d) then f(At(src, s + p - d)) else dst[p])
  }

  /** `count` repeats, `to` elements apart in the destination and `from` in the source. */
  function Repeats(dst: seq<int>, src: seq<int>, f: int -> int, to: nat, from: nat, d: nat, s: nat, mask0: nat,
                   mask1: nat, count: nat): seq<int>
  {
    if count == 0 then dst
    else OneRepeat(Repeats(dst, src, f, to, from, d, s, mask0, mask1, count - 1), src, f,
                   d + (count - 1) * to, s + (count - 1) * from, mask0, mask1)
  }

  /** The elements from `a` up to, but not including, `b`. */
  function Interval(a: int, b: int): set<int> {
    set k | a <= k < b && Between(a, k, b)
  }

  predicate Between(a: int, k: int, b: int) { a <= k < b }

  /** The destination with these elements converted, and nothing else touched. */
  function Converted(dst: seq<int>, src: seq<int>, f: int -> int, d: nat, s: nat, hits: set<int>): seq<int> {
    seq(|dst|, p requires 0 <= p < |dst| => if p - d in hits then f(At(src, s + p - d)) else dst[p])
  }

  /** Full repeats from element `m` on. */
  lemma {:induction false} Round(dst: seq<int>, src: seq<int>, f: int -> int, d: nat, s: nat, hits: set<int>, m: nat,
                                 count: nat)
    ensures
      Repeats(Converted(dst, src, f, d, s, hits), src, f, LANES, LANES, d + m, s + m, MAX_UINT64, MAX_UINT64, count) ==
      Converted(dst, src, f, d, s, hits + Interval(m, m + LANES * count))
  {
    if count > 0 {
      Round(dst, src, f, d, s, hits, m, count - 1);
      forall k | 0 <= k < LANES ensures LaneOn(MAX_UINT64, MAX_UINT64, k) { AllLanesOn(k); }
    }
  }

  /** One repeat under the mask of a tail, which may be longer than a repeat. */
  lemma Tail(dst: seq<int>, src: seq<int>, f: int -> int, d: nat, s: nat, hits: set<int>, m: nat, tail: nat, mask0: nat,
             mask1: nat)
    requires FirstLanes(mask0, mask1, tail)
    ensures Repeats(Converted(dst, src, f, d, s, hits), src, f, LANES, LANES, d + m, s + m, mask0, mask1, 1) ==
      Converted(dst, src, f, d, s, hits + Interval(m, m + Least(tail, LANES)))
  {
    var now := Converted(dst, src, f, d, s, hits);
    assert Repeats(now, src, f, LANES, LANES, d + m, s + m, mask0, mask1, 0) == now;
  }

  function Least(a: nat, b: nat): nat { if a < b then a else b }

  /** One conversion instruction. */
  method Vconv(dst: array<int>, src: array<int>, f: int -> int, c: Conversion, d: nat, s: nat, repeat: nat, mask0: nat,
               mask1: nat)
    requires dst != src
    modifies dst
    ensures dst[..] == Repeats(old(dst[..]), src[..], f, LANES, LANES, d, s, mask0, mask1, repeat)
  {
    AdvancesAgree(c);
    Strided(dst, src, f, Advance(c).0, Advance(c).1, d, s, repeat, mask0, mask1);
  }

  method Strided(dst: array<int>, src: array<int>, f: int -> int, to: nat, from: nat, d: nat, s: nat, repeat: nat,
                 mask0: nat, mask1: nat)
    requires dst != src
    modifies dst
    ensures dst[..] == Repeats(old(dst[..]), src[..], f, to, from, d, s, mask0, mask1, repeat)
  {
    for i := 0 to repeat
      invariant dst[..] == Repeats(old(dst[..]), src[..], f, to, from, d, s, mask0, mask1, i)
    {
      Lanewise(dst, src, f, d + i * to, s + i * from, mask0, mask1);
    }
  }

  /** The lanes of one repeat. */
  method Lanewise(dst: array<int>, src: array<int>, f: int -> int, d: nat, s: nat, mask0: nat, mask1: nat)
    requires dst != src
    modifies dst
    ensures dst[..] == OneRepeat(old(dst[..]), src[..], f, d, s, mask0, mask1)
  {
    for k := 0 to LANES
      invariant forall p :: 0 <= p < dst.Length ==>
        dst[p] == if d <= p < d + k && LaneOn(mask0, mask1, p - d) then f(At(src[..], s + p - d)) else old(dst[p])
    {
      if LaneOn(mask0, mask1, k) && d + k < dst.Length {
        dst[d + k] := f(At(src[..], s + k));
      }
    }
  }

  // ---- The program ----

  /** Where round `i` starts. */
  function Start(alignLen: nat, i: nat): nat { Sum(i, 255 * alignLen) }

  /** The elements that `count` whole rounds convert: 255 repeats each, `alignLen` elements apart. */
  function WholeRounds(alignLen: nat, count: nat): set<int> {
    if count == 0 then {}
    else
      var from := Start(alignLen, count - 1);
      WholeRounds(alignLen, count - 1) + Interval(from, from + 255 * LANES)
  }

  /** The elements that all rounds convert.  The last one has `loop % 255` repeats, which may be none. */
  function RoundHits(alignLen: nat, loop: nat): set<int> {
    if loop == 0 then {}
    else
      var last := (loop - 1) / 255;
      WholeRounds(alignLen, last) + Interval(Start(alignLen, last), Start(alignLen, last) + LANES * (loop % 255))
  }

  /** The elements that the kernel converts. */
  function Hits(alignLen: nat, loop: nat, tail: nat): set<int> {
    RoundHits(alignLen, loop) + Interval(alignLen * loop, alignLen * loop + Least(tail, LANES))
  }

  /** The elements that the first `i` rounds convert. */
  function HitsBefore(alignLen: nat, loop: nat, i: nat): set<int> {
    if i <= (loop - 1) / 255 then WholeRounds(alignLen, i) else RoundHits(alignLen, loop)
  }

  /** One round more. */
  lemma NextRound(alignLen: nat, loop: nat, i: nat, loopRound: nat)
    requires loop > 0 && loopRound == (loop + 255 - 1) / 255 && i < loopRound
    ensures alignLen * 255 * i == Start(alignLen, i)
    ensures HitsBefore(alignLen, loop, i + 1) == WholeRounds(alignLen, i) +
      Interval(Start(alignLen, i), Start(alignLen, i) + LANES * if i != loopRound - 1 then 255 else loop % 255)
    ensures HitsBefore(alignLen, loop, i) == WholeRounds(alignLen, i) &&
      HitsBefore(alignLen, loop, loopRound) == RoundHits(alignLen, loop)
  {
    assert loopRound - 1 == (loop - 1) / 255;
    SumIs(i, 255 * alignLen);
    assert i * (255 * alignLen) == alignLen * 255 * i;
  }

  /** The rounds of full repeats. */
  method Rounds(dst: array<int>, src: array<int>, f: int -> int, c: Conversion, d: nat, s: nat, loop: nat,
                alignLen: nat)
    requires dst != src && loop > 0
    modifies dst
    ensures dst[..] == Converted(old(dst[..]), src[..], f, d, s, RoundHits(alignLen, loop))
  {
    ghost var was := dst[..];
    assert was == Converted(was, src[..], f, d, s, {});
    var loopRound, left := (loop + 255 - 1) / 255, loop % 255;
    for i := 0 to loopRound
      invariant dst[..] == Converted(was, src[..], f, d, s, HitsBefore(alignLen, loop, i))
    {
      NextRound(alignLen, loop, i, loopRound);
      var repeat := if i != loopRound - 1 then 255 else left;
      OneRound(dst, src, f, c, d, s, alignLen * 255 * i, repeat, was, WholeRounds(alignLen, i));
    }
    NextRound(alignLen, loop, loopRound - 1, loopRound);
  }

  /** One round: an instruction of `repeat` repeats at element `m`. */
  method OneRound(dst: array<int>, src: array<int>, f: int -> int, c: Conversion, d: nat, s: nat, m: nat, repeat: nat,
                  ghost was: seq<int>, ghost hits: set<int>)
    requires dst != src && dst[..] == Converted(was, src[..], f, d, s, hits)
    modifies dst
    ensures dst[..] == Converted(was, src[..], f, d, s, hits + Interval(m, m + LANES * repeat))
  {
    Round(was, src[..], f, d, s, hits, m, repeat);
    Vconv(dst, src, f, c, d + m, s + m, repeat, MAX_UINT64, MAX_UINT64);
  }

  /** One repeat at element `m` under the mask of the tail. */
  method MaskedTail(dst: array<int>, src: array<int>, f: int -> int, c: Conversion, d: nat, s: nat, m: nat,
                    ghost tail: nat,
                    mask0: nat, mask1: nat, ghost was: seq<int>, ghost hits: set<int>)
    requires dst != src && FirstLanes(mask0, mask1, tail) && dst[..] == Converted(was, src[..], f, d, s, hits)
    modifies dst
    ensures dst[..] == Converted(was, src[..], f, d, s, hits + Interval(m, m + Least(tail, LANES)))
  {
    Tail(was, src[..], f, d, s, hits, m, tail, mask0, mask1);
    Vconv(dst, src, f, c, d + m, s + m, 1, mask0, mask1);
  }

  /** The instructions of `kernel_cast_to_fuc`. */
  method EmitCast(dst: array<int>, src: array<int>, f: int -> int, c: Conversion, d: nat, s: nat, dataLen: nat,
                  alignLen: nat) returns (loop: nat, ghost tail: nat)
    requires dst != src && alignLen > 0
    modifies dst
    ensures dataLen == loop * alignLen + tail && tail < alignLen
    ensures dst[..] == Converted(old(dst[..]), src[..], f, d, s, Hits(alignLen, loop, tail))
  {
    var isNeedMask, mask0, mask1;
    loop, isNeedMask, mask0, mask1 := GetLoopnumAndMasklist(dataLen, alignLen);
    tail := dataLen - loop * alignLen;
    ghost var was := dst[..];
    if loop != 0 {
      Rounds(dst, src, f, c, d, s, loop, alignLen);
    }
    assert dst[..] == Converted(was, src[..], f, d, s, RoundHits(alignLen, loop));
    if isNeedMask {
      MaskedTail(dst, src, f, c, d, s, alignLen * loop, tail, mask0, mask1, was, RoundHits(alignLen, loop));
    } else {
      assert Hits(alignLen, loop, 0) == RoundHits(alignLen, loop);
    }
  }

  /** Element `k` is converted in round `i`, which starts at `i` times 255 repeats: 255 of them, 64 elements each, or in
      the last round as many as are left over. */
  ghost predicate InRound(alignLen: nat, loop: nat, i: nat, k: int) {
    var rounds, from := (loop + 254) / 255, Sum(i, 255 * alignLen);
    i < rounds && from <= k < from + 64 * if i < rounds - 1 then 255 else loop % 255
  }

  /** Or in the tail, of which one repeat converts at most 64. */
  ghost predicate InTail(alignLen: nat, loop: nat, tail: nat, k: int) {
    alignLen * loop <= k < alignLen * loop + tail && k < alignLen * loop + 64
  }

  /** In one of the first `count` rounds, all of them whole. */
  ghost predicate InWhole(alignLen: nat, i: nat, k: int) {
    Sum(i, 255 * alignLen) <= k < Sum(i, 255 * alignLen) + 64 * 255
  }

  lemma {:induction false} InWholeRounds(alignLen: nat, count: nat, k: int)
    ensures k in WholeRounds(alignLen, count) <==> exists i: nat :: i < count && InWhole(alignLen, i, k)
  {
    if count > 0 {
      InWholeRounds(alignLen, count - 1, k);
      assert k in Interval(Start(alignLen, count - 1), Start(alignLen, count - 1) + 255 * LANES) <==>
        InWhole(alignLen, count - 1, k);
    }
  }

  lemma RoundHitsAre(alignLen: nat, loop: nat, k: int)
    ensures k in RoundHits(alignLen, loop) <==> exists i: nat :: InRound(alignLen, loop, i, k)
  {
    if loop > 0 {
      var last := (loop - 1) / 255;
      assert (loop + 254) / 255 == last + 1;
      InWholeRounds(alignLen, last, k);
      forall i: nat | i < last ensures InRound(alignLen, loop, i, k) <==> InWhole(alignLen, i, k) {}
      assert InRound(alignLen, loop, last, k) <==>
        k in Interval(Start(alignLen, last), Start(alignLen, last) + LANES * (loop % 255));
    }
  }

  lemma TailHitsAre(alignLen: nat, loop: nat, tail: nat, k: int)
    ensures k in Interval(alignLen * loop, alignLen * loop + Least(tail, LANES)) <==> InTail(alignLen, loop, tail, k)
  {
  }

  /** Element `k` is converted by a round or by the tail. */
  ghost predicate IsConverted(alignLen: nat, loop: nat, tail: nat, k: int) {
    (exists i: nat :: InRound(alignLen, loop, i, k)) || InTail(alignLen, loop, tail, k)
  }

  lemma HitsAre(alignLen: nat, loop: nat, tail: nat, k: int)
    ensures k in Hits(alignLen, loop, tail) <==> IsConverted(alignLen, loop, tail, k)
  {
    RoundHitsAre(alignLen, loop, k);
    TailHitsAre(alignLen, loop, tail, k);
  }

  /** An element of the destination: converted if a round or the tail gets there, else as it was. */
  ghost predicate CastAt(was: int, now: int, src: seq<int>, f: int -> int, k: int, s: nat, alignLen: nat, loop: nat,
                         tail: nat)
  {
    if IsConverted(alignLen, loop, tail, k) then 0 <= s + k < |src| ==> now == f(src[s + k]) else now == was
  }

  ghost predicate CastTo(was: seq<int>, now: seq<int>, src: seq<int>, f: int -> int, d: nat, s: nat, alignLen: nat,
                         loop: nat, tail: nat)
  {
    |now| == |was| && forall p :: 0 <= p < |was| ==> CastAt(was[p], now[p], src, f, p - d, s, alignLen, loop, tail)
  }

  lemma ConvertedAt(was: seq<int>, src: seq<int>, f: int -> int, d: nat, s: nat, alignLen: nat, loop: nat, tail: nat,
                    p: nat)
    requires p < |was|
    ensures var now := Converted(was, src, f, d, s, Hits(alignLen, loop, tail));
      |now| == |was| && CastAt(was[p], now[p], src, f, p - d, s, alignLen, loop, tail)
  {
    var k := p - d;
    HitsAre(alignLen, loop, tail, k);
    assert 0 <= s + k < |src| ==> At(src, s + p - d) == src[s + k];
  }

  lemma ConvertedIsCast(was: seq<int>, src: seq<int>, f: int -> int, d: nat, s: nat, alignLen: nat, loop: nat,
                        tail: nat)
    ensures CastTo(was, Converted(was, src, f, d, s, Hits(alignLen, loop, tail)), src, f, d, s, alignLen, loop, tail)
  {
    forall p | 0 <= p < |was| { ConvertedAt(was, src, f, d, s, alignLen, loop, tail, p); }
  }

  /** `kernel_cast_to_fuc` and exactly what it leaves in the destination, for every `alignLen`. */
  method KernelCast(dst: array<int>, src: array<int>, f: int -> int, c: Conversion, d: nat, s: nat, dataLen: nat,
                    alignLen: nat)
    requires dst != src && alignLen > 0
    modifies dst
    ensures dst[..] == Converted(old(dst[..]), src[..], f, d, s, Hits(alignLen, dataLen / alignLen, dataLen % alignLen))
    ensures CastTo(old(dst[..]), dst[..], src[..], f, d, s, alignLen, dataLen / alignLen, dataLen % alignLen)
  {
    ghost var was := dst[..];
    var loop;
    ghost var tail;
    loop, tail := EmitCast(dst, src, f, c, d, s, dataLen, alignLen);
    DivModUnique(dataLen, alignLen, loop, tail);
    ConvertedIsCast(was, src[..], f, d, s, alignLen, loop, tail);
  }

  // ---- When that is what is wanted ----

  /** Whatever the buffers hold and the conversion is, converting the elements `hits` converts the first `n` and
      touches nothing else. */
  ghost predicate Right(size: nat, d: nat, s: nat, hits: set<int>, n: nat) {
    forall dst: seq<int>, src: seq<int>, f: int -> int :: |dst| == size ==>
      Converted(dst, src, f, d, s, hits) == Converted(dst, src, f, d, s, Interval(0, n))
  }

  /** What a caller has to check.  With no full repeat the tail must fit one.  Otherwise, if the last round
      is not empty, a repeat must reach as far as the next one starts, and neither the last round nor the
      one before it past the data.  An empty last round is made up for exactly where a repeat reaches over
      the next one as well. */
  predicate Fitting(alignLen: nat, loop: nat, tail: nat) {
    var left := loop % 255;
    if loop == 0 then tail <= LANES
    else if left == 0 then alignLen == 32 && loop > 255
    else
      && alignLen <= LANES && (LANES - alignLen) * left <= tail
      && (loop > 255 ==> (LANES - alignLen) * 255 <= alignLen * left + tail)
  }

  /** Rounds that overlap or touch convert everything up to where the last of them ends. */
  lemma {:induction false} WholeRoundsMeet(alignLen: nat, count: nat)
    requires alignLen <= LANES
    ensures WholeRounds(alignLen, count) == if count == 0 then {}
      else Interval(0, Start(alignLen, count - 1) + 255 * LANES)
  {
    if count > 1 { WholeRoundsMeet(alignLen, count - 1); }
  }

  /** Rounds that do not leave a gap behind the first. */
  lemma {:induction false} WholeRoundsGap(alignLen: nat, count: nat)
    requires alignLen > LANES
    ensures 255 * LANES !in WholeRounds(alignLen, count)
  {
    if count > 0 {
      WholeRoundsGap(alignLen, count - 1);
      if count > 1 { StartGrows(alignLen, count - 1); }
    }
  }

  lemma {:induction false} StartGrows(alignLen: nat, i: nat)
    requires i > 0
    ensures Start(alignLen, i) >= 255 * alignLen
  {
    if i > 1 { StartGrows(alignLen, i - 1); }
  }

  /** Where the tail starts, seen from the last round. */
  lemma TailStart(alignLen: nat, loop: nat)
    requires loop > 0
    ensures var last, left := (loop - 1) / 255, loop % 255;
      alignLen * loop == Start(alignLen, last) + alignLen * if left == 0 then 255 else left
  {
    var last, left := (loop - 1) / 255, loop % 255;
    var rest := if left == 0 then 255 else left;
    SumIs(last, 255 * alignLen);
    assert loop == 255 * last + rest;
    Distribute(alignLen, last, rest);
  }

  lemma Distribute(a: nat, q: nat, r: nat)
    ensures a * (255 * q + r) == q * (255 * a) + a * r
  {
  }

  /** The kernel converts exactly the elements it should on exactly these shapes. */
  lemma HitsExactly(alignLen: nat, loop: nat, tail: nat, n: nat)
    requires tail < alignLen && n == alignLen * loop + tail
    ensures Hits(alignLen, loop, tail) == Interval(0, n) <==> Fitting(alignLen, loop, tail)
  {
    if loop == 0 {
      NoRounds(alignLen, tail);
    } else {
      TailStart(alignLen, loop);
      var last, left := (loop - 1) / 255, loop % 255;
      if left == 0 {
        EmptyLast(alignLen, loop, tail, last, n);
      } else if alignLen <= LANES {
        Overlapping(alignLen, loop, tail, last, left, n);
      } else {
        Gapped(alignLen, loop, tail, last, left, n);
      }
    }
  }

  lemma NoRounds(alignLen: nat, tail: nat)
    ensures Hits(alignLen, 0, tail) == Interval(0, tail) <==> Fitting(alignLen, 0, tail)
  {
    if tail > LANES { assert LANES in Interval(0, tail); }
  }

  /** Three intervals that overlap or touch, the last ending at `n`. */
  lemma Chained(e: nat, m: nat, x: nat, t: nat, n: nat)
    requires m <= e && t <= m + x && t <= n
    ensures Interval(0, e) + Interval(m, m + x) + Interval(t, n) == Interval(0, n) <==> e <= n && m + x <= n
  {
    var all := Interval(0, e) + Interval(m, m + x) + Interval(t, n);
    if e > n || m + x > n { assert n in all && n !in Interval(0, n); }
  }

  /** Two intervals, the second ending at `n`. */
  lemma Joined(e: nat, t: nat, n: nat)
    requires t <= n
    ensures Interval(0, e) + Interval(t, n) == Interval(0, n) <==> t <= e <= n
  {
    if e > n { assert n in Interval(0, e); }
    if e < t { assert e in Interval(0, n); }
  }

  lemma Spread(alignLen: nat, left: nat)
    requires alignLen <= LANES
    ensures (LANES - alignLen) * left == LANES * left - alignLen * left
    ensures alignLen * left <= LANES * left
  {
  }

  /** Where the last two rounds end. */
  lemma FittingEnds(alignLen: nat, loop: nat, tail: nat, last: nat, left: nat, m: nat, e: nat, n: nat)
    requires alignLen <= LANES && loop > 0 && last == (loop - 1) / 255 && left == loop % 255 > 0
    requires m == Start(alignLen, last) && e == (if last == 0 then 0 else Start(alignLen, last - 1) + 255 * LANES)
    requires n == m + alignLen * left + tail
    ensures Fitting(alignLen, loop, tail) <==> e <= n && m + LANES * left <= n
  {
    Spread(alignLen, left);
    assert last > 0 <==> loop > 255;
    assert last > 0 ==> m == Start(alignLen, last - 1) + 255 * alignLen;
  }

  /** What the kernel converts when a repeat reaches at least as far as the next one starts. */
  lemma OverlappingHits(alignLen: nat, loop: nat, tail: nat, last: nat, left: nat, m: nat, e: nat)
    requires tail < alignLen <= LANES && loop > 0 && last == (loop - 1) / 255 && left == loop % 255 > 0
    requires m == Start(alignLen, last) && e == (if last == 0 then 0 else Start(alignLen, last - 1) + 255 * LANES)
    ensures m <= e && Hits(alignLen, loop, tail) ==
      Interval(0, e) + Interval(m, m + LANES * left) + Interval(alignLen * loop, alignLen * loop + tail)
  {
    WholeRoundsMeet(alignLen, last);
    assert WholeRounds(alignLen, last) == Interval(0, e);
  }

  lemma Overlapping(alignLen: nat, loop: nat, tail: nat, last: nat, left: nat, n: nat)
    requires tail < alignLen <= LANES && loop > 0 && last == (loop - 1) / 255 && left == loop % 255 > 0
    requires alignLen * loop == Start(alignLen, last) + alignLen * left && n == alignLen * loop + tail
    ensures Hits(alignLen, loop, tail) == Interval(0, n) <==> Fitting(alignLen, loop, tail)
  {
    var m := Start(alignLen, last);
    var e := if last == 0 then 0 else Start(alignLen, last - 1) + 255 * LANES;
    OverlappingHits(alignLen, loop, tail, last, left, m, e);
    FittingEnds(alignLen, loop, tail, last, left, m, e, n);
    Spread(alignLen, left);
    Decide(Hits(alignLen, loop, tail), Fitting(alignLen, loop, tail), e, m, LANES * left, alignLen * loop, n);
  }

  lemma Decide(hits: set<int>, fitting: bool, e: nat, m: nat, x: nat, t: nat, n: nat)
    requires hits == Interval(0, e) + Interval(m, m + x) + Interval(t, n) && m <= e && t <= m + x && t <= n
    requires fitting <==> e <= n && m + x <= n
    ensures hits == Interval(0, n) <==> fitting
  {
    Chained(e, m, x, t, n);
  }

  lemma Gapped(alignLen: nat, loop: nat, tail: nat, last: nat, left: nat, n: nat)
    requires tail < alignLen && alignLen > LANES && loop > 0 && last == (loop - 1) / 255 && left == loop % 255 > 0
    requires alignLen * loop == Start(alignLen, last) + alignLen * left && n == alignLen * loop + tail
    ensures Hits(alignLen, loop, tail) != Interval(0, n) && !Fitting(alignLen, loop, tail)
  {
    MulStrict(LANES, alignLen, left);
    if last > 0 {
      StartGrows(alignLen, last);
      WholeRoundsGap(alignLen, last);
      Missed(alignLen, loop, tail, last, left, n, 255 * LANES);
    } else {
      Missed(alignLen, loop, tail, last, left, n, LANES * left);
    }
  }

  lemma Missed(alignLen: nat, loop: nat, tail: nat, last: nat, left: nat, n: nat, k: nat)
    requires loop > 0 && last == (loop - 1) / 255 && left == loop % 255 && k !in WholeRounds(alignLen, last)
    requires k < Start(alignLen, last) || k >= Start(alignLen, last) + LANES * left
    requires k < alignLen * loop <= n
    ensures Hits(alignLen, loop, tail) != Interval(0, n)
  {
    assert k in Interval(0, n) && k !in Hits(alignLen, loop, tail);
  }

  lemma EmptyLast(alignLen: nat, loop: nat, tail: nat, last: nat, n: nat)
    requires tail < alignLen && loop > 0 && last == (loop - 1) / 255 && loop % 255 == 0
    requires alignLen * loop == Start(alignLen, last) + 255 * alignLen && n == alignLen * loop + tail
    ensures Hits(alignLen, loop, tail) == Interval(0, n) <==> Fitting(alignLen, loop, tail)
  {
    var t := alignLen * loop;
    if alignLen > LANES {
      WholeRoundsGap(alignLen, last);
      if last > 0 { StartGrows(alignLen, last); }
      Missed(alignLen, loop, tail, last, 0, n, if last > 0 then 255 * LANES else 0);
    } else {
      var e := if last == 0 then 0 else Start(alignLen, last - 1) + 255 * LANES;
      WholeRoundsMeet(alignLen, last);
      assert WholeRounds(alignLen, last) == Interval(0, e);
      assert Hits(alignLen, loop, tail) == Interval(0, e) + Interval(t, n);
      Joined(e, t, n);
      assert last > 0 <==> loop > 255;
    }
  }

  /** Main result: with room for everything it touches, the kernel is right for all data exactly on these
      shapes; `n` is the data length, split into full repeats and a tail. */
  lemma CastExact(size: nat, d: nat, s: nat, alignLen: nat, n: nat, loop: nat, tail: nat)
    requires tail < alignLen && n == alignLen * loop + tail && d + n <= size
    requires forall k :: k in Hits(alignLen, loop, tail) ==> 0 <= k && d + k < size
    ensures Right(size, d, s, Hits(alignLen, loop, tail), n) <==> Fitting(alignLen, loop, tail)
  {
    HitsExactly(alignLen, loop, tail, n);
    RightExactly(size, d, s, Hits(alignLen, loop, tail), n);
  }

  /** Zeros converted to ones show every difference. */
  lemma RightExactly(size: nat, d: nat, s: nat, hits: set<int>, n: nat)
    requires d + n <= size && forall k :: k in hits ==> 0 <= k && d + k < size
    ensures Right(size, d, s, hits, n) <==> hits == Interval(0, n)
  {
    if hits != Interval(0, n) {
      var k :| k in (hits - Interval(0, n)) + (Interval(0, n) - hits);
      var dst: seq<int>, src: seq<int>, f: int -> int := seq(size, i => 0), [], x => 1;
      assert |dst| == size &&
        Converted(dst, src, f, d, s, hits)[d + k] != Converted(dst, src, f, d, s, Interval(0, n))[d + k];
    }
  }

  /** With the length of a block, or any other below 32, that is only before the first full repeat. */
  lemma ShortAlignment(alignLen: nat, loop: nat, tail: nat)
    requires tail < alignLen < 32
    ensures Fitting(alignLen, loop, tail) <==> loop == 0
  {
    if loop > 0 && loop % 255 > 0 {
      MulMono(1, loop % 255, LANES - alignLen);
    }
  }

  /** One block of 16 elements: 48 elements too many are converted. */
  lemma OneBlock()
    ensures Hits(16, 1, 0) == Interval(0, 64)
  {
  }
}
