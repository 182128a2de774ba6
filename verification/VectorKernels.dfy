/** The masked element-wise kernels (auto_schedule/python/irbuilder_api.py): full repeats of the vector
    unit under the mask in force, then one repeat under the mask of the tail. */
module VectorKernels {
  import opened Arith
  import opened VectorMask

  type Op = (int, int) -> int

  /** Where the operands stand: element k of the result is at `out + k`, its arguments at `a + k` and `b + k`. */
  datatype Regs = Regs(out: nat, a: nat, b: nat)

  function Moved(r: Regs, m: nat): Regs { Regs(r.out + m, r.a + m, r.b + m) }

  predicate Lane(p: int, base: nat, lanes: nat, mask0: nat, mask1: nat)
    requires lanes <= 128
  {
    base <= p < base + lanes && LaneOn(mask0, mask1, p - base)
  }

  /** One repeat: all active lanes read before any of them writes. */
  function OneRepeat(mem: seq<int>, f: Op, r: Regs, lanes: nat, mask0: nat, mask1: nat): seq<int>
    requires lanes <= 128
  {
    seq(|mem|, p requires 0 <= p < |mem| =>
      if Lane(p, r.out, lanes, mask0, mask1) then f(At(mem, r.a + p - r.out), At(mem, r.b + p - r.out)) else mem[p])
  }

  /** `count` repeats one after the other, each `lanes` elements further (a repeat stride of 8 blocks). */
  function Repeats(mem: seq<int>, f: Op, r: Regs, lanes: nat, mask0: nat, mask1: nat, count: nat): seq<int>
    requires lanes <= 128
  {
    if count == 0 then mem
    else OneRepeat(Repeats(mem, f, r, lanes, mask0, mask1, count - 1), f, Moved(r, (count - 1) * lanes), lanes, mask0,
      mask1)
  }

  /** The vector unit: its buffer, its mask register and its width. */
  class Unit {
    const lanes: nat
    const mem: array<int>
    var mask0: nat
    var mask1: nat

    constructor (mem: array<int>, lanes: nat)
      ensures this.mem == mem && this.lanes == lanes && mask0 == mask1 == MAX_UINT64
    {
      this.mem := mem;
      this.lanes := lanes;
      mask0, mask1 := MAX_UINT64, MAX_UINT64;
    }

    method SetVectorMask(high: nat, low: nat)
      modifies this
      ensures mask0 == low && mask1 == high
    {
      mask0, mask1 := low, high;
    }

    /** A vector instruction with two sources. */
    method Vector(f: Op, r: Regs, repeat: nat)
      requires lanes <= 128
      modifies mem
      ensures mem[..] == Repeats(old(mem[..]), f, r, lanes, mask0, mask1, repeat)
    {
      ghost var was := mem[..];
      for i := 0 to repeat
        invariant mem[..] == Repeats(was, f, r, lanes, mask0, mask1, i)
      {
        ghost var now := mem[..];
        var s := Moved(r, i * lanes);
        var m0, m1 := mask0, mask1;
        var next := new int[mem.Length](p requires 0 <= p < mem.Length reads mem =>
          if Lane(p, s.out, lanes, m0, m1) then f(At(mem[..], s.a + p - s.out), At(mem[..], s.b + p - s.out))
            else mem[p]);
        forall p | 0 <= p < mem.Length { mem[p] := next[p]; }
        assert mem[..] == OneRepeat(now, f, s, lanes, m0, m1);
      }
    }
  }

  /** What an element-wise operation on `n` elements means: each result from the arguments as they were,
      and nothing else touched. */
  function Intended(mem: seq<int>, f: Op, r: Regs, n: nat): seq<int> {
    seq(|mem|, p requires 0 <= p < |mem| =>
      if r.out <= p < r.out + n then f(At(mem, r.a + p - r.out), At(mem, r.b + p - r.out)) else mem[p])
  }

  /** Element by element: the operation on the old arguments, and outside the result nothing changes. */
  ghost predicate Computed(was: seq<int>, now: seq<int>, f: Op, r: Regs, n: nat) {
    && |now| == |was|
    && forall p :: 0 <= p < |was| ==>
         var k := p - r.out;
         if !(0 <= k < n) then now[p] == was[p]
         else r.a + k < |was| && r.b + k < |was| ==> now[p] == f(was[r.a + k], was[r.b + k])
  }

  lemma IntendedIsComputed(mem: seq<int>, f: Op, r: Regs, n: nat)
    ensures Computed(mem, Intended(mem, f, r, n), f, r, n)
  {
    var now := Intended(mem, f, r, n);
    forall p | 0 <= p < |mem|
      ensures var k := p - r.out;
        if !(0 <= k < n) then now[p] == mem[p]
        else r.a + k < |mem| && r.b + k < |mem| ==> now[p] == f(mem[r.a + k], mem[r.b + k])
    {
      var k := p - r.out;
      if 0 <= k < n {
        if r.a + k < |mem| && r.b + k < |mem| {
          assert At(mem, r.a + p - r.out) == mem[r.a + k] && At(mem, r.b + p - r.out) == mem[r.b + k];
        }
      } else {
        assert now[p] == mem[p];
      }
    }
  }

  /** What the kernel leaves in the buffer: `loop` full repeats and, if there is one, a tail of `tail` elements
      behind the `alignLen` elements that each repeat stands for. */
  function Kernel(mem: seq<int>, f: Op, r: Regs, lanes: nat, alignLen: nat, loop: nat, tail: nat, mask0: nat,
                  mask1: nat): seq<int>
    requires lanes <= 128
  {
    var full := Repeats(mem, f, r, lanes, MAX_UINT64, MAX_UINT64, loop);
    if tail == 0 then full else OneRepeat(full, f, Moved(r, loop * alignLen), lanes, mask0, mask1)
  }

  /** Of the lanes of the unit, the first `t` are on. */
  ghost predicate Active(mask0: nat, mask1: nat, lanes: nat, t: nat)
    requires lanes <= 128
  {
    t <= lanes && forall k :: 0 <= k < lanes ==> (LaneOn(mask0, mask1, k) <==> k < t)
  }

  lemma AllActive(lanes: nat)
    requires lanes <= 128
    ensures Active(MAX_UINT64, MAX_UINT64, lanes, lanes)
  {
    forall k | 0 <= k < lanes ensures LaneOn(MAX_UINT64, MAX_UINT64, k) { AllLanesOn(k); }
  }

  /** Step by step: the elements before `m` are done, the next `t` lanes follow. */
  lemma MoreLanes(mem: seq<int>, now: seq<int>, f: Op, r: Regs, m: nat, t: nat, lanes: nat, mask0: nat, mask1: nat)
    requires lanes <= 128 && Active(mask0, mask1, lanes, t)
    requires now == Intended(mem, f, r, m)
    requires Unwritten(r.out - r.a, m, t) && Unwritten(r.out - r.b, m, t)
    ensures OneRepeat(now, f, Moved(r, m), lanes, mask0, mask1) == Intended(mem, f, r, m + t)
  {
    var next, goal := OneRepeat(now, f, Moved(r, m), lanes, mask0, mask1), Intended(mem, f, r, m + t);
    forall p | 0 <= p < |mem|
      ensures next[p] == goal[p]
    {
      var k := p - r.out - m;
      if 0 <= k < lanes {
        assert LaneOn(mask0, mask1, k) <==> k < t;
        if k < t {
          StillThere(mem, now, f, r, m, r.a + m + k);
          StillThere(mem, now, f, r, m, r.b + m + k);
        }
      }
    }
  }

  /** None of the lanes m .. m + t reads what an earlier one wrote, the result standing `d` after the argument. */
  predicate Unwritten(d: int, m: nat, t: nat) {
    d <= 0 || m == 0 || m + t <= d
  }

  lemma StillThere(mem: seq<int>, now: seq<int>, f: Op, r: Regs, m: nat, p: int)
    requires now == Intended(mem, f, r, m) && !(r.out <= p < r.out + m)
    ensures At(now, p) == At(mem, p)
  {
  }

  lemma {:induction false} FullRepeats(mem: seq<int>, f: Op, r: Regs, lanes: nat, count: nat, n: nat)
    requires 0 < lanes <= 128 && count * lanes <= n && Separate(r, lanes, n)
    ensures Repeats(mem, f, r, lanes, MAX_UINT64, MAX_UINT64, count) == Intended(mem, f, r, count * lanes)
  {
    if count > 0 {
      var m := (count - 1) * lanes;
      assert m + lanes == count * lanes && (count > 1 ==> m >= lanes);
      FullRepeats(mem, f, r, lanes, count - 1, n);
      AllActive(lanes);
      MoreLanes(mem, Repeats(mem, f, r, lanes, MAX_UINT64, MAX_UINT64, count - 1), f, r, m, lanes, lanes, MAX_UINT64,
        MAX_UINT64);
    } else {
      assert Intended(mem, f, r, 0) == mem;
    }
  }

  /** The result does not stand so little after an argument that a later repeat reads it. */
  predicate Separate(r: Regs, lanes: nat, n: nat) {
    n <= lanes || ((r.out <= r.a || r.a + n <= r.out) && (r.out <= r.b || r.b + n <= r.out))
  }

  lemma AtLeastOne(loop: nat, lanes: nat)
    ensures loop == 0 ==> loop * lanes == 0
    ensures loop > 0 ==> loop * lanes >= lanes
  {
  }

  lemma TailActive(mask0: nat, mask1: nat, lanes: nat, tail: nat)
    requires lanes <= 128 && FirstLanes(mask0, mask1, tail)
    ensures Active(mask0, mask1, lanes, if tail < lanes then tail else lanes)
  {
  }

  /** A result that stands `d` after an argument: the tail, which computes the last `over` elements of the full
      repeats once more, must not read one. */
  predicate Clear(d: int, over: int, n: int) { d <= -over || n <= d }

  /** What a caller has to check.  A short tail alone is always right, and so is a single repeat; otherwise the
      repeats must be as long as the unit's or overlap within the data, and the operands must be clear. */
  predicate Fitting(r: Regs, lanes: nat, alignLen: nat, loop: nat, tail: nat) {
    var n, full := loop * alignLen + tail, loop * lanes;
    if loop == 0 then tail <= lanes
    else
      || (alignLen == lanes && loop == 1 && tail == 0)
      || (alignLen <= lanes && loop * alignLen <= full <= n
          && Clear(r.out - r.a, full - loop * alignLen, n) && Clear(r.out - r.b, full - loop * alignLen, n))
  }

  /** The tail, from element `m` on, after the first `w` have been computed. */
  lemma TailOver(mem: seq<int>, now: seq<int>, f: Op, r: Regs, w: nat, m: nat, t: nat, lanes: nat, mask0: nat,
                 mask1: nat)
    requires lanes <= 128 && Active(mask0, mask1, lanes, t) && m <= w <= m + t
    requires now == Intended(mem, f, r, w)
    requires Clear(r.out - r.a, w - m, m + t) && Clear(r.out - r.b, w - m, m + t)
    ensures OneRepeat(now, f, Moved(r, m), lanes, mask0, mask1) == Intended(mem, f, r, m + t)
  {
    var next, goal := OneRepeat(now, f, Moved(r, m), lanes, mask0, mask1), Intended(mem, f, r, m + t);
    forall p | 0 <= p < |mem|
      ensures next[p] == goal[p]
    {
      var k := p - r.out - m;
      if 0 <= k < lanes {
        assert LaneOn(mask0, mask1, k) <==> k < t;
        if k < t {
          StillThere(mem, now, f, r, w, r.a + m + k);
          StillThere(mem, now, f, r, w, r.b + m + k);
        }
      }
    }
  }

  /** Nothing but a short tail. */
  lemma ShortMeets(mem: seq<int>, f: Op, r: Regs, lanes: nat, alignLen: nat, tail: nat, mask0: nat, mask1: nat)
    requires tail <= lanes <= 128 && FirstLanes(mask0, mask1, tail)
    ensures Kernel(mem, f, r, lanes, alignLen, 0, tail, mask0, mask1) == Intended(mem, f, r, tail)
  {
    assert Intended(mem, f, r, 0) == mem;
    TailActive(mask0, mask1, lanes, tail);
    if tail != 0 { MoreLanes(mem, mem, f, r, 0, tail, lanes, mask0, mask1); }
  }

  /** Repeats that end within the data, and a tail behind or over them. */
  lemma RepeatsMeet(mem: seq<int>, f: Op, r: Regs, lanes: nat, alignLen: nat, loop: nat, tail: nat, mask0: nat,
                    mask1: nat,
                    m: nat, w: nat)
    requires 0 < lanes <= 128 && tail <= lanes && FirstLanes(mask0, mask1, tail)
    requires m == loop * alignLen && w == loop * lanes && m <= w <= m + tail
    requires Clear(r.out - r.a, w - m, m + tail) && Clear(r.out - r.b, w - m, m + tail)
    ensures Kernel(mem, f, r, lanes, alignLen, loop, tail, mask0, mask1) == Intended(mem, f, r, m + tail)
  {
    FullRepeats(mem, f, r, lanes, loop, w);
    TailActive(mask0, mask1, lanes, tail);
    if tail != 0 { TailOver(mem, Intended(mem, f, r, w), f, r, w, m, tail, lanes, mask0, mask1); }
  }

  lemma KernelMeets(mem: seq<int>, f: Op, r: Regs, lanes: nat, alignLen: nat, loop: nat, tail: nat, mask0: nat,
                    mask1: nat)
    requires 0 < lanes <= 128 && tail < alignLen && Fitting(r, lanes, alignLen, loop, tail) &&
      FirstLanes(mask0, mask1, tail)
    ensures Kernel(mem, f, r, lanes, alignLen, loop, tail, mask0, mask1) == Intended(mem, f, r, loop * alignLen + tail)
  {
    if loop == 0 {
      ShortMeets(mem, f, r, lanes, alignLen, tail, mask0, mask1);
    } else if alignLen == lanes && loop == 1 && tail == 0 {
      FullRepeats(mem, f, r, lanes, 1, lanes);
    } else {
      RepeatsMeet(mem, f, r, lanes, alignLen, loop, tail, mask0, mask1, loop * alignLen, loop * lanes);
    }
  }

  const ADD: Op := (x, y) => x + y

  /** The first element that a repeat takes from the results, `d` being how far they stand after the argument. */
  function FirstStale(d: nat, lanes: nat): nat {
    if d < lanes then lanes else d
  }

  /** Adding ones: results are 2 or more, and element `s`, which reads a result, is 3 or more. */
  ghost predicate Spoiled(now: seq<int>, out: nat, m: nat, s: nat) {
    && (forall p :: 0 <= p < |now| ==> now[p] >= 1)
    && (forall p :: 0 <= p < |now| && out <= p < out + m ==> now[p] >= 2)
    && (s < m && out + s < |now| ==> now[out + s] >= 3)
  }

  lemma LaneSum(now: seq<int>, r: Regs, m: nat, t: nat, lanes: nat, mask0: nat, mask1: nat, p: nat)
    requires lanes <= 128 && Active(mask0, mask1, lanes, t) && p < |now| && Fits(r, m + t, |now|)
    ensures OneRepeat(now, ADD, Moved(r, m), lanes, mask0, mask1)[p] ==
      if r.out + m <= p < r.out + m + t then now[r.a + p - r.out] + now[r.b + p - r.out] else now[p]
  {
    var k := p - r.out - m;
    if 0 <= k < lanes { assert LaneOn(mask0, mask1, k) <==> k < t; }
    if 0 <= k < t {
      assert At(now, r.a + m + k) == now[r.a + m + k] && At(now, r.b + m + k) == now[r.b + m + k];
      assert ADD(now[r.a + m + k], now[r.b + m + k]) == now[r.a + m + k] + now[r.b + m + k];
    }
  }

  lemma SpoiledStep(now: seq<int>, r: Regs, m: nat, t: nat, lanes: nat, mask0: nat, mask1: nat, s: nat, d: nat)
    requires lanes <= 128 && Active(mask0, mask1, lanes, t)
    requires Spoiled(now, r.out, m, s) && Fits(r, m + t, |now|)
    requires d == r.out - r.a || d == r.out - r.b
    requires m <= s < m + t ==> d <= s < m + d
    ensures Spoiled(OneRepeat(now, ADD, Moved(r, m), lanes, mask0, mask1), r.out, m + t, s)
  {
    var next := OneRepeat(now, ADD, Moved(r, m), lanes, mask0, mask1);
    forall p | 0 <= p < |now|
      ensures next[p] >= 1 && (r.out <= p < r.out + m + t ==> next[p] >= 2) &&
        (s < m + t && p == r.out + s ==> next[p] >= 3)
    {
      LaneSum(now, r, m, t, lanes, mask0, mask1, p);
      if p == r.out + s && m <= s < m + t {
        assert now[r.out + s - d] >= 2;
      }
    }
  }

  /** Element `s` falls into a repeat of which it reads what an earlier one wrote. */
  lemma StaleLane(d: nat, lanes: nat, loop: nat, s: nat)
    requires 0 < lanes && 0 < d && s == FirstStale(d, lanes) && loop * lanes <= s < loop * lanes + lanes
    ensures d <= s < loop * lanes + d
  {
    AtLeastOne(loop, lanes);
  }

  lemma SpoiledRepeat(now: seq<int>, r: Regs, lanes: nat, loop: nat, s: nat, d: nat)
    requires 0 < lanes <= 128 && Fits(r, loop * lanes + lanes, |now|) && Spoiled(now, r.out, loop * lanes, s)
    requires 0 < d && (d == r.out - r.a || d == r.out - r.b) && s == FirstStale(d, lanes)
    ensures Spoiled(OneRepeat(now, ADD, Moved(r, loop * lanes), lanes, MAX_UINT64, MAX_UINT64), r.out,
      loop * lanes + lanes, s)
  {
    var m := loop * lanes;
    if m <= s < m + lanes { StaleLane(d, lanes, loop, s); }
    AllActive(lanes);
    SpoiledStep(now, r, m, lanes, lanes, MAX_UINT64, MAX_UINT64, s, d);
  }

  lemma {:induction false} SpoiledRepeats(mem: seq<int>, r: Regs, lanes: nat, loop: nat, s: nat, d: nat)
    requires 0 < lanes <= 128 && (forall p :: 0 <= p < |mem| ==> mem[p] == 1)
    requires Fits(r, loop * lanes, |mem|)
    requires 0 < d && (d == r.out - r.a || d == r.out - r.b) && s == FirstStale(d, lanes)
    ensures |Repeats(mem, ADD, r, lanes, MAX_UINT64, MAX_UINT64, loop)| == |mem|
    ensures Spoiled(Repeats(mem, ADD, r, lanes, MAX_UINT64, MAX_UINT64, loop), r.out, loop * lanes, s)
  {
    if loop > 0 {
      assert loop * lanes == (loop - 1) * lanes + lanes;
      SpoiledRepeats(mem, r, lanes, loop - 1, s, d);
      SpoiledRepeat(Repeats(mem, ADD, r, lanes, MAX_UINT64, MAX_UINT64, loop - 1), r, lanes, loop - 1, s, d);
    }
  }

  lemma SpoiledKernel(mem: seq<int>, r: Regs, lanes: nat, loop: nat, tail: nat, mask0: nat, mask1: nat, s: nat, d: nat)
    requires tail < lanes <= 128 && FirstLanes(mask0, mask1, tail)
    requires Fits(r, loop * lanes + tail, |mem|)
    requires forall p :: 0 <= p < |mem| ==> mem[p] == 1
    requires 0 < d && (d == r.out - r.a || d == r.out - r.b) && s == FirstStale(d, lanes)
    ensures |Kernel(mem, ADD, r, lanes, lanes, loop, tail, mask0, mask1)| == |mem|
    ensures Spoiled(Kernel(mem, ADD, r, lanes, lanes, loop, tail, mask0, mask1), r.out, loop * lanes + tail, s)
  {
    SpoiledRepeats(mem, r, lanes, loop, s, d);
    var m := loop * lanes;
    if tail != 0 {
      if m <= s < m + lanes { StaleLane(d, lanes, loop, s); }
      TailActive(mask0, mask1, lanes, tail);
      SpoiledStep(Repeats(mem, ADD, r, lanes, MAX_UINT64, MAX_UINT64, loop), r, m, tail, lanes, mask0, mask1, s, d);
    }
  }

  /** Adding ones: what the full repeats compute is 2 or more, the rest as it was. */
  ghost predicate Grown(now: seq<int>, out: nat, w: nat) {
    forall p :: 0 <= p < |now| ==> if out <= p < out + w then now[p] >= 2 else now[p] == 1
  }

  lemma {:induction false} GrownRepeats(mem: seq<int>, r: Regs, lanes: nat, loop: nat, w: nat)
    requires lanes <= 128 && w == loop * lanes && Fits(r, w, |mem|) && forall p :: 0 <= p < |mem| ==> mem[p] == 1
    ensures var now := Repeats(mem, ADD, r, lanes, MAX_UINT64, MAX_UINT64, loop); |now| == |mem| && Grown(now, r.out, w)
  {
    if loop > 0 {
      var m := (loop - 1) * lanes;
      assert w == m + lanes;
      GrownRepeats(mem, r, lanes, loop - 1, m);
      AllActive(lanes);
      var now := Repeats(mem, ADD, r, lanes, MAX_UINT64, MAX_UINT64, loop - 1);
      forall p | 0 <= p < |now|
        ensures var next := OneRepeat(now, ADD, Moved(r, m), lanes, MAX_UINT64, MAX_UINT64);
          if r.out <= p < r.out + w then next[p] >= 2 else next[p] == 1
      {
        LaneSum(now, r, m, lanes, lanes, MAX_UINT64, MAX_UINT64, p);
      }
    }
  }

  /** Neither the full repeats nor the tail get there. */
  lemma Missed(mem: seq<int>, r: Regs, lanes: nat, alignLen: nat, loop: nat, tail: nat, mask0: nat, mask1: nat, s: nat)
    requires 0 < lanes <= 128 && Fits(r, loop * lanes, |mem|) && Fits(r, loop * alignLen + tail, |mem|)
    requires forall p :: 0 <= p < |mem| ==> mem[p] == 1
    requires loop * lanes <= s < loop * alignLen + tail && (s < loop * alignLen || loop * alignLen + lanes <= s)
    ensures Kernel(mem, ADD, r, lanes, alignLen, loop, tail, mask0, mask1) != Intended(mem, ADD, r,
      loop * alignLen + tail)
  {
    GrownRepeats(mem, r, lanes, loop, loop * lanes);
    TwoAt(mem, r, loop * alignLen + tail, s);
    assert Kernel(mem, ADD, r, lanes, alignLen, loop, tail, mask0, mask1)[r.out + s] == 1;
  }

  /** The tail leaves what stands behind it. */
  lemma TailEnds(now: seq<int>, r: Regs, m: nat, tail: nat, lanes: nat, mask0: nat, mask1: nat)
    requires lanes <= 128 && FirstLanes(mask0, mask1, tail) && r.out + m + tail < |now|
    ensures OneRepeat(now, ADD, Moved(r, m), lanes, mask0, mask1)[r.out + m + tail] == now[r.out + m + tail]
  {
    assert !Lane(r.out + m + tail, r.out + m, lanes, mask0, mask1);
  }

  /** The full repeats go past the data. */
  lemma Overrun(mem: seq<int>, r: Regs, lanes: nat, alignLen: nat, loop: nat, tail: nat, mask0: nat, mask1: nat, m: nat,
                w: nat)
    requires 0 < lanes <= 128 && m == loop * alignLen && w == loop * lanes && m + tail < w
    requires Fits(r, w, |mem|) && FirstLanes(mask0, mask1, tail) && forall p :: 0 <= p < |mem| ==> mem[p] == 1
    ensures Kernel(mem, ADD, r, lanes, alignLen, loop, tail, mask0, mask1) != Intended(mem, ADD, r, m + tail)
  {
    var full := Repeats(mem, ADD, r, lanes, MAX_UINT64, MAX_UINT64, loop);
    GrownRepeats(mem, r, lanes, loop, w);
    TailEnds(full, r, m, tail, lanes, mask0, mask1);
    var now := if tail == 0 then full else OneRepeat(full, ADD, Moved(r, m), lanes, mask0, mask1);
    assert now == Kernel(mem, ADD, r, lanes, alignLen, loop, tail, mask0, mask1);
    assert now[r.out + m + tail] >= 2;
    assert Intended(mem, ADD, r, m + tail)[r.out + m + tail] == 1;
  }

  /** The tail reads what the full repeats have written. */
  lemma ReadAgain(mem: seq<int>, r: Regs, lanes: nat, alignLen: nat, loop: nat, tail: nat, mask0: nat, mask1: nat,
                  d: int)
    requires 0 < lanes <= 128 && tail < lanes && FirstLanes(mask0, mask1, tail) && 0 < tail
    requires forall p :: 0 <= p < |mem| ==> mem[p] == 1
    requires loop * alignLen <= loop * lanes <= loop * alignLen + tail && Fits(r, loop * alignLen + tail, |mem|)
    requires d == r.out - r.a || d == r.out - r.b
    requires !Clear(d, loop * lanes - loop * alignLen, loop * alignLen + tail) && 0 < loop * lanes
    ensures Kernel(mem, ADD, r, lanes, alignLen, loop, tail, mask0, mask1) != Intended(mem, ADD, r,
      loop * alignLen + tail)
  {
    var m, w := loop * alignLen, loop * lanes;
    var s := if m < d then d else m;
    var now := Repeats(mem, ADD, r, lanes, MAX_UINT64, MAX_UINT64, loop);
    GrownRepeats(mem, r, lanes, loop, w);
    TailActive(mask0, mask1, lanes, tail);
    LaneSum(now, r, m, tail, lanes, mask0, mask1, r.out + s);
    assert now[r.out + s - d] >= 2;
    TwoAt(mem, r, m + tail, s);
  }

  lemma LoopTimes(loop: nat, a: nat, b: nat)
    ensures loop > 0 && a < b ==> loop * a < loop * b
    ensures loop * (a + b) == loop * a + loop * b
  {
  }

  /** A later repeat reads a result. */
  lemma StaleRepeat(mem: seq<int>, r: Regs, lanes: nat, loop: nat, tail: nat, mask0: nat, mask1: nat, d: nat)
    requires 0 < lanes <= 128 && tail < lanes && FirstLanes(mask0, mask1, tail) && 0 < loop && !(loop == 1 && tail == 0)
    requires Fits(r, loop * lanes + tail, |mem|) && forall p :: 0 <= p < |mem| ==> mem[p] == 1
    requires (d == r.out - r.a || d == r.out - r.b) && 0 < d < loop * lanes + tail
    ensures Kernel(mem, ADD, r, lanes, lanes, loop, tail, mask0, mask1) != Intended(mem, ADD, r, loop * lanes + tail)
  {
    LoopTimes(loop - 1, lanes, lanes);
    assert loop * lanes == (loop - 1) * lanes + lanes;
    AtLeastOne(loop - 1, lanes);
    var s := FirstStale(d, lanes);
    SpoiledKernel(mem, r, lanes, loop, tail, mask0, mask1, s, d);
    TwoAt(mem, r, loop * lanes + tail, s);
  }

  /** The repeats end within the data, but an operand is not clear. */
  lemma NotClear(mem: seq<int>, r: Regs, lanes: nat, alignLen: nat, loop: nat, tail: nat, mask0: nat, mask1: nat,
                 m: nat, w: nat)
    requires 0 < lanes <= 128 && tail < alignLen <= lanes && FirstLanes(mask0, mask1, tail) && 0 < loop
    requires m == loop * alignLen && w == loop * lanes && w <= m + tail && Fits(r, m + tail, |mem|)
    requires forall p :: 0 <= p < |mem| ==> mem[p] == 1
    requires !(alignLen == lanes && loop == 1 && tail == 0)
    requires !Clear(r.out - r.a, w - m, m + tail) || !Clear(r.out - r.b, w - m, m + tail)
    ensures Kernel(mem, ADD, r, lanes, alignLen, loop, tail, mask0, mask1) != Intended(mem, ADD, r, m + tail)
  {
    var d := if Clear(r.out - r.a, w - m, m + tail) then r.out - r.b else r.out - r.a;
    LoopTimes(loop, alignLen, lanes);
    if alignLen < lanes {
      ReadAgain(mem, r, lanes, alignLen, loop, tail, mask0, mask1, d);
    } else {
      StaleRepeat(mem, r, lanes, loop, tail, mask0, mask1, d);
    }
  }

  /** A buffer of ones shows whatever is not right. */
  lemma KernelMisses(mem: seq<int>, r: Regs, lanes: nat, alignLen: nat, loop: nat, tail: nat, mask0: nat, mask1: nat)
    requires 0 < lanes <= 128 && tail < alignLen && !Fitting(r, lanes, alignLen, loop, tail) &&
      FirstLanes(mask0, mask1, tail)
    requires Fits(r, loop * lanes, |mem|) && Fits(r, loop * alignLen + tail, |mem|)
    requires forall p :: 0 <= p < |mem| ==> mem[p] == 1
    ensures Kernel(mem, ADD, r, lanes, alignLen, loop, tail, mask0, mask1) != Intended(mem, ADD, r,
      loop * alignLen + tail)
  {
    var m, w := loop * alignLen, loop * lanes;
    LoopTimes(loop, lanes, alignLen);
    if loop == 0 {
      Missed(mem, r, lanes, alignLen, loop, tail, mask0, mask1, lanes);
    } else if lanes < alignLen {
      Missed(mem, r, lanes, alignLen, loop, tail, mask0, mask1, w);
    } else if m + tail < w {
      Overrun(mem, r, lanes, alignLen, loop, tail, mask0, mask1, m, w);
    } else {
      LoopAtMost(loop, alignLen, lanes);
      NotClear(mem, r, lanes, alignLen, loop, tail, mask0, mask1, m, w);
    }
  }

  lemma LoopAtMost(loop: nat, a: nat, b: nat)
    requires a <= b
    ensures loop * a <= loop * b
  {
  }

  lemma TwoAt(mem: seq<int>, r: Regs, n: nat, s: nat)
    requires s < n && Fits(r, n, |mem|)
    requires forall p :: 0 <= p < |mem| ==> mem[p] == 1
    ensures Intended(mem, ADD, r, n)[r.out + s] == 2
  {
    assert At(mem, r.a + s) == At(mem, r.b + s) == 1;
    assert ADD(1, 1) == 2;
  }

  predicate Fits(r: Regs, n: nat, size: nat) {
    r.a + n <= size && r.b + n <= size && r.out + n <= size
  }

  /** Whatever the buffer holds and the operation is, the kernel computes it. */
  ghost predicate Right(r: Regs, size: nat, lanes: nat, alignLen: nat, loop: nat, tail: nat, mask0: nat, mask1: nat)
    requires lanes <= 128
  {
    forall mem: seq<int>, f: Op :: |mem| == size ==>
      Kernel(mem, f, r, lanes, alignLen, loop, tail, mask0, mask1) == Intended(mem, f, r, loop * alignLen + tail)
  }

  /** Main result: with the masks of the tail and room for all lanes, the kernel is right for every buffer and
      every operation exactly on these shapes and placements. */
  lemma KernelExact(r: Regs, size: nat, lanes: nat, alignLen: nat, loop: nat, tail: nat, mask0: nat, mask1: nat)
    requires 0 < lanes <= 128 && tail < alignLen && FirstLanes(mask0, mask1, tail)
    requires Fits(r, loop * lanes, size) && Fits(r, loop * alignLen + tail, size)
    ensures Right(r, size, lanes, alignLen, loop, tail, mask0, mask1) <==> Fitting(r, lanes, alignLen, loop, tail)
  {
    if Fitting(r, lanes, alignLen, loop, tail) {
      forall mem: seq<int>, f: Op | |mem| == size
        ensures Kernel(mem, f, r, lanes, alignLen, loop, tail, mask0, mask1) ==
          Intended(mem, f, r, loop * alignLen + tail)
      {
        KernelMeets(mem, f, r, lanes, alignLen, loop, tail, mask0, mask1);
      }
    } else {
      var ones := seq(size, i => 1);
      KernelMisses(ones, r, lanes, alignLen, loop, tail, mask0, mask1);
      assert |ones| == size;
    }
  }

  /** With the vector length that the documentation names, it is right exactly if no later repeat reads a result:
      in place and on separate operands always. */
  lemma VectorLength(r: Regs, lanes: nat, loop: nat, tail: nat)
    requires tail < lanes
    ensures Fitting(r, lanes, lanes, loop, tail) <==> Separate(r, lanes, loop * lanes + tail)
  {
    if loop > 1 { LoopTimes(loop - 1, 0, lanes); }
  }

  /** `now` is what the kernel, with its tail split off and masked, makes of `was`. */
  ghost predicate Emitted(was: seq<int>, now: seq<int>, f: Op, r: Regs, lanes: nat, alignLen: nat, n: nat)
    requires lanes <= 128 && alignLen > 0
  {
    exists m0: nat, m1: nat ::
      FirstLanes(m0, m1, n % alignLen) && now == Kernel(was, f, r, lanes, alignLen, n / alignLen, n % alignLen, m0, m1)
  }

  /** The instructions of `kernel_two_to_one_common_fuc`, issued to the unit. */
  method EmitKernel(u: Unit, f: Op, r: Regs, dataLen: nat, alignLen: nat)
    returns (loop: nat, ghost tail: nat, ghost m0: nat, ghost m1: nat)
    requires 0 < alignLen && 0 < u.lanes <= 128 && u.mask0 == u.mask1 == MAX_UINT64
    modifies u, u.mem
    ensures dataLen == loop * alignLen + tail && tail < alignLen && FirstLanes(m0, m1, tail)
    ensures u.mask0 == u.mask1 == MAX_UINT64
    ensures u.mem[..] == Kernel(old(u.mem[..]), f, r, u.lanes, alignLen, loop, tail, m0, m1)
  {
    var isNeedMask, mask0, mask1;
    loop, isNeedMask, mask0, mask1 := GetLoopnumAndMasklist(dataLen, alignLen);
    tail, m0, m1 := dataLen - loop * alignLen, mask0, mask1;
    ghost var was := u.mem[..];
    if loop != 0 {
      u.Vector(f, r, loop);
    }
    assert u.mem[..] == Repeats(was, f, r, u.lanes, MAX_UINT64, MAX_UINT64, loop);
    if isNeedMask {
      EmitTail(u, f, Moved(r, loop * alignLen), mask0, mask1);
    }
  }

  /** One repeat under the masks of the tail. */
  method EmitTail(u: Unit, f: Op, r: Regs, mask0: nat, mask1: nat)
    requires 0 < u.lanes <= 128 && u.mask0 == u.mask1 == MAX_UINT64
    modifies u, u.mem
    ensures u.mask0 == u.mask1 == MAX_UINT64
    ensures u.mem[..] == OneRepeat(old(u.mem[..]), f, r, u.lanes, mask0, mask1)
  {
    u.SetVectorMask(mask1, mask0);
    OneIsRepeats(u.mem[..], f, r, u.lanes, mask0, mask1);
    u.Vector(f, r, 1);
    u.SetVectorMask(MAX_UINT64, MAX_UINT64);
  }

  /** `kernel_two_to_one_common_fuc`: it computes what `KernelExact` speaks about, and leaves all lanes on. */
  method KernelTwoToOne(u: Unit, f: Op, r: Regs, dataLen: nat, alignLen: nat)
    requires 0 < alignLen && 0 < u.lanes <= 128 && u.mask0 == u.mask1 == MAX_UINT64
    modifies u, u.mem
    ensures u.mask0 == u.mask1 == MAX_UINT64
    ensures Fitting(r, u.lanes, alignLen, dataLen / alignLen, dataLen % alignLen) ==>
      u.mem[..] == Intended(old(u.mem[..]), f, r, dataLen) && Computed(old(u.mem[..]), u.mem[..], f, r, dataLen)
    ensures Emitted(old(u.mem[..]), u.mem[..], f, r, u.lanes, alignLen, dataLen)
  {
    ghost var was := u.mem[..];
    var loop;
    ghost var tail, m0, m1;
    loop, tail, m0, m1 := EmitKernel(u, f, r, dataLen, alignLen);
    DivModUnique(dataLen, alignLen, loop, tail);
    if Fitting(r, u.lanes, alignLen, loop, tail) {
      KernelComputes(was, f, r, u.lanes, alignLen, dataLen, m0, m1);
    }
  }

  lemma KernelComputes(mem: seq<int>, f: Op, r: Regs, lanes: nat, alignLen: nat, n: nat, m0: nat, m1: nat)
    requires 0 < alignLen && 0 < lanes <= 128 && FirstLanes(m0, m1, n % alignLen)
    requires Fitting(r, lanes, alignLen, n / alignLen, n % alignLen)
    ensures Kernel(mem, f, r, lanes, alignLen, n / alignLen, n % alignLen, m0, m1) == Intended(mem, f, r, n)
    ensures Computed(mem, Intended(mem, f, r, n), f, r, n)
  {
    assert n / alignLen * alignLen + n % alignLen == n;
    KernelMeets(mem, f, r, lanes, alignLen, n / alignLen, n % alignLen, m0, m1);
    IntendedIsComputed(mem, f, r, n);
  }

  lemma OneIsRepeats(mem: seq<int>, f: Op, r: Regs, lanes: nat, mask0: nat, mask1: nat)
    requires lanes <= 128
    ensures Repeats(mem, f, r, lanes, mask0, mask1, 1) == OneRepeat(mem, f, r, lanes, mask0, mask1)
  {
    assert Moved(r, 0) == r;
    assert Repeats(mem, f, r, lanes, mask0, mask1, 0) == mem;
  }
}
