/** The lane mask of a masked vector instruction
    (auto_schedule/python/irbuilder_api.py, `get_loopnum_and_masklist`). */
module VectorMask {

  /** 2^64 - 1. */
  const MAX_UINT64: nat := 18446744073709551615

  predicate Bit(word: nat, k: nat) {
    if k == 0 then word % 2 == 1 else Bit(word / 2, k - 1)
  }

  /** Lanes 0 to 63 are switched by the bits of `mask0`, lanes 64 to 127 by those of `mask1`. */
  predicate LaneOn(mask0: nat, mask1: nat, k: nat)
    requires k < 128
  {
    if k < 64 then Bit(mask0, k) else Bit(mask1, k - 64)
  }

  /** `t` one bits. */
  function Ones(t: nat): nat {
    if t == 0 then 0 else 2 * Ones(t - 1) + 1
  }

  lemma {:induction false} BitsOfOnes(t: nat, k: nat)
    ensures Bit(Ones(t), k) <==> k < t
  {
    if t == 0 {
      if k > 0 { BitsOfOnes(0, k - 1); }
    } else if k > 0 {
      assert Ones(t) / 2 == Ones(t - 1);
      BitsOfOnes(t - 1, k - 1);
    }
  }

  lemma FourMore(t: nat)
    ensures Ones(t + 4) == 16 * Ones(t) + 15
  {
    assert Ones(t + 1) == 2 * Ones(t) + 1;
    assert Ones(t + 2) == 4 * Ones(t) + 3;
    assert Ones(t + 3) == 8 * Ones(t) + 7;
  }

  lemma SixtyFourOnes()
    ensures Ones(64) == MAX_UINT64
  {
    assert Ones(0) == 0;
    FourMore(0); FourMore(4); FourMore(8); FourMore(12);
    assert Ones(16) == 0xFFFF;
    FourMore(16); FourMore(20); FourMore(24); FourMore(28);
    assert Ones(32) == 0xFFFF_FFFF;
    FourMore(32); FourMore(36); FourMore(40); FourMore(44);
    assert Ones(48) == 0xFFFF_FFFF_FFFF;
    FourMore(48); FourMore(52); FourMore(56); FourMore(60);
  }

  ghost function TwoTo(k: nat): nat {
    if k == 0 then 1 else 2 * TwoTo(k - 1)
  }

  lemma {:induction false} OnesAre(t: nat)
    ensures Ones(t) == TwoTo(t) - 1
  {
    if t > 0 { OnesAre(t - 1); }
  }

  lemma {:induction false} OnesGrow(s: nat, t: nat)
    requires s < t
    ensures Ones(s) < Ones(t)
  {
    if s < t - 1 { OnesGrow(s, t - 1); }
  }

  /** The mask register as it stands between the kernels. */
  lemma AllLanesOn(k: nat)
    requires k < 128
    ensures LaneOn(MAX_UINT64, MAX_UINT64, k)
  {
    SixtyFourOnes();
    BitsOfOnes(64, if k < 64 then k else k - 64);
  }

  /** Exactly the first `t` lanes. */
  ghost predicate FirstLanes(mask0: nat, mask1: nat, t: nat) {
    forall k :: 0 <= k < 128 ==> (LaneOn(mask0, mask1, k) <==> k < t)
  }

  lemma MasksSelect(t: nat, mask0: nat, mask1: nat)
    requires mask0 == (if t < 64 then Ones(t) else Ones(64)) && mask1 == (if t < 64 then 0 else Ones(t - 64))
    ensures FirstLanes(mask0, mask1, t)
    ensures mask0 <= MAX_UINT64 && (mask1 <= MAX_UINT64 <==> t <= 128)
  {
    SixtyFourOnes();
    forall k | 0 <= k < 128
      ensures LaneOn(mask0, mask1, k) <==> k < t
    {
      if k < 64 {
        BitsOfOnes(if t < 64 then t else 64, k);
      } else {
        BitsOfOnes(if t < 64 then 0 else t - 64, k - 64);
      }
    }
    if t < 64 { OnesGrow(t, 64); }
    if 64 <= t < 128 { OnesGrow(t - 64, 64); }
    if t > 128 { OnesGrow(64, t - 64); }
  }

  /** How many full repeats, whether a tail is left, and the two mask words of the tail: they switch on
      exactly its lanes, and are 64-bit words exactly if the tail has at most 128 of them. */
  method GetLoopnumAndMasklist(dataLen: nat, alignLen: nat)
    returns (loop: nat, isNeedMask: bool, mask0: nat, mask1: nat)
    requires alignLen > 0
    ensures loop * alignLen <= dataLen < loop * alignLen + alignLen
    ensures isNeedMask <==> dataLen != loop * alignLen
    ensures FirstLanes(mask0, mask1, dataLen - loop * alignLen)
    ensures mask0 <= 0xFFFF_FFFF_FFFF_FFFF
    ensures mask1 <= 0xFFFF_FFFF_FFFF_FFFF <==> dataLen - loop * alignLen <= 128
    ensures var tail := dataLen - loop * alignLen;
      if tail < 64 then mask0 == TwoTo(tail) - 1 && mask1 == 0
      else mask0 == 0xFFFF_FFFF_FFFF_FFFF && mask1 == TwoTo(tail - 64) - 1
  {
    mask0, mask1, isNeedMask := 0, 0, false;
    loop := dataLen / alignLen;
    var tail := dataLen % alignLen;
    assert dataLen == loop * alignLen + tail;
    if tail != 0 {
      isNeedMask := true;
      if tail < 64 {
        for i := 0 to tail
          invariant mask0 == Ones(i)
        {
          mask0 := mask0 * 2 + 1;
        }
        mask1 := 0;
      } else {
        mask0 := (MAX_UINT64 / 2) * 2 + 1;
        SixtyFourOnes();
        for i := 0 to tail - 64
          invariant mask1 == Ones(i)
        {
          mask1 := mask1 * 2 + 1;
        }
      }
    }
    MasksSelect(tail, mask0, mask1);
    OnesAre(if tail < 64 then tail else tail - 64);
  }

  /** An element of a buffer. */
  function At(mem: seq<int>, p: int): int {
    if 0 <= p < |mem| then mem[p] else 0
  }
}
