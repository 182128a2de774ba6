/** Window sizes and padding after the TensorFlow rules (auto_schedule/python/common.py). */
module Windows {
  import opened Wrappers

  datatype Padding = Valid | Same | Other

  /** How many windows there are, and the padding before and after. */
  datatype Windowed = Windowed(count: int, before: int, after: int)

  function Effective(filterSize: int, dilation: int): int { (filterSize - 1) * dilation + 1 }

  /** `tf_get_windowed_output_size_verbose_v2`, nothing where it raises an error. */
  function WindowedOutputSize(inputSize: int, filterSize: int, dilation: int, stride: int,
                              padding: Padding): (windowed: Option<Windowed>)
    ensures windowed.None? <==> stride <= 0 || dilation < 1 || padding.Other?
  {
    if stride <= 0 || dilation < 1 then None
    else
      var effective := Effective(filterSize, dilation);
      match padding
      case Valid => Some(Windowed((inputSize - effective + stride) / stride, 0, 0))
      case Same =>
        var count := (inputSize + stride - 1) / stride;
        var needed := if (count - 1) * stride + effective - inputSize > 0
          then (count - 1) * stride + effective - inputSize else 0;
        Some(Windowed(count, needed / 2, needed - needed / 2))
      case Other => None
  }

  /** Where the filter's element `f` of window `i` stands in the input. */
  function Tap(w: Windowed, dilation: int, stride: int, i: int, f: int): int {
    i * stride - w.before + f * dilation
  }

  /** Window `i` lies within the padded input. */
  predicate Fits(w: Windowed, inputSize: int, effective: int, stride: int, i: int) {
    -w.before <= i * stride - w.before && i * stride - w.before + effective <= inputSize + w.after
  }

  /** That is to say, the first and the last element of the filter do. */
  lemma FitsTaps(w: Windowed, inputSize: int, filterSize: int, dilation: int, stride: int, i: int)
    ensures Tap(w, dilation, stride, i, filterSize - 1) + 1 ==
      Tap(w, dilation, stride, i, 0) + Effective(filterSize, dilation)
    ensures Fits(w, inputSize, Effective(filterSize, dilation), stride, i) <==>
      -w.before <= Tap(w, dilation, stride, i, 0) && Tap(w, dilation, stride, i, filterSize - 1) < inputSize + w.after
  {
  }

  /** Cell `c` of the input is in window `i`. */
  predicate Covers(w: Windowed, effective: int, stride: int, i: int, c: int) {
    i * stride - w.before <= c < i * stride - w.before + effective
  }

  predicate Covered(w: Windowed, effective: int, stride: int, c: int) {
    exists i :: 0 <= i < w.count && Covers(w, effective, stride, i, c)
  }

  lemma Quotient(x: int, stride: int, i: int)
    requires stride > 0
    ensures i < (x + stride) / stride <==> i * stride <= x
  {
    var q := (x + stride) / stride;
    assert q * stride <= x + stride < q * stride + stride;
    if i < q { assert (i + 1) * stride <= q * stride; } else { assert q * stride <= i * stride; }
  }

  /** VALID: window `i` exists exactly if it fits into the input; this holds for too short inputs as well. */
  lemma ValidGreatest(inputSize: int, filterSize: int, dilation: int, stride: int, i: nat)
    requires stride > 0 && dilation >= 1
    ensures var w := WindowedOutputSize(inputSize, filterSize, dilation, stride, Valid).value;
      && w.before == w.after == 0
      && (i < w.count <==> Tap(w, dilation, stride, i, filterSize - 1) < inputSize)
  {
    Quotient(inputSize - Effective(filterSize, dilation), stride, i);
    FitsTaps(Windowed(0, 0, 0), inputSize, filterSize, dilation, stride, i);
  }

  /** SAME: a window starts at every multiple of the stride inside the input. */
  lemma SameCount(inputSize: int, filterSize: int, dilation: int, stride: int, i: int)
    requires stride > 0 && dilation >= 1
    ensures i < WindowedOutputSize(inputSize, filterSize, dilation, stride, Same).value.count <==>
      i * stride < inputSize
  {
    Quotient(inputSize - 1, stride, i);
  }

  /** SAME: the padding is balanced, every window fits, and padding there is only if the last window needs all of it. */
  lemma SameFits(inputSize: int, filterSize: int, dilation: int, stride: int, i: int)
    requires inputSize > 0 && filterSize > 0 && stride > 0 && dilation >= 1
    ensures var w, effective := WindowedOutputSize(inputSize, filterSize, dilation, stride, Same).value,
      (filterSize - 1) * dilation + 1;
      && w.count > 0 && 0 <= w.before <= w.after <= w.before + 1
      && (0 <= i < w.count ==> Fits(w, inputSize, effective, stride, i))
      && (w.after > 0 ==> (w.count - 1) * stride - w.before + effective == inputSize + w.after)
  {
    var w := WindowedOutputSize(inputSize, filterSize, dilation, stride, Same).value;
    SameCount(inputSize, filterSize, dilation, stride, 0);
    if 0 <= i < w.count { Monotone(i, w.count - 1, stride); }
  }

  lemma Monotone(i: int, j: int, stride: int)
    requires i <= j && stride > 0 && i >= 0
    ensures 0 <= i * stride <= j * stride
  {
  }

  /** A cell is in the window that starts last before it, or in the last window. */
  lemma Caught(w: Windowed, effective: int, stride: int, inputSize: int, c: int)
    requires 0 <= c < inputSize && 0 < stride <= effective && w.count > 0 && w.before >= 0
    requires (w.count - 1) * stride < inputSize && inputSize <= (w.count - 1) * stride - w.before + effective
    ensures Covered(w, effective, stride, c)
  {
    var i := (c + w.before) / stride;
    assert i * stride <= c + w.before < i * stride + stride;
    if i < w.count {
      assert i >= 0;
      assert Covers(w, effective, stride, i, c);
    } else {
      Monotone(w.count - 1, i, stride);
      assert Covers(w, effective, stride, w.count - 1, c);
    }
  }

  /** The last window starts inside the input and reaches its end. */
  lemma SameLast(inputSize: int, filterSize: int, dilation: int, stride: int, w: Windowed)
    requires inputSize > 0 && filterSize > 0 && stride > 0 && dilation >= 1
    requires w == WindowedOutputSize(inputSize, filterSize, dilation, stride, Same).value
    ensures w.count > 0 && 0 <= w.before <= w.after && w.before < Effective(filterSize, dilation)
    ensures (w.count - 1) * stride < inputSize <= w.count * stride
    ensures Effective(filterSize, dilation) >= stride ==>
      inputSize <= (w.count - 1) * stride - w.before + Effective(filterSize, dilation)
    ensures w.count == 1 && Effective(filterSize, dilation) >= inputSize ==>
      inputSize <= Effective(filterSize, dilation) - w.before
  {
    SameCount(inputSize, filterSize, dilation, stride, 0);
    SameCount(inputSize, filterSize, dilation, stride, w.count - 1);
    SameCount(inputSize, filterSize, dilation, stride, w.count);
    assert (w.count - 1) * stride + stride == w.count * stride;
    assert Effective(filterSize, dilation) >= 1 by { assert (filterSize - 1) * dilation >= 0; }
  }

  /** SAME: every cell of the input is in a window exactly if the filter reaches from one window to the next
      or over the whole input. */
  lemma SameCoversExactly(inputSize: int, filterSize: int, dilation: int, stride: int, w: Windowed)
    requires inputSize > 0 && filterSize > 0 && stride > 0 && dilation >= 1
    requires w == WindowedOutputSize(inputSize, filterSize, dilation, stride, Same).value
    ensures var effective := (filterSize - 1) * dilation + 1;
      (forall c :: 0 <= c < inputSize ==> Covered(w, effective, stride, c)) <==>
        effective >= stride || effective >= inputSize
  {
    var effective := Effective(filterSize, dilation);
    SameLast(inputSize, filterSize, dilation, stride, w);
    if effective >= stride {
      forall c | 0 <= c < inputSize ensures Covered(w, effective, stride, c) {
        Caught(w, effective, stride, inputSize, c);
      }
    } else if effective >= inputSize {
      if w.count > 1 { Monotone(1, w.count - 1, stride); }
      forall c | 0 <= c < inputSize ensures Covered(w, effective, stride, c) {
        assert Covers(w, effective, stride, 0, c);
      }
    } else {
      var c := effective - w.before;
      assert 0 <= c < inputSize;
      forall i | 0 <= i < w.count ensures !Covers(w, effective, stride, i, c) {
        if i > 0 { Monotone(1, i, stride); }
      }
      assert !Covered(w, effective, stride, c);
    }
  }
}
