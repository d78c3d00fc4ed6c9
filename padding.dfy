/** "Same" padding: the per-dimension (left, right) split and the decision of
    `_apply_same_padding` between handing symmetric amounts to the engine's
    own padding argument and padding the input explicitly. */
module Padding {
  import opened Errors
  import opened Shapes

  /** Which branch of `_apply_same_padding` runs: pooling ignores the
      dilation rate and pads by replicating the border, convolution honours
      the dilation rate and pads with zeros. */
  datatype Operation = Pooling | Convolution

  datatype Fill = Replicate | Constant

  /** The outcome of `_apply_same_padding`: either the input is left as it is
      and `amounts` go to the engine's padding argument, or the input is
      padded by the engine's pad with vector `pad` and the padding argument
      becomes 0. */
  datatype SamePad = Unpadded(amounts: seq<int>) | Padded(pad: seq<int>, fill: Fill)

  /** The padding argument that finally reaches a native pooling or
      convolution op. */
  datatype NativePadding = Zero | Amounts(amounts: seq<int>) | Mode(mode: PaddingMode)

  /** An explicit pad of the input before the native op, if any. */
  datatype ExplicitPad = NoPad | Pad(amounts: seq<int>, fill: Fill)

  /** `_compute_padding_length`. Python's `%` and `//` floor; with a positive
      stride and the divisor 2 Dafny's Euclidean operators agree with them,
      also for a negative total. */
  function ComputePaddingLength(inputLength: int, kernelLength: int, stride: int, dilationRate: int): (r: (int, int))
    requires stride >= 1
    ensures r.0 + r.1 == dilationRate * (kernelLength - 1) - (inputLength - 1) % stride
    ensures r.0 <= r.1 <= r.0 + 1
  {
    var totalPaddingLength := dilationRate * (kernelLength - 1) - (inputLength - 1) % stride;
    (totalPaddingLength / 2, (totalPaddingLength + 1) / 2)
  }

  /** The engine's output length of a strided window over a (padded) input of
      length `padded`: floor((padded - d*(k-1) - 1) / s) + 1. */
  function StridedLength(padded: int, kernelLength: int, stride: int, dilationRate: int): int
    requires stride >= 1
  {
    (padded - dilationRate * (kernelLength - 1) - 1) / stride + 1
  }

  /** The library's "same" output length, ceil(L / s). */
  function SameLength(inputLength: nat, stride: int): int
    requires stride >= 1
  {
    (inputLength + stride - 1) / stride
  }

  /** Division is determined by the quotient-remainder decomposition. */
  lemma DivUnique(a: int, s: int, q: int, m: int)
    requires s >= 1 && 0 <= m < s && a == s * q + m
    ensures a / s == q
  {
    var d, r := a / s, a % s;
    assert s * q + m == s * d + r;
    assert s * (q - d) == r - m;
    if q - d >= 1 {
      MulAtLeast(s, q - d);
    } else if d - q >= 1 {
      MulAtLeast(s, d - q);
    }
  }

  lemma MulAtLeast(s: int, x: int)
    requires s >= 1 && x >= 1
    ensures s * x >= s
  {
    var y := x - 1;
    assert s * x == s * y + s;
    assert s * y >= 0;
  }

  /** Padding by left + right makes a strided window produce ceil(L / s)
      outputs: this is what "same" means. */
  lemma SamePaddingGivesSameLength(inputLength: nat, kernelLength: int, stride: int, dilationRate: int)
    requires stride >= 1
    ensures var p := ComputePaddingLength(inputLength, kernelLength, stride, dilationRate);
            StridedLength(inputLength + p.0 + p.1, kernelLength, stride, dilationRate) == SameLength(inputLength, stride)
  {
    var a := inputLength - 1;
    var q, m := a / stride, a % stride;
    assert a == stride * q + m && 0 <= m < stride;
    var p := ComputePaddingLength(inputLength, kernelLength, stride, dilationRate);
    var spanned := dilationRate * (kernelLength - 1);
    assert p.0 + p.1 == spanned - m;
    DivUnique(inputLength + p.0 + p.1 - spanned - 1, stride, q, 0);
    DivUnique(inputLength + stride - 1, stride, q + 1, m);
  }

  /** The total can be negative: a kernel of 1 with stride 2 over a length of
      2 asks for one element to be cut off. */
  lemma NegativeTotalPadding()
    ensures ComputePaddingLength(2, 1, 2, 1) == (-1, 0)
  {
  }

  /** The total is never negative when the dilated kernel span d(k-1) is at
      least s - 1, the largest value of (L-1) mod s. */
  lemma TotalPaddingNonnegative(inputLength: int, kernelLength: int, stride: int, dilationRate: int)
    requires stride >= 1 && dilationRate * (kernelLength - 1) >= stride - 1
    ensures var p := ComputePaddingLength(inputLength, kernelLength, stride, dilationRate);
            0 <= p.0 && 0 <= p.1
  {
  }

  predicate StridesFit(spatial: Shape, strides: seq<int>) {
    |strides| == |spatial| && AllPositive(strides)
  }

  /** The dilation rate each branch uses: 1 for pooling; for convolution the
      standardised argument, which the loop only standardises when it runs at
      least once. */
  function Dilations(op: Operation, dilationRate: TupleArg, n: nat): (r: Result<seq<int>>)
    ensures r.Ok? ==> |r.value| == n
  {
    if op == Pooling || n == 0 then Ok(seq(n, _ => 1)) else StandardizeTuple(dilationRate, n)
  }

  /** The (left, right) pair of every spatial dimension, in dimension order. */
  function Pairs(spatial: Shape, kernelSize: seq<int>, strides: seq<int>, dilations: seq<int>): (r: seq<(int, int)>)
    requires StridesFit(spatial, strides) && |kernelSize| >= |spatial| && |dilations| == |spatial|
    ensures |r| == |spatial|
  {
    seq(|spatial|, i requires 0 <= i < |spatial| =>
      ComputePaddingLength(spatial[i], kernelSize[i], strides[i], dilations[i]))
  }

  predicate AllSymmetric(pairs: seq<(int, int)>) {
    forall i :: 0 <= i < |pairs| ==> pairs[i].0 == pairs[i].1
  }

  function Reverse(pairs: seq<(int, int)>): (r: seq<(int, int)>)
    ensures |r| == |pairs|
  {
    seq(|pairs|, j requires 0 <= j < |pairs| => pairs[|pairs| - 1 - j])
  }

  lemma ReverseKeepsSymmetry(pairs: seq<(int, int)>)
    ensures AllSymmetric(Reverse(pairs)) <==> AllSymmetric(pairs)
  {
    var r := Reverse(pairs);
    if AllSymmetric(r) {
      forall i | 0 <= i < |pairs| ensures pairs[i].0 == pairs[i].1 {
        assert r[|pairs| - 1 - i] == pairs[i];
      }
    }
  }

  /** The left amount of every pair, in the pairs' order. */
  function Lefts(pairs: seq<(int, int)>): (r: seq<int>)
    ensures |r| == |pairs|
  {
    seq(|pairs|, j requires 0 <= j < |pairs| => pairs[j].0)
  }

  /** The pairs laid out one after the other: (l0, r0, l1, r1, ...). */
  function Flatten(pairs: seq<(int, int)>): (r: seq<int>)
    ensures |r| == 2 * |pairs|
  {
    seq(2 * |pairs|, k requires 0 <= k < 2 * |pairs| => if k % 2 == 0 then pairs[k / 2].0 else pairs[k / 2].1)
  }

  function FillOf(op: Operation): Fill {
    if op == Pooling then Replicate else Constant
  }

  /** Reference definition of `_apply_same_padding` on shapes. When every
      dimension is symmetric the left amounts are returned last dimension
      first; otherwise the pairs are flattened last dimension first into the
      vector of the engine's pad. */
  function SamePadding(spatial: Shape, kernelSize: seq<int>, strides: seq<int>, op: Operation, dilationRate: TupleArg): (r: Result<SamePad>)
    requires StridesFit(spatial, strides)
    ensures r.Ok? ==> |kernelSize| >= |spatial|
    ensures r.Ok? && r.value.Unpadded? ==> |r.value.amounts| == |spatial|
    ensures r.Ok? && r.value.Padded? ==> |r.value.pad| == 2 * |spatial| && r.value.fill == FillOf(op)
  {
    var n := |spatial|;
    var d :- Dilations(op, dilationRate, n);
    if |kernelSize| < n then Err(IndexOutOfRange)
    else
      var p := Pairs(spatial, kernelSize, strides, d);
      if AllSymmetric(p) then Ok(Unpadded(Lefts(Reverse(p))))
      else Ok(Padded(Flatten(Reverse(p)), FillOf(op)))
  }

  /** `_apply_same_padding`: one pass over the spatial dimensions, prepending
      each dimension's pair, then the symmetry test and the flattening. */
  method ApplySamePadding(spatial: Shape, kernelSize: seq<int>, strides: seq<int>, op: Operation, dilationRate: TupleArg)
    returns (r: Result<SamePad>)
    requires StridesFit(spatial, strides)
    ensures r == SamePadding(spatial, kernelSize, strides, op, dilationRate)
  {
    var numSpatialDims := |spatial|;
    var padding: seq<(int, int)> := [];
    var dilation := dilationRate;
    var mode := Replicate;
    // Ghost view: the pairs the loop computes, with the kernel sizes padded
    // and the dilation rates replaced by 1 where the loop stops early.
    ghost var dil := Dilations(op, dilationRate, numSpatialDims);
    ghost var dilations := if dil.Ok? then dil.value else seq(numSpatialDims, _ => 1);
    ghost var kernels := kernelSize + seq(if |kernelSize| < numSpatialDims then numSpatialDims - |kernelSize| else 0, _ => 0);
    ghost var p := Pairs(spatial, kernels, strides, dilations);
    for i := 0 to numSpatialDims
      invariant |padding| == i
      invariant i > 0 ==> dil.Ok? && i <= |kernelSize|
      invariant op == Convolution && i > 0 ==> dilation == Tuple(dil.value) && mode == Constant
      invariant op == Convolution && i == 0 ==> dilation == dilationRate
      invariant op == Pooling ==> mode == Replicate
      invariant forall j :: 0 <= j < i ==> padding[j] == p[i - 1 - j]
    {
      var paddingSize;
      if op == Pooling {
        if i >= |kernelSize| { return Err(IndexOutOfRange); }
        paddingSize := ComputePaddingLength(spatial[i], kernelSize[i], strides[i], 1);
        mode := Replicate;
      } else {
        var standardized := StandardizeTuple(dilation, numSpatialDims);
        if standardized.Err? {
          return Err(standardized.error);
        }
        if i > 0 {
          StandardizeTupleIdempotent(dilationRate, numSpatialDims);
        }
        dilation := Tuple(standardized.value);
        if i >= |kernelSize| { return Err(IndexOutOfRange); }
        paddingSize := ComputePaddingLength(spatial[i], kernelSize[i], strides[i], standardized.value[i]);
        mode := Constant;
      }
      assert paddingSize == p[i];
      padding := [paddingSize] + padding;
    }
    assert dil.Ok? && |kernelSize| >= numSpatialDims;
    assert p == Pairs(spatial, kernelSize, strides, dil.value);
    assert padding == Reverse(p);
    ReverseKeepsSymmetry(p);
    if AllSymmetric(padding) {
      return Ok(Unpadded(Lefts(padding)));
    }
    return Ok(Padded(Flatten(padding), mode));
  }

  /** The engine's pad on shapes: pair j of `pad` widens the j-th dimension
      counted from the last one, by its two entries. */
  function PadShape(shape: seq<int>, pad: seq<int>): (r: seq<int>)
    requires |pad| % 2 == 0 && |pad| / 2 <= |shape|
    ensures |r| == |shape|
  {
    seq(|shape|, i requires 0 <= i < |shape| =>
      var j := |shape| - 1 - i;
      if j < |pad| / 2 then shape[i] + pad[2 * j] + pad[2 * j + 1] else shape[i])
  }

  /** `_apply_same_padding` fails only where the source raises: a dilation
      rate that does not standardise (convolution, some spatial dimension) or
      a kernel size list shorter than the spatial shape. */
  lemma SamePaddingFails(spatial: Shape, kernelSize: seq<int>, strides: seq<int>, op: Operation, dilationRate: TupleArg)
    requires StridesFit(spatial, strides)
    ensures SamePadding(spatial, kernelSize, strides, op, dilationRate).Err?
        <==> (op == Convolution && |spatial| > 0 && StandardizeTuple(dilationRate, |spatial|).Err?)
             || |kernelSize| < |spatial|
  {
  }

  /** The pooling branch computes exactly what the convolution branch computes
      with a dilation rate of 1, whatever dilation rate it is given; only the
      fill of an explicit pad differs. */
  lemma PoolingUsesUnitDilation(spatial: Shape, kernelSize: seq<int>, strides: seq<int>, dilationRate: TupleArg)
    requires StridesFit(spatial, strides)
    ensures var pool := SamePadding(spatial, kernelSize, strides, Pooling, dilationRate);
            var conv := SamePadding(spatial, kernelSize, strides, Convolution, Scalar(1));
            pool.Ok? == conv.Ok?
            && (pool.Ok? ==> match pool.value
                             case Unpadded(a) => conv.value == Unpadded(a)
                             case Padded(pad, fill) => conv.value == Padded(pad, Constant) && fill == Replicate)
  {
    var n := |spatial|;
    if n > 0 {
      assert StandardizeTuple(Scalar(1), n) == Ok(seq(n, _ => 1));
    }
  }

  /** When some dimension is asymmetric, the flattened vector, read by the
      engine's pad last dimension first, widens every spatial dimension i by
      exactly its own left + right, so every dimension gets the "same" output
      length. */
  lemma ExplicitPadIsSame(batch: nat, channels: nat, spatial: Shape, kernelSize: seq<int>,
                                             strides: seq<int>, op: Operation, dilationRate: TupleArg, i: nat)
    requires StridesFit(spatial, strides)
    requires SamePadding(spatial, kernelSize, strides, op, dilationRate).Ok?
    requires SamePadding(spatial, kernelSize, strides, op, dilationRate).value.Padded?
    requires i < |spatial|
    ensures Dilations(op, dilationRate, |spatial|).Ok?
    ensures var padded := PadShape([batch, channels] + spatial, SamePadding(spatial, kernelSize, strides, op, dilationRate).value.pad);
            StridedLength(padded[2 + i], kernelSize[i], strides[i], Dilations(op, dilationRate, |spatial|).value[i])
            == SameLength(spatial[i], strides[i])
  {
    var n := |spatial|;
    var d := Dilations(op, dilationRate, n).value;
    var p := Pairs(spatial, kernelSize, strides, d);
    assert SamePadding(spatial, kernelSize, strides, op, dilationRate).value.pad == Flatten(Reverse(p));
    FlatPairsAreSame(batch, channels, spatial, kernelSize, strides, d, i);
  }

  /** The pairs flattened last dimension first give every dimension the
      "same" output length. */
  lemma FlatPairsAreSame(batch: nat, channels: nat, spatial: Shape, kernelSize: seq<int>, strides: seq<int>,
                         d: seq<int>, i: nat)
    requires StridesFit(spatial, strides) && |kernelSize| >= |spatial| && |d| == |spatial|
    requires i < |spatial|
    ensures var padded := PadShape([batch, channels] + spatial, Flatten(Reverse(Pairs(spatial, kernelSize, strides, d))));
            StridedLength(padded[2 + i], kernelSize[i], strides[i], d[i]) == SameLength(spatial[i], strides[i])
  {
    var p := Pairs(spatial, kernelSize, strides, d);
    PadReversedPairs([batch, channels] + spatial, p, i);
    SamePaddingGivesSameLength(spatial[i], kernelSize[i], strides[i], d[i]);
  }

  /** The engine's pad, given pairs flattened last dimension first, widens
      spatial dimension i by pair i. */
  lemma PadReversedPairs(full: seq<int>, p: seq<(int, int)>, i: nat)
    requires |full| == |p| + 2 && i < |p|
    ensures PadShape(full, Flatten(Reverse(p)))[2 + i] == full[2 + i] + p[i].0 + p[i].1
  {
    var pad := Flatten(Reverse(p));
    var j := |p| - 1 - i;
    assert pad[2 * j] == Reverse(p)[j].0 == p[i].0;
    assert pad[2 * j + 1] == Reverse(p)[j].1 == p[i].1;
  }

  /** When every dimension is symmetric, the amounts come last dimension
      first, while the engine pads dimension i by amounts[i] on both sides.
      Dimension i still gets the "same" output length when its amount equals
      the one of its mirror dimension n-1-i (always so for one spatial
      dimension, and for the middle one of three). */
  lemma SymmetricPadIsSameWhenMirrored(spatial: Shape, kernelSize: seq<int>, strides: seq<int>,
                                                          op: Operation, dilationRate: TupleArg, i: nat)
    requires StridesFit(spatial, strides)
    requires SamePadding(spatial, kernelSize, strides, op, dilationRate).Ok?
    requires SamePadding(spatial, kernelSize, strides, op, dilationRate).value.Unpadded?
    requires i < |spatial|
    requires var d := Dilations(op, dilationRate, |spatial|).value;
             var p := Pairs(spatial, kernelSize, strides, d);
             p[|spatial| - 1 - i].0 == p[i].0
    ensures Dilations(op, dilationRate, |spatial|).Ok?
    ensures var amounts := SamePadding(spatial, kernelSize, strides, op, dilationRate).value.amounts;
            |amounts| == |spatial|
            && StridedLength(spatial[i] + 2 * amounts[i], kernelSize[i], strides[i], Dilations(op, dilationRate, |spatial|).value[i])
               == SameLength(spatial[i], strides[i])
  {
    var n := |spatial|;
    var d := Dilations(op, dilationRate, n).value;
    var p := Pairs(spatial, kernelSize, strides, d);
    var amounts := SamePadding(spatial, kernelSize, strides, op, dilationRate).value.amounts;
    assert amounts == Lefts(Reverse(p));
    assert AllSymmetric(p);
    assert amounts[i] == p[n - 1 - i].0 == p[i].0 == p[i].1;
    SamePaddingGivesSameLength(spatial[i], kernelSize[i], strides[i], d[i]);
  }

  /** Without the mirror condition the reversed amounts break "same": a 2-D
      pooling over a 5 x 3 input with window 5 x 5 and strides 1 x 3 needs
      (2, 2) on the first dimension and (1, 1) on the second, and hands the
      engine [1, 2], so the first dimension produces 3 outputs, not 5. */
  lemma ReversedAmountsBreakSame()
    ensures SamePadding([5, 3], [5, 5], [1, 3], Pooling, Scalar(1)) == Ok(Unpadded([1, 2]))
    ensures StridedLength(5 + 2 * 1, 5, 1, 1) == 3 && SameLength(5, 1) == 5
  {
    assert seq(2, _ => 1) == [1, 1];
    assert Dilations(Pooling, Scalar(1), 2) == Ok([1, 1]);
    var p := Pairs([5, 3], [5, 5], [1, 3], [1, 1]);
    assert p[0] == (2, 2) && p[1] == (1, 1);
    assert Reverse(p) == [(1, 1), (2, 2)];
    assert Lefts(Reverse(p)) == [1, 2];
  }

  /** The engine's check of a padding amount handed to a native pooling op
      (dilation 1): never negative, and at most half the window. The native
      convolution ops only refuse negative amounts. */
  predicate PoolAmountAccepted(amount: int, window: int) {
    0 <= amount && 2 * amount <= window
  }

  /** A dimension whose window covers its stride has a left amount the
      pooling ops accept. */
  lemma LeftAmountAccepted(inputLength: int, window: int, stride: int)
    requires stride >= 1 && window >= stride
    ensures PoolAmountAccepted(ComputePaddingLength(inputLength, window, stride, 1).0, window)
  {
    var p := ComputePaddingLength(inputLength, window, stride, 1);
    var m := (inputLength - 1) % stride;
    assert p.0 + p.1 == window - 1 - m;
    assert 0 <= m < stride;
  }

  /** In the symmetric branch every amount handed to the engine is
      nonnegative when each dilated kernel span d(k-1) is at least s - 1. */
  lemma SameAmountsNonnegative(spatial: Shape, kernelSize: seq<int>, strides: seq<int>, op: Operation, dilationRate: TupleArg)
    requires StridesFit(spatial, strides)
    requires SamePadding(spatial, kernelSize, strides, op, dilationRate).Ok?
    requires SamePadding(spatial, kernelSize, strides, op, dilationRate).value.Unpadded?
    requires Dilations(op, dilationRate, |spatial|).Ok? && |kernelSize| >= |spatial|
    requires forall i :: 0 <= i < |spatial| ==>
               Dilations(op, dilationRate, |spatial|).value[i] * (kernelSize[i] - 1) >= strides[i] - 1
    ensures var amounts := SamePadding(spatial, kernelSize, strides, op, dilationRate).value.amounts;
            forall j :: 0 <= j < |amounts| ==> amounts[j] >= 0
  {
    var n := |spatial|;
    var d := Dilations(op, dilationRate, n).value;
    var p := Pairs(spatial, kernelSize, strides, d);
    var amounts := SamePadding(spatial, kernelSize, strides, op, dilationRate).value.amounts;
    assert amounts == Lefts(Reverse(p));
    forall j | 0 <= j < |amounts|
      ensures amounts[j] >= 0
    {
      var i := n - 1 - j;
      assert amounts[j] == p[i].0;
      TotalPaddingNonnegative(spatial[i], kernelSize[i], strides[i], d[i]);
    }
  }

  /** What reaches the native op once "same" padding is resolved. */
  datatype Prepared = Prepared(prePad: ExplicitPad, padding: NativePadding)

  /** The caller's reading of `_apply_same_padding`'s two results. */
  function ResolveSame(spatial: Shape, kernelSize: seq<int>, strides: seq<int>, op: Operation, dilationRate: TupleArg): (r: Result<Prepared>)
    requires StridesFit(spatial, strides)
    ensures r.Ok? <==> SamePadding(spatial, kernelSize, strides, op, dilationRate).Ok?
    ensures r.Ok? ==> !r.value.padding.Mode? && (r.value.prePad.NoPad? <==> r.value.padding.Amounts?)
  {
    var sp :- SamePadding(spatial, kernelSize, strides, op, dilationRate);
    match sp
    case Unpadded(amounts) => Ok(Prepared(NoPad, Amounts(amounts)))
    case Padded(pad, fill) => Ok(Prepared(Pad(pad, fill), Zero))
  }
}
