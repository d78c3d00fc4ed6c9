/** Argument resolution of `max_pool` and `average_pool`: tuple
    standardisation, the default strides, the layout transpose and the
    padding handed to the engine. The pooled values are the engine's. */
module Pooling {
  import opened Errors
  import opened Shapes
  import opened Layout
  import opened Padding

  /** What a pooling call hands to the engine. */
  datatype PoolCall = PoolCall(
    input: Shape,            // channels-first input, before any explicit pad
    prePad: ExplicitPad,     // explicit pad of that input, if any
    window: seq<int>,        // kernel_size of the native op
    strides: seq<int>,       // stride of the native op
    padding: NativePadding,  // padding of the native op
    transposeOutput: bool)   // whether the result goes back to channels-last

  /** Strides default to the standardised pool size. */
  function ResolveStrides(window: seq<int>, strides: Option<TupleArg>, n: int): (r: Result<seq<int>>)
    requires AllPositive(window)
    ensures r.Ok? ==> AllPositive(r.value)
    ensures strides.None? ==> r == Ok(window)
    ensures strides.Some? ==> r == StandardizeTuple(strides.value, n)
  {
    if strides.None? then Ok(window) else StandardizeTuple(strides.value, n)
  }

  /** The arguments a pooling call accepts: three to five axes and
      standardisable pool size and strides. */
  predicate PoolArgsValid(inputs: Shape, poolSize: TupleArg, strides: Option<TupleArg>) {
    3 <= |inputs| <= 5
    && StandardizeTuple(poolSize, |inputs| - 2).Ok?
    && (strides.Some? ==> StandardizeTuple(strides.value, |inputs| - 2).Ok?)
  }

  /** `max_pool`. */
  function MaxPool(inputs: Shape, poolSize: TupleArg, strides: Option<TupleArg>, padding: PaddingMode, format: DataFormat)
    : (r: Result<PoolCall>)
    ensures r.Ok? <==> PoolArgsValid(inputs, poolSize, strides)
    ensures r.Ok? ==> r.value.window == StandardizeTuple(poolSize, |inputs| - 2).value
    ensures r.Ok? ==> r.value.strides == (if strides.None? then r.value.window else StandardizeTuple(strides.value, |inputs| - 2).value)
    ensures r.Ok? ==> r.value.input == (if format == ChannelsLast then ChannelsFirstOf(inputs) else inputs)
    ensures r.Ok? ==> r.value.transposeOutput == (format == ChannelsLast)
    ensures r.Ok? && padding == Valid ==> r.value.prePad == NoPad && r.value.padding == Zero
    ensures r.Ok? && padding == Same ==>
              StridesFit(Spatial(r.value.input), r.value.strides)
              && ResolveSame(Spatial(r.value.input), r.value.window, r.value.strides, Pooling, Scalar(1))
                 == Ok(Prepared(r.value.prePad, r.value.padding))
  {
    var numSpatialDims := |inputs| - 2;
    var window :- StandardizeTuple(poolSize, numSpatialDims);
    var stride :- ResolveStrides(window, strides, numSpatialDims);
    var input :- ToChannelsFirst(inputs, format);
    var prepared :- if padding == Same
                    then ResolveSame(Spatial(input), window, stride, Pooling, Scalar(1))
                    else Ok(Prepared(NoPad, Zero));
    if numSpatialDims < 1 || numSpatialDims > 3 then Err(RankNotSupported)
    else Ok(PoolCall(input, prepared.prePad, window, stride, prepared.padding, format == ChannelsLast))
  }

  /** Number of dimensions whose (left, right) pair is uneven. */
  function NumUneven(p: seq<(int, int)>): (k: nat)
    ensures k <= |p|
  {
    if p == [] then 0
    else NumUneven(p[..|p| - 1]) + (if p[|p| - 1].0 != p[|p| - 1].1 then 1 else 0)
  }

  /** No pair is uneven exactly when all the pairs are symmetric. */
  lemma {:induction false} NoUnevenIffSymmetric(p: seq<(int, int)>)
    ensures NumUneven(p) == 0 <==> AllSymmetric(p)
  {
    if p != [] {
      var init := p[..|p| - 1];
      NoUnevenIffSymmetric(init);
      assert forall j :: 0 <= j < |init| ==> init[j] == p[j];
    }
  }

  /** k copies of [0, 1] one after the other. */
  function ZeroOnes(k: nat): (r: seq<int>)
    ensures |r| == 2 * k
  {
    if k == 0 then [] else [0, 1] + ZeroOnes(k - 1)
  }

  /** The "same" branch loop of `average_pool`: each dimension's left amount
      is appended, and each uneven dimension prepends one [0, 1]. */
  method AveragePoolPadding(spatial: Shape, window: seq<int>, strides: seq<int>)
    returns (values: seq<int>, unevenPadding: seq<int>)
    requires StridesFit(spatial, strides) && |window| == |spatial|
    ensures var p := Pairs(spatial, window, strides, seq(|spatial|, _ => 1));
            values == Lefts(p) && unevenPadding == ZeroOnes(NumUneven(p))
  {
    values := [];
    unevenPadding := [];
    ghost var p := Pairs(spatial, window, strides, seq(|spatial|, _ => 1));
    for i := 0 to |spatial|
      invariant values == Lefts(p[..i])
      invariant unevenPadding == ZeroOnes(NumUneven(p[..i]))
    {
      var paddingSize := ComputePaddingLength(spatial[i], window[i], strides[i], 1);
      assert paddingSize == p[i];
      assert p[..i + 1][..i] == p[..i];
      values := values + [paddingSize.0];
      if paddingSize.0 != paddingSize.1 {
        unevenPadding := [0, 1] + unevenPadding;
      }
    }
    assert p[..|spatial|] == p;
  }

  /** `average_pool`. In "same" mode the engine gets each dimension's (shorter)
      left amount in dimension order, and every uneven dimension prepends one
      [0, 1] to the vector of an explicit zero pad. */
  method AveragePool(inputs: Shape, poolSize: TupleArg, strides: Option<TupleArg>, padding: PaddingMode, format: DataFormat)
    returns (r: Result<PoolCall>)
    ensures r.Ok? <==> PoolArgsValid(inputs, poolSize, strides)
    ensures r.Ok? ==> r.value.window == StandardizeTuple(poolSize, |inputs| - 2).value
    ensures r.Ok? ==> r.value.strides == (if strides.None? then r.value.window else StandardizeTuple(strides.value, |inputs| - 2).value)
    ensures r.Ok? ==> r.value.input == (if format == ChannelsLast then ChannelsFirstOf(inputs) else inputs)
    ensures r.Ok? ==> r.value.transposeOutput == (format == ChannelsLast)
    ensures r.Ok? && padding == Valid ==> r.value.prePad == NoPad && r.value.padding == Zero
    ensures r.Ok? && padding == Same ==>
              var spatial := Spatial(r.value.input);
              StridesFit(spatial, r.value.strides) && |r.value.window| == |spatial|
              && var p := Pairs(spatial, r.value.window, r.value.strides, seq(|spatial|, _ => 1));
                 r.value.padding == Amounts(Lefts(p))
                 && r.value.prePad == (if NumUneven(p) > 0 then Pad(ZeroOnes(NumUneven(p)), Constant) else NoPad)
  {
    var numSpatialDims := |inputs| - 2;
    var window := StandardizeTuple(poolSize, numSpatialDims);
    if window.Err? { return Err(window.error); }
    var stride := ResolveStrides(window.value, strides, numSpatialDims);
    if stride.Err? { return Err(stride.error); }
    var input := ToChannelsFirst(inputs, format);
    if input.Err? { return Err(input.error); }
    var paddingValue := Zero;
    var prePad := NoPad;
    if padding == Same {
      var spatialShape := Spatial(input.value);
      numSpatialDims := |spatialShape|;
      var values, unevenPadding := AveragePoolPadding(spatialShape, window.value, stride.value);
      paddingValue := Amounts(values);
      if |unevenPadding| > 0 {
        prePad := Pad(unevenPadding, Constant);
      }
    }
    if numSpatialDims < 1 || numSpatialDims > 3 {
      return Err(RankNotSupported);
    }
    return Ok(PoolCall(input.value, prePad, window.value, stride.value, paddingValue, format == ChannelsLast));
  }

  /** The shape facts the engine relies on when it runs a pooling call. */
  predicate WellFormedCall(c: PoolCall) {
    |c.input| == |c.window| + 2 && |c.strides| == |c.window| && AllPositive(c.strides)
    && (c.padding.Amounts? ==> |c.padding.amounts| == |c.window|)
    && (c.prePad.Pad? ==> |c.prePad.amounts| % 2 == 0 && |c.prePad.amounts| / 2 <= |c.input|)
  }

  /** The engine's output length along spatial dimension i of a pooling call:
      the explicit pad first, then the native padding on both sides. */
  function PooledLength(c: PoolCall, i: nat): int
    requires WellFormedCall(c) && i < |c.window|
  {
    var padded := if c.prePad.Pad? then PadShape(c.input, c.prePad.amounts) else c.input;
    var amount := if c.padding.Amounts? then c.padding.amounts[i] else 0;
    StridedLength(padded[2 + i] + 2 * amount, c.window[i], c.strides[i], 1)
  }

  /** One-dimensional max pooling in "same" mode produces ceil(L / s) outputs,
      whichever branch `_apply_same_padding` takes. */
  lemma MaxPoolSameInOneDimension(inputs: Shape, poolSize: TupleArg, strides: Option<TupleArg>, format: DataFormat)
    requires MaxPool(inputs, poolSize, strides, Same, format).Ok?
    requires |inputs| == 3
    ensures var c := MaxPool(inputs, poolSize, strides, Same, format).value;
            WellFormedCall(c) && PooledLength(c, 0) == SameLength(c.input[2], c.strides[0])
  {
    var c := MaxPool(inputs, poolSize, strides, Same, format).value;
    SameCallInOneDimension(c);
  }

  /** A one-dimensional call prepared by the "same" resolution of pooling
      has the "same" output length. */
  lemma SameCallInOneDimension(c: PoolCall)
    requires |c.input| == 3 && |c.window| == 1
    requires StridesFit(Spatial(c.input), c.strides)
    requires ResolveSame(Spatial(c.input), c.window, c.strides, Pooling, Scalar(1)) == Ok(Prepared(c.prePad, c.padding))
    ensures WellFormedCall(c) && PooledLength(c, 0) == SameLength(c.input[2], c.strides[0])
  {
    var spatial := Spatial(c.input);
    assert spatial == [c.input[2]];
    assert c.input == [c.input[0], c.input[1]] + spatial;
    var sp := SamePadding(spatial, c.window, c.strides, Pooling, Scalar(1));
    assert Dilations(Pooling, Scalar(1), 1).value[0] == 1;
    match sp.value
    case Unpadded(a) =>
      SymmetricPadIsSameWhenMirrored(spatial, c.window, c.strides, Pooling, Scalar(1), 0);
    case Padded(pad, fill) =>
      ExplicitPadIsSame(c.input[0], c.input[1], spatial, c.window, c.strides, Pooling, Scalar(1), 0);
  }

  /** The reversed amounts end to end: a channels-first 5 x 3 max pooling with
      window 5 x 5 and strides 1 x 3 in "same" mode produces 3 rows, not 5. */
  lemma MaxPoolReversedAmounts()
    ensures MaxPool([1, 1, 5, 3], Tuple([5, 5]), Some(Tuple([1, 3])), Same, ChannelsFirst).Ok?
    ensures var c := MaxPool([1, 1, 5, 3], Tuple([5, 5]), Some(Tuple([1, 3])), Same, ChannelsFirst).value;
            WellFormedCall(c) && PoolPaddingAccepted(c) && PooledLength(c, 0) == 3 && SameLength(5, 1) == 5
  {
    assert Spatial([1, 1, 5, 3]) == [5, 3];
    ReversedAmountsBreakSame();
  }

  lemma {:induction false} ZeroOnesAt(k: nat, j: nat)
    requires j < k
    ensures ZeroOnes(k)[2 * j] == 0 && ZeroOnes(k)[2 * j + 1] == 1
  {
    if j > 0 {
      ZeroOnesAt(k - 1, j - 1);
      assert ZeroOnes(k)[2 * j] == ZeroOnes(k - 1)[2 * (j - 1)];
      assert ZeroOnes(k)[2 * j + 1] == ZeroOnes(k - 1)[2 * (j - 1) + 1];
    }
  }

  /** The explicit pad of `average_pool` widens the LAST k dimensions by one
      each, whichever dimensions were uneven. */
  lemma UnevenPadWidensTrailingDims(shape: seq<int>, k: nat, i: nat)
    requires k <= |shape| && i < |shape|
    ensures PadShape(shape, ZeroOnes(k))[i] == shape[i] + (if i >= |shape| - k then 1 else 0)
  {
    var j := |shape| - 1 - i;
    if j < k {
      ZeroOnesAt(k, j);
    }
  }

  /** `average_pool` gets "same" lengths when the uneven dimensions
      are the trailing ones (in particular when none or all are uneven): then
      the one-element pad lands on each uneven dimension and the shorter left
      amount on both sides adds up to left + right. */
  lemma AveragePoolSameWhenUnevenTrailing(batch: nat, channels: nat, spatial: Shape,
                                                             window: seq<int>, strides: seq<int>, i: nat)
    requires StridesFit(spatial, strides) && |window| == |spatial|
    requires var p := Pairs(spatial, window, strides, seq(|spatial|, _ => 1));
             forall j :: 0 <= j < |spatial| ==> (p[j].0 != p[j].1 <==> j >= |spatial| - NumUneven(p))
    requires i < |spatial|
    ensures var p := Pairs(spatial, window, strides, seq(|spatial|, _ => 1));
            var padded := PadShape([batch, channels] + spatial, ZeroOnes(NumUneven(p)));
            StridedLength(padded[2 + i] + 2 * p[i].0, window[i], strides[i], 1) == SameLength(spatial[i], strides[i])
  {
    var n := |spatial|;
    var p := Pairs(spatial, window, strides, seq(n, _ => 1));
    var full: seq<int> := [batch, channels] + spatial;
    UnevenPadWidensTrailingDims(full, NumUneven(p), 2 + i);
    assert p[i] == ComputePaddingLength(spatial[i], window[i], strides[i], 1);
    SamePaddingGivesSameLength(spatial[i], window[i], strides[i], 1);
  }

  /** Otherwise the pad lands on the wrong dimension: for a 2 x 3 input with
      window 2 x 3 and stride 1 only the first dimension is uneven, (0, 1),
      but the last one is widened, so the result is 1 x 4 instead of 2 x 3. */
  lemma UnevenPadMisplaced()
    ensures var p := Pairs([2, 3], [2, 3], [1, 1], [1, 1]);
            p == [(0, 1), (1, 1)] && NumUneven(p) == 1
            && PadShape([1, 1, 2, 3], ZeroOnes(1)) == [1, 1, 2, 4]
            && StridedLength(2 + 2 * 0, 2, 1, 1) == 1
            && StridedLength(4 + 2 * 1, 3, 1, 1) == 4
  {
    var p := Pairs([2, 3], [2, 3], [1, 1], [1, 1]);
    assert p[0] == (0, 1) && p[1] == (1, 1);
    assert p[..1] == [(0, 1)] && p[..1][..0] == [];
    assert PadShape([1, 1, 2, 3], [0, 1])[3] == 4;
  }

  /** The engine's check of the native padding of a pooling call: a list of
      amounts must pass `PoolAmountAccepted` dimension by dimension. */
  predicate PoolPaddingAccepted(c: PoolCall) {
    c.padding.Amounts? ==>
      |c.padding.amounts| == |c.window|
      && forall i :: 0 <= i < |c.window| ==> PoolAmountAccepted(c.padding.amounts[i], c.window[i])
  }

  /** A negative symmetric total reaches the engine: length 3, window 1,
      stride 3 give the pair (-1, -1), and max pooling is handed -1. */
  lemma MaxPoolNegativeAmount()
    ensures MaxPool([1, 1, 3], Scalar(1), Some(Scalar(3)), Same, ChannelsFirst)
            == Ok(PoolCall([1, 1, 3], NoPad, [1], [3], Amounts([-1]), false))
    ensures !PoolPaddingAccepted(PoolCall([1, 1, 3], NoPad, [1], [3], Amounts([-1]), false))
  {
    assert Spatial([1, 1, 3]) == [3];
    assert seq(1, _ => 1) == [1];
    assert StandardizeTuple(Scalar(1), 1) == Ok([1]);
    assert seq(1, _ => 3) == [3];
    assert StandardizeTuple(Scalar(3), 1) == Ok([3]);
    var p := Pairs([3], [1], [3], [1]);
    assert p[0] == (-1, -1);
    assert Reverse(p) == p;
    assert Lefts(p) == [-1];
  }

  /** The reversed amounts can also make the engine refuse the call: for a
      5 x 1 input with window 5 x 1 and unit strides the pairs are (2, 2) and
      (0, 0), the engine is handed [0, 2], and 2 is more than half of the
      window 1 it lands on, while [2, 0] in dimension order would pass. */
  lemma MaxPoolReversedAmountTooWide()
    ensures MaxPool([1, 1, 5, 1], Tuple([5, 1]), Some(Tuple([1, 1])), Same, ChannelsFirst)
            == Ok(PoolCall([1, 1, 5, 1], NoPad, [5, 1], [1, 1], Amounts([0, 2]), false))
    ensures !PoolPaddingAccepted(PoolCall([1, 1, 5, 1], NoPad, [5, 1], [1, 1], Amounts([0, 2]), false))
    ensures PoolPaddingAccepted(PoolCall([1, 1, 5, 1], NoPad, [5, 1], [1, 1], Amounts([2, 0]), false))
  {
    ReversedMaxPoolCall();
    ReversedAmountsRefused();
  }

  lemma ReversedAmountsRefused()
    ensures !PoolPaddingAccepted(PoolCall([1, 1, 5, 1], NoPad, [5, 1], [1, 1], Amounts([0, 2]), false))
    ensures PoolPaddingAccepted(PoolCall([1, 1, 5, 1], NoPad, [5, 1], [1, 1], Amounts([2, 0]), false))
  {
    var bad := PoolCall([1, 1, 5, 1], NoPad, [5, 1], [1, 1], Amounts([0, 2]), false);
    assert !PoolAmountAccepted(bad.padding.amounts[1], bad.window[1]);
  }

  lemma ReversedMaxPoolCall()
    ensures MaxPool([1, 1, 5, 1], Tuple([5, 1]), Some(Tuple([1, 1])), Same, ChannelsFirst)
            == Ok(PoolCall([1, 1, 5, 1], NoPad, [5, 1], [1, 1], Amounts([0, 2]), false))
  {
    assert Spatial([1, 1, 5, 1]) == [5, 1];
    ReversedSameAmounts();
  }

  /** "Same" pooling of a 5 x 1 input with a 5 x 1 window and unit strides: the pair (2, 2) of the first dimension lands second. */
  lemma ReversedSameAmounts()
    ensures ResolveSame([5, 1], [5, 1], [1, 1], Pooling, Scalar(1)) == Ok(Prepared(NoPad, Amounts([0, 2])))
  {
    assert seq(2, _ => 1) == [1, 1];
    var p := Pairs([5, 1], [5, 1], [1, 1], [1, 1]);
    assert p[0] == (2, 2) && p[1] == (0, 0);
    assert Reverse(p) == [(0, 0), (2, 2)];
    assert Lefts(Reverse(p)) == [0, 2];
  }

  /** One-dimensional max pooling in "same" mode is accepted by the engine
      whenever the window covers the stride. */
  lemma MaxPoolSameAcceptedInOneDimension(inputs: Shape, poolSize: TupleArg, strides: Option<TupleArg>, format: DataFormat)
    requires MaxPool(inputs, poolSize, strides, Same, format).Ok?
    requires |inputs| == 3
    requires var c := MaxPool(inputs, poolSize, strides, Same, format).value;
             |c.window| == 1 && c.window[0] >= c.strides[0]
    ensures PoolPaddingAccepted(MaxPool(inputs, poolSize, strides, Same, format).value)
  {
    var c := MaxPool(inputs, poolSize, strides, Same, format).value;
    var spatial := Spatial(c.input);
    assert spatial == [c.input[2]];
    assert Dilations(Pooling, Scalar(1), 1).value == [1];
    var p := Pairs(spatial, c.window, c.strides, [1]);
    var sp := SamePadding(spatial, c.window, c.strides, Pooling, Scalar(1));
    if sp.value.Unpadded? {
      assert c.padding.amounts == Lefts(Reverse(p));
      assert Lefts(Reverse(p))[0] == p[0].0;
      LeftAmountAccepted(spatial[0], c.window[0], c.strides[0]);
    }
  }

  /** `average_pool` hands the left amounts in dimension order, so its native
      padding is accepted whenever every window covers its stride. */
  lemma AveragePoolAmountsAccepted(spatial: Shape, window: seq<int>, strides: seq<int>)
    requires StridesFit(spatial, strides) && |window| == |spatial|
    requires forall i :: 0 <= i < |spatial| ==> window[i] >= strides[i]
    ensures var amounts := Lefts(Pairs(spatial, window, strides, seq(|spatial|, _ => 1)));
            forall i :: 0 <= i < |spatial| ==> PoolAmountAccepted(amounts[i], window[i])
  {
    var p := Pairs(spatial, window, strides, seq(|spatial|, _ => 1));
    forall i | 0 <= i < |spatial|
      ensures PoolAmountAccepted(Lefts(p)[i], window[i])
    {
      assert p[i] == ComputePaddingLength(spatial[i], window[i], strides[i], 1);
      LeftAmountAccepted(spatial[i], window[i], strides[i]);
    }
  }

  /** A negative total reaches `average_pool`'s native padding too: length 2,
      window 1 and stride 2 give the left amount -1. */
  lemma AveragePoolNegativeAmount()
    ensures Lefts(Pairs([2], [1], [2], seq(1, _ => 1))) == [-1]
    ensures !PoolAmountAccepted(-1, 1)
  {
    assert seq(1, _ => 1) == [1];
    assert Pairs([2], [1], [2], [1])[0] == (-1, 0);
  }
}
