/** Argument resolution of the convolution family: when "same" padding is
    applied by hand, the `groups` count and its divisibility check, the
    depthwise kernel reshape, the two calls of a separable convolution, and
    the dilation list of a transposed convolution. */
module Convolution {
  import opened Errors
  import opened Shapes
  import opened Layout
  import opened Padding

  /** What a convolution call hands to the engine. */
  datatype ConvCall = ConvCall(
    input: Shape,            // channels-first input, before any explicit pad
    prePad: ExplicitPad,     // explicit pad of that input, if any
    kernel: Shape,           // kernel in the engine's layout
    strides: seq<int>,
    padding: NativePadding,  // a mode string, the symmetric amounts, or 0
    dilation: TupleArg,      // passed to the engine as the caller gave it
    groups: nat,
    transposeOutput: bool)

  predicate SomeStrideNotOne(strides: seq<int>) {
    exists i :: 0 <= i < |strides| && strides[i] != 1
  }

  /** The native "same" mode only supports unit strides, so it is emulated
      exactly when some stride differs from 1. */
  predicate ManualPadding(padding: PaddingMode, strides: seq<int>)
    ensures ManualPadding(padding, strides) ==> padding == Same && |strides| >= 1
    ensures padding == Valid || (forall i :: 0 <= i < |strides| ==> strides[i] == 1) ==> !ManualPadding(padding, strides)
  {
    padding == Same && SomeStrideNotOne(strides)
  }

  /** The padding step of `conv`: "same" padding is applied by hand when
      the native mode cannot be used, and the mode is passed on otherwise. */
  function ConvPadding(input: Shape, k: Shape, stride: seq<int>, padding: PaddingMode, dilationRate: TupleArg)
    : (r: Result<Prepared>)
    requires StridesFit(Spatial(input), stride)
    ensures !ManualPadding(padding, stride) ==> r == Ok(Prepared(NoPad, Mode(padding)))
    ensures ManualPadding(padding, stride) ==>
              r == ResolveSame(Spatial(input), Spatial(k), stride, Convolution, dilationRate)
              && (r.Ok? ==> !r.value.padding.Mode?)
  {
    if ManualPadding(padding, stride)
    then ResolveSame(Spatial(input), Spatial(k), stride, Convolution, dilationRate)
    else Ok(Prepared(NoPad, Mode(padding)))
  }

  /** The `groups` count of `conv`: the channel count of the (channels-first)
      input over the kernel's input channels, which must divide it. An
      explicit pad only widens spatial axes, so the channel count is the
      one before padding. */
  function Groups(input: Shape, k: Shape): (r: Result<nat>)
    ensures r.Ok? <==> |input| >= 2 && |k| >= 2 && k[1] > 0 && input[1] % k[1] == 0
    ensures |input| < 2 || |k| < 2 ==> r == Err(IndexOutOfRange)
    ensures |input| >= 2 && |k| >= 2 && k[1] == 0 ==> r == Err(DivisionByZero)
    ensures r.Err? && |input| >= 2 && |k| >= 2 && k[1] > 0 ==> r.error == ChannelsNotDivisible
    ensures r.Ok? ==> r.value * k[1] == input[1]
  {
    if |input| < 2 || |k| < 2 then Err(IndexOutOfRange)
    else if k[1] == 0 then Err(DivisionByZero)
    else if input[1] % k[1] > 0 then Err(ChannelsNotDivisible)
    else Ok(input[1] / k[1])
  }

  /** `conv`. */
  function Conv(inputs: Shape, kernel: Shape, strides: TupleArg, padding: PaddingMode, format: DataFormat, dilationRate: TupleArg)
    : (r: Result<ConvCall>)
    ensures r.Ok? ==> 3 <= |inputs| <= 5 && StandardizeTuple(strides, |inputs| - 2).Ok?
    ensures r.Ok? ==> r.value.strides == StandardizeTuple(strides, |inputs| - 2).value
    ensures r.Ok? ==> r.value.input == (if format == ChannelsLast then ChannelsFirstOf(inputs) else inputs)
    ensures r.Ok? ==> r.value.transposeOutput == (format == ChannelsLast)
    ensures r.Ok? ==> r.value.kernel == TransposeConvKernel(kernel) && r.value.dilation == dilationRate
    ensures r.Ok? ==> |r.value.kernel| >= 2 && r.value.kernel[1] > 0
                      && r.value.groups * r.value.kernel[1] == r.value.input[1]
    ensures r.Ok? ==> StridesFit(Spatial(r.value.input), r.value.strides)
    ensures r.Ok? ==> ConvPadding(r.value.input, r.value.kernel, r.value.strides, padding, dilationRate)
                      == Ok(Prepared(r.value.prePad, r.value.padding))
  {
    var numSpatialDims := |inputs| - 2;
    var stride :- StandardizeTuple(strides, numSpatialDims);
    var input :- ToChannelsFirst(inputs, format);
    var k := TransposeConvKernel(kernel);
    var prepared :- ConvPadding(input, k, stride, padding, dilationRate);
    var groups :- Groups(input, k);
    if numSpatialDims < 1 || numSpatialDims > 3 then Err(RankNotSupported)
    else Ok(ConvCall(input, prepared.prePad, k, stride, prepared.padding, dilationRate, groups, format == ChannelsLast))
  }

  /** The padding `conv` hands to the engine is a mode string exactly when
      the padding is not applied by hand, and then there is no explicit pad. */
  lemma ConvManualPaddingIff(inputs: Shape, kernel: Shape, strides: TupleArg, padding: PaddingMode,
                             format: DataFormat, dilationRate: TupleArg)
    requires Conv(inputs, kernel, strides, padding, format, dilationRate).Ok?
    ensures var c := Conv(inputs, kernel, strides, padding, format, dilationRate).value;
            (c.padding.Mode? <==> !ManualPadding(padding, c.strides))
            && (c.padding.Mode? ==> c.padding == Mode(padding) && c.prePad == NoPad)
  {
  }

  /** The engine's check of the native padding of a convolution call: a
      list of amounts must not hold a negative one. */
  predicate ConvPaddingAccepted(c: ConvCall) {
    c.padding.Amounts? ==> forall i :: 0 <= i < |c.padding.amounts| ==> c.padding.amounts[i] >= 0
  }

  /** A symmetric negative total reaches the engine: length 3, kernel 1 and
      stride 3 give the pair (-1, -1), and the convolution is handed -1. */
  lemma ConvNegativeAmount()
    ensures Conv([1, 1, 3], [1, 1, 1], Scalar(3), Same, ChannelsFirst, Scalar(1))
            == Ok(ConvCall([1, 1, 3], NoPad, [1, 1, 1], [3], Amounts([-1]), Scalar(1), 1, false))
    ensures !ConvPaddingAccepted(ConvCall([1, 1, 3], NoPad, [1, 1, 1], [3], Amounts([-1]), Scalar(1), 1, false))
  {
    NegativeConvCall();
    var c := ConvCall([1, 1, 3], NoPad, [1, 1, 1], [3], Amounts([-1]), Scalar(1), 1, false);
    assert c.padding.amounts[0] < 0;
  }

  lemma NegativeConvCall()
    ensures Conv([1, 1, 3], [1, 1, 1], Scalar(3), Same, ChannelsFirst, Scalar(1))
            == Ok(ConvCall([1, 1, 3], NoPad, [1, 1, 1], [3], Amounts([-1]), Scalar(1), 1, false))
  {
    assert seq(1, _ => 3) == [3];
    assert StandardizeTuple(Scalar(3), 1) == Ok([3]);
    assert TransposeConvKernel([1, 1, 1]) == [1, 1, 1];
    assert Spatial([1, 1, 3]) == [3] && Spatial([1, 1, 1]) == [1];
    assert ManualPadding(Same, [3]) by { assert [3][0] != 1; }
    NegativeConvAmount();
  }

  /** Length 3, kernel 1 and stride 3 give the pair (-1, -1). */
  lemma NegativeConvAmount()
    ensures ResolveSame([3], [1], [3], Convolution, Scalar(1)) == Ok(Prepared(NoPad, Amounts([-1])))
  {
    assert seq(1, _ => 1) == [1];
    assert StandardizeTuple(Scalar(1), 1) == Ok([1]);
    var p := Pairs([3], [1], [3], [1]);
    assert p[0] == (-1, -1);
    assert Reverse(p) == p;
    assert Lefts(p) == [-1];
  }

  /** The channel axis of the caller's layout. */
  function Channels(inputs: Shape, format: DataFormat): nat
    requires |inputs| >= 2
  {
    if format == ChannelsLast then inputs[|inputs| - 1] else inputs[1]
  }

  /** Arguments that pass every check of `conv` other than the divisibility
      one: a supported rank, a kernel of the same rank with a nonzero input
      channel count, and standardisable strides and dilation rate. */
  predicate ConvArgsValid(inputs: Shape, kernel: Shape, strides: TupleArg, dilationRate: TupleArg) {
    3 <= |inputs| <= 5 && |kernel| == |inputs| && kernel[|kernel| - 2] > 0
    && StandardizeTuple(strides, |inputs| - 2).Ok? && StandardizeTuple(dilationRate, |inputs| - 2).Ok?
  }

  /** `conv` fails exactly when the channel count is not a multiple of the
      kernel's input channels, and otherwise uses their quotient as `groups`. */
  lemma ConvFailsIffNotDivisible(inputs: Shape, kernel: Shape, strides: TupleArg, padding: PaddingMode,
                                 format: DataFormat, dilationRate: TupleArg)
    requires ConvArgsValid(inputs, kernel, strides, dilationRate)
    ensures var r := Conv(inputs, kernel, strides, padding, format, dilationRate);
            var channels := Channels(inputs, format);
            var kernelIn := kernel[|kernel| - 2];
            (r.Err? <==> channels % kernelIn != 0)
            && (r.Ok? ==> r.value.groups == channels / kernelIn)
  {
    var n := |inputs| - 2;
    var input := ToChannelsFirst(inputs, format).value;
    var k := TransposeConvKernel(kernel);
    assert k[1] == kernel[|kernel| - 2];
    assert input[1] == Channels(inputs, format);
    var stride := StandardizeTuple(strides, n).value;
    assert StridesFit(Spatial(input), stride);
    SamePaddingFails(Spatial(input), Spatial(k), stride, Convolution, dilationRate);
    assert ConvPadding(input, k, stride, padding, dilationRate).Ok?;
  }

  /** The number of elements of a tensor of the given shape. */
  function Product(s: Shape): nat {
    if s == [] then 1 else s[0] * Product(s[1..])
  }

  lemma {:induction false} ProductAppend(a: Shape, b: Shape)
    ensures Product(a + b) == Product(a) * Product(b)
  {
    if a != [] {
      assert (a + b)[0] == a[0] && (a + b)[1..] == a[1..] + b;
      ProductAppend(a[1..], b);
      calc {
        Product(a + b);
        a[0] * Product(a[1..] + b);
        a[0] * (Product(a[1..]) * Product(b));
        { MulAssoc(a[0], Product(a[1..]), Product(b)); }
        (a[0] * Product(a[1..])) * Product(b);
      }
    } else {
      assert a + b == b;
    }
  }

  lemma MulAssoc(x: int, y: int, z: int)
    ensures x * (y * z) == (x * y) * z
  {
  }

  lemma ProductPair(x: nat, y: nat)
    ensures Product([x, y]) == x * y
  {
    assert [x, y][1..] == [y];
    assert [y][1..] == [];
    assert Product([y]) == y * Product([]) == y;
  }

  /** The reshape of `depthwise_conv`: the last two axes (in, multiplier)
      become (1, in * multiplier). */
  function DepthwiseKernel(kernel: Shape): (r: Result<Shape>)
    ensures r.Ok? <==> |kernel| >= 2
    ensures r.Ok? ==> |r.value| == |kernel| && r.value[..|kernel| - 2] == kernel[..|kernel| - 2]
    ensures r.Ok? ==> r.value[|kernel| - 2] == 1
    ensures r.Ok? ==> r.value[|kernel| - 1] == kernel[|kernel| - 2] * kernel[|kernel| - 1]
  {
    if |kernel| < 2 then Err(IndexOutOfRange)
    else Ok(kernel[..|kernel| - 2] + [1, kernel[|kernel| - 2] * kernel[|kernel| - 1]])
  }

  /** The reshape keeps the number of elements, as the engine's reshape demands. */
  lemma DepthwiseKernelKeepsSize(kernel: Shape)
    requires |kernel| >= 2
    ensures Product(DepthwiseKernel(kernel).value) == Product(kernel)
  {
    var n := |kernel|;
    var head, x, y := kernel[..n - 2], kernel[n - 2], kernel[n - 1];
    SplitLastTwo(kernel);
    assert DepthwiseKernel(kernel).value == head + [1, x * y];
    ProductMergeLastTwo(head, x, y);
  }

  /** Merging the last two axes into (1, x * y) keeps the product. */
  lemma ProductMergeLastTwo(head: Shape, x: nat, y: nat)
    ensures Product(head + [1, x * y]) == Product(head + [x, y])
  {
    ProductWithPair(head, x, y);
    ProductWithPair(head, 1, x * y);
  }

  lemma SplitLastTwo(s: Shape)
    requires |s| >= 2
    ensures s == s[..|s| - 2] + [s[|s| - 2], s[|s| - 1]]
  {
  }

  lemma ProductWithPair(head: Shape, x: nat, y: nat)
    ensures Product(head + [x, y]) == Product(head) * (x * y)
  {
    ProductAppend(head, [x, y]);
    ProductPair(x, y);
  }

  /** `depthwise_conv`. */
  function DepthwiseConv(inputs: Shape, kernel: Shape, strides: TupleArg, padding: PaddingMode, format: DataFormat, dilationRate: TupleArg)
    : (r: Result<ConvCall>)
    ensures |kernel| < 2 ==> r == Err(IndexOutOfRange)
    ensures |kernel| >= 2 ==> r == Conv(inputs, DepthwiseKernel(kernel).value, strides, padding, format, dilationRate)
  {
    var k :- DepthwiseKernel(kernel);
    Conv(inputs, k, strides, padding, format, dilationRate)
  }

  /** With a kernel of the input's rank the reshaped kernel has one input
      channel, so the divisibility check always passes and every channel is
      its own group. */
  lemma DepthwiseGroupsAreChannels(inputs: Shape, kernel: Shape, strides: TupleArg, padding: PaddingMode,
                                   format: DataFormat, dilationRate: TupleArg)
    requires 3 <= |inputs| <= 5 && |kernel| == |inputs|
    requires StandardizeTuple(strides, |inputs| - 2).Ok? && StandardizeTuple(dilationRate, |inputs| - 2).Ok?
    ensures var r := DepthwiseConv(inputs, kernel, strides, padding, format, dilationRate);
            r.Ok? && r.value.groups == Channels(inputs, format) && r.value.kernel[1] == 1
  {
    var k := DepthwiseKernel(kernel).value;
    assert k[|k| - 2] == 1;
    ConvFailsIffNotDivisible(inputs, k, strides, padding, format, dilationRate);
  }

  /** `separable_conv`: a depthwise call, then a pointwise `conv` with unit
      strides and "valid" padding over the depthwise result, whose shape (in
      the caller's layout) the engine computes and is given here. */
  function SeparableConv(inputs: Shape, depthwiseKernel: Shape, pointwiseKernel: Shape, strides: TupleArg,
                         padding: PaddingMode, format: DataFormat, dilationRate: TupleArg, depthwiseOutput: Shape)
    : (r: Result<(ConvCall, ConvCall)>)
    ensures r.Ok? <==> DepthwiseConv(inputs, depthwiseKernel, strides, padding, format, dilationRate).Ok?
                       && Conv(depthwiseOutput, pointwiseKernel, Scalar(1), Valid, format, dilationRate).Ok?
    ensures r.Ok? ==> r.value.0 == DepthwiseConv(inputs, depthwiseKernel, strides, padding, format, dilationRate).value
    ensures r.Ok? ==> r.value.1 == Conv(depthwiseOutput, pointwiseKernel, Scalar(1), Valid, format, dilationRate).value
  {
    var depthwise :- DepthwiseConv(inputs, depthwiseKernel, strides, padding, format, dilationRate);
    var pointwise :- Conv(depthwiseOutput, pointwiseKernel, Scalar(1), Valid, format, dilationRate);
    Ok((depthwise, pointwise))
  }

  /** The pointwise call of `separable_conv` uses unit strides and the
      native "valid" mode, with no explicit pad. */
  lemma SeparablePointwiseIsUnitValid(inputs: Shape, depthwiseKernel: Shape, pointwiseKernel: Shape, strides: TupleArg,
                                      padding: PaddingMode, format: DataFormat, dilationRate: TupleArg, depthwiseOutput: Shape)
    requires SeparableConv(inputs, depthwiseKernel, pointwiseKernel, strides, padding, format, dilationRate, depthwiseOutput).Ok?
    ensures var pointwise := SeparableConv(inputs, depthwiseKernel, pointwiseKernel, strides, padding, format,
                                           dilationRate, depthwiseOutput).value.1;
            (forall i :: 0 <= i < |pointwise.strides| ==> pointwise.strides[i] == 1)
            && pointwise.padding == Mode(Valid) && pointwise.prePad == NoPad
  {
    var c := Conv(depthwiseOutput, pointwiseKernel, Scalar(1), Valid, format, dilationRate).value;
    assert !ManualPadding(Valid, c.strides);
  }

  /** What a transposed convolution hands to the engine, apart from the
      padding arguments of the shared helper. */
  datatype ConvTransposeCall = ConvTransposeCall(
    input: Shape, kernel: Shape, strides: seq<int>, dilation: seq<int>, transposeOutput: bool)

  /** `conv_transpose`, without its padding helper: the layout transposes,
      the dilation rate as a list over the kernel's spatial axes, and the rank
      check. */
  function ConvTranspose(inputs: Shape, kernel: Shape, strides: TupleArg, format: DataFormat, dilationRate: TupleArg)
    : (r: Result<ConvTransposeCall>)
    ensures r.Ok? <==> 3 <= |inputs| <= 5 && StandardizeTuple(strides, |inputs| - 2).Ok?
    ensures r.Ok? ==> r.value.input == (if format == ChannelsLast then ChannelsFirstOf(inputs) else inputs)
    ensures r.Ok? ==> r.value.kernel == TransposeConvKernel(kernel)
    ensures r.Ok? && dilationRate.Scalar? ==>
              |r.value.dilation| == |Spatial(r.value.kernel)|
              && forall i :: 0 <= i < |r.value.dilation| ==> r.value.dilation[i] == dilationRate.v
    ensures r.Ok? && dilationRate.Tuple? ==> r.value.dilation == dilationRate.vs
  {
    var numSpatialDims := |inputs| - 2;
    var stride :- StandardizeTuple(strides, numSpatialDims);
    var input :- ToChannelsFirst(inputs, format);
    var k := TransposeConvKernel(kernel);
    var kernelSpatialShape := Spatial(k);
    var dilation := match dilationRate
                    case Scalar(d) => seq(|kernelSpatialShape|, _ => d)
                    case Tuple(ds) => ds;
    if numSpatialDims < 1 || numSpatialDims > 3 then Err(RankNotSupported)
    else Ok(ConvTransposeCall(input, k, stride, dilation, format == ChannelsLast))
  }
}
