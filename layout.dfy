/** Conversions between the library's channels-last layout and the engine's
    channels-first layout, and between the library's and the engine's
    convolution-kernel layouts. Each is one fixed permutation per rank. */
module Layout {
  import opened Errors
  import opened Shapes

  /** Reference layouts: channels-last (batch, spatial..., channels) against
      channels-first (batch, channels, spatial...). */
  function ChannelsFirstOf(s: Shape): Shape
    requires |s| >= 2
  {
    [s[0], s[|s| - 1]] + s[1..|s| - 1]
  }

  function ChannelsLastOf(s: Shape): Shape
    requires |s| >= 2
  {
    [s[0]] + s[2..] + [s[1]]
  }

  /** Reference kernel layouts: (spatial..., in, out) against (out, in, spatial...). */
  function EngineKernelOf(k: Shape): Shape
    requires |k| >= 2
  {
    [k[|k| - 1], k[|k| - 2]] + k[..|k| - 2]
  }

  /** `_transpose_spatial_inputs`: moves the channel axis from last to second
      place for 1-D, 2-D and 3-D data, and rejects every other rank. */
  function TransposeSpatialInputs(inputs: Shape): (r: Result<Shape>)
    ensures r.Ok? <==> 3 <= |inputs| <= 5
    ensures r.Ok? ==> r.value == ChannelsFirstOf(inputs)
    ensures r.Err? ==> r.error == RankNotSupported
  {
    var numSpatialDims := |inputs| - 2;
    if numSpatialDims == 1 then Ok(Permute(inputs, [0, 2, 1]))
    else if numSpatialDims == 2 then Ok(Permute(inputs, [0, 3, 1, 2]))
    else if numSpatialDims == 3 then Ok(Permute(inputs, [0, 4, 1, 2, 3]))
    else Err(RankNotSupported)
  }

  /** `_transpose_spatial_outputs`: moves the channel axis back to last place
      for ranks 3 to 5 and leaves any other shape as it is, without error. */
  function TransposeSpatialOutputs(outputs: Shape): (r: Shape)
    ensures 3 <= |outputs| <= 5 ==> r == ChannelsLastOf(outputs)
    ensures !(3 <= |outputs| <= 5) ==> r == outputs
  {
    var numSpatialDims := |outputs| - 2;
    if numSpatialDims == 1 then Permute(outputs, [0, 2, 1])
    else if numSpatialDims == 2 then Permute(outputs, [0, 2, 3, 1])
    else if numSpatialDims == 3 then Permute(outputs, [0, 2, 3, 4, 1])
    else outputs
  }

  /** `_transpose_conv_kernel`: (spatial..., in, out) becomes
      (out, in, spatial...) for ranks 3 to 5; any other shape is unchanged. */
  function TransposeConvKernel(kernel: Shape): (r: Shape)
    ensures 3 <= |kernel| <= 5 ==> r == EngineKernelOf(kernel)
    ensures !(3 <= |kernel| <= 5) ==> r == kernel
  {
    var numSpatialDims := |kernel| - 2;
    if numSpatialDims == 1 then Permute(kernel, [2, 1, 0])
    else if numSpatialDims == 2 then Permute(kernel, [3, 2, 0, 1])
    else if numSpatialDims == 3 then Permute(kernel, [4, 3, 0, 1, 2])
    else kernel
  }

  /** Each transpose only reorders the axes. */
  lemma TransposeInputsIsPermutation(s: Shape)
    requires 3 <= |s| <= 5
    ensures multiset(TransposeSpatialInputs(s).value) == multiset(s)
  {
    var n := |s|;
    assert s == [s[0]] + s[1..n - 1] + [s[n - 1]];
    calc {
      multiset(ChannelsFirstOf(s));
      multiset([s[0], s[n - 1]]) + multiset(s[1..n - 1]);
      multiset([s[0]]) + multiset(s[1..n - 1]) + multiset([s[n - 1]]);
      multiset(s);
    }
  }

  lemma TransposeOutputsIsPermutation(s: Shape)
    requires 3 <= |s| <= 5
    ensures multiset(TransposeSpatialOutputs(s)) == multiset(s)
  {
    assert s == [s[0], s[1]] + s[2..];
    calc {
      multiset(ChannelsLastOf(s));
      multiset([s[0]]) + multiset(s[2..]) + multiset([s[1]]);
      multiset([s[0], s[1]]) + multiset(s[2..]);
      multiset(s);
    }
  }

  lemma TransposeKernelIsPermutation(k: Shape)
    requires 3 <= |k| <= 5
    ensures multiset(TransposeConvKernel(k)) == multiset(k)
  {
    var n := |k|;
    assert k == k[..n - 2] + [k[n - 2], k[n - 1]];
    calc {
      multiset(EngineKernelOf(k));
      multiset([k[n - 1], k[n - 2]]) + multiset(k[..n - 2]);
      multiset(k[..n - 2]) + multiset([k[n - 2], k[n - 1]]);
      multiset(k);
    }
  }

  /** Undoing the input transpose restores the caller's layout ... */
  lemma SpatialRoundTrip(s: Shape)
    requires 3 <= |s| <= 5
    ensures TransposeSpatialOutputs(TransposeSpatialInputs(s).value) == s
  {
    var t := TransposeSpatialInputs(s).value;
    assert ChannelsLastOf(t) == s;
  }

  /** ... and the other composition is the identity too. */
  lemma SpatialRoundTripBack(s: Shape)
    requires 3 <= |s| <= 5
    ensures TransposeSpatialInputs(TransposeSpatialOutputs(s)) == Ok(s)
  {
    var t := TransposeSpatialOutputs(s);
    assert ChannelsFirstOf(t) == s;
  }

  /** The input transpose applied only for channels-last data. */
  function ToChannelsFirst(inputs: Shape, format: DataFormat): (r: Result<Shape>)
    ensures r.Ok? ==> |r.value| == |inputs|
    ensures r.Ok? <==> (format.ChannelsFirst? || 3 <= |inputs| <= 5)
  {
    if format == ChannelsLast then TransposeSpatialInputs(inputs) else Ok(inputs)
  }
}
