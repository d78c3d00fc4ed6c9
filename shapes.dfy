/** Shapes, configuration arguments and the two helpers of the surrounding
    library and engine that the shim relies on: tuple standardisation and
    axis permutation. */
module Shapes {
  import opened Errors

  /** A tensor is modelled by its shape alone. */
  type Shape = seq<nat>

  datatype DataFormat = ChannelsFirst | ChannelsLast

  /** The padding argument of pooling and convolution: "valid" or "same".
      The pools treat anything but "same" as no padding, while `conv` hands
      the mode string itself to the engine. */
  datatype PaddingMode = Valid | Same

  /** A size, stride or dilation argument: one integer for every spatial
      dimension, or one integer per spatial dimension. */
  datatype TupleArg = Scalar(v: int) | Tuple(vs: seq<int>)

  predicate AllPositive(s: seq<int>) {
    forall i :: 0 <= i < |s| ==> s[i] >= 1
  }

  /** The spatial dimensions of a channels-first shape (`shape[2:]`). */
  function Spatial(s: seq<nat>): (r: seq<nat>)
    ensures |r| == if |s| < 2 then 0 else |s| - 2
  {
    if |s| < 2 then [] else s[2..]
  }

  /** The library's tuple standardisation, as this model assumes it behaves:
      a scalar is repeated n times (none when n is negative, as Python's
      tuple repetition does), a tuple must have exactly n entries, and every
      entry must be positive. */
  function StandardizeTuple(arg: TupleArg, n: int): (r: Result<seq<int>>)
    ensures r.Ok? ==> |r.value| == (if n < 0 then 0 else n) && AllPositive(r.value)
    ensures r.Err? ==> r.error == BadTuple
    ensures arg.Tuple? && r.Ok? ==> r.value == arg.vs
    ensures arg.Scalar? && r.Ok? ==> forall i :: 0 <= i < |r.value| ==> r.value[i] == arg.v
  {
    match arg
    case Scalar(v) =>
      var t := seq(if n < 0 then 0 else n, _ => v);
      if AllPositive(t) then Ok(t) else Err(BadTuple)
    case Tuple(vs) =>
      if |vs| != n || !AllPositive(vs) then Err(BadTuple) else Ok(vs)
  }

  /** Standardising an already standardised tuple changes nothing; this is
      what lets the same-padding loop standardise the dilation rate once per
      dimension. */
  lemma StandardizeTupleIdempotent(arg: TupleArg, n: nat)
    requires StandardizeTuple(arg, n).Ok?
    ensures StandardizeTuple(Tuple(StandardizeTuple(arg, n).value), n) == StandardizeTuple(arg, n)
  {
  }

  /** The engine's reading of a dimension index: a negative one counts from
      the end. */
  function WrapAxis(axis: int, rank: nat): int {
    if axis < 0 then axis + rank else axis
  }

  predicate AxesFit(dims: seq<int>, rank: nat) {
    forall i :: 0 <= i < |dims| ==> -(rank as int) <= dims[i] < rank
  }

  /** The engine's permute: axis i of the result is axis dims[i] of the input. */
  function Permute(shape: Shape, dims: seq<int>): (r: Shape)
    requires AxesFit(dims, |shape|)
    ensures |r| == |dims|
  {
    seq(|dims|, i requires 0 <= i < |dims| => shape[WrapAxis(dims[i], |shape|)])
  }

  /** `shape` with axis a removed. */
  function RemoveAxis(shape: Shape, a: nat): (r: Shape)
    requires a < |shape|
    ensures |r| == |shape| - 1
  {
    shape[..a] + shape[a + 1..]
  }
}
