/** The shape checks of the crossentropy losses, and the argument check and
    result shape of `moments`. Losses are modelled by the shape of the
    tensor they return. */
module Losses {
  import opened Errors
  import opened Shapes

  /** An axis the engine accepts for a tensor of the given rank. */
  predicate AxisInRange(axis: int, rank: nat) {
    -(rank as int) <= axis < rank
  }

  /** `categorical_crossentropy`: equal shapes of rank at least 1, then a sum
      over `axis` that drops that axis. */
  function CategoricalCrossentropy(target: Shape, output: Shape, axis: int): (r: Result<Shape>)
    ensures r.Ok? <==> target == output && |output| >= 1 && AxisInRange(axis, |output|)
    ensures target != output ==> r == Err(ShapeMismatch)
    ensures target == output && |output| == 0 ==> r == Err(RankTooLow)
    ensures r.Ok? ==> var a := WrapAxis(axis, |output|);
                      0 <= a < |output| && |r.value| == |output| - 1
                      && r.value[..a] == output[..a] && r.value[a..] == output[a + 1..]
  {
    if target != output then Err(ShapeMismatch)
    else if |target| < 1 then Err(RankTooLow)
    else if !AxisInRange(axis, |output|) then Err(AxisOutOfRange)
    else Ok(RemoveAxis(output, WrapAxis(axis, |output|)))
  }

  /** The target of `sparse_categorical_crossentropy` after its first step:
      a trailing axis of size 1 is squeezed when both ranks agree. Reading the
      last axis of a rank-0 target fails. */
  function SqueezedTarget(target: Shape, output: Shape): (r: Result<Shape>)
    ensures r.Err? <==> |target| == |output| == 0
    ensures r.Ok? && |target| == |output| && target[|target| - 1] == 1 ==> r.value == target[..|target| - 1]
    ensures r.Ok? && !(|target| == |output| && target[|target| - 1] == 1) ==> r.value == target
  {
    if |target| == |output| then
      if |target| == 0 then Err(IndexOutOfRange)
      else if target[|target| - 1] == 1 then Ok(target[..|target| - 1])
      else Ok(target)
    else Ok(target)
  }

  /** `sparse_categorical_crossentropy` with the default axis: the squeezed
      target must be the output's shape without its class axis, which is
      also the shape of the result. */
  function SparseCategoricalCrossentropy(target: Shape, output: Shape): (r: Result<Shape>)
    ensures r.Ok? <==> |output| >= 1
                       && (target == output[..|output| - 1]
                           || (|target| == |output| && target == output[..|output| - 1] + [1]))
    ensures |target| == |output| == 0 ==> r == Err(IndexOutOfRange)
    ensures |output| == 0 && |target| != 0 ==> r == Err(RankTooLow)
    ensures r.Ok? ==> r.value == output[..|output| - 1]
  {
    var t :- SqueezedTarget(target, output);
    if |output| < 1 then Err(RankTooLow)
    else if t != output[..|output| - 1] then Err(ShapeMismatch)
    else Ok(t)
  }

  /** A target with an explicit trailing axis of size 1 is accepted like the
      same target without it. */
  lemma SparseTrailingOneIsSqueezed(target: Shape, output: Shape)
    requires |target| + 1 == |output|
    ensures SparseCategoricalCrossentropy(target + [1], output) == SparseCategoricalCrossentropy(target, output)
  {
    assert (target + [1])[..|target|] == target;
  }

  /** `binary_crossentropy`: an elementwise loss over equal shapes. */
  function BinaryCrossentropy(target: Shape, output: Shape): (r: Result<Shape>)
    ensures r.Ok? <==> target == output
    ensures r.Err? ==> r.error == ShapeMismatch
    ensures r.Ok? ==> r.value == output
  {
    if target != output then Err(ShapeMismatch) else Ok(output)
  }

  /** The axes of a tensor of rank `n` that are not in `axes`, in order. */
  function Kept(n: nat, axes: set<nat>): (r: seq<nat>)
    ensures forall k :: 0 <= k < |r| ==> r[k] < n && r[k] !in axes
    ensures forall k, l :: 0 <= k < l < |r| ==> r[k] < r[l]
    ensures forall i: nat :: i < n && i !in axes ==> i in r
  {
    if n == 0 then []
    else
      var front := Kept(n - 1, axes);
      if n - 1 in axes then front else front + [n - 1]
  }

  /** The shape `moments` returns for its mean and its variance: the reduced
      axes become 1 with `keepdims`, and are squeezed away otherwise. */
  function Moments(shape: Shape, axes: set<nat>, keepdims: bool, synchronized: bool): (r: Result<Shape>)
    requires axes != {}
    ensures r.Err? <==> synchronized || exists a :: a in axes && a >= |shape|
    ensures synchronized ==> r == Err(SynchronizedNotSupported)
    ensures r.Ok? && keepdims ==>
              |r.value| == |shape|
              && forall i :: 0 <= i < |shape| ==> r.value[i] == (if i in axes then 1 else shape[i])
    ensures r.Ok? && !keepdims ==>
              var kept := Kept(|shape|, axes);
              |r.value| == |kept| && forall k :: 0 <= k < |kept| ==> r.value[k] == shape[kept[k]]
  {
    if synchronized then Err(SynchronizedNotSupported)
    else if exists a :: a in axes && a >= |shape| then Err(AxisOutOfRange)
    else if keepdims then Ok(seq(|shape|, i requires 0 <= i < |shape| => if i in axes then 1 else shape[i]))
    else
      var kept := Kept(|shape|, axes);
      Ok(seq(|kept|, k requires 0 <= k < |kept| => shape[kept[k]]))
  }

  /** Squeezing the reduced axes of the `keepdims` shape gives the shape
      without `keepdims`. */
  lemma MomentsSqueezeKeptDims(shape: Shape, axes: set<nat>)
    requires axes != {} && forall a :: a in axes ==> a < |shape|
    ensures var kept := Kept(|shape|, axes);
            var wide := Moments(shape, axes, true, false).value;
            var narrow := Moments(shape, axes, false, false).value;
            |narrow| == |kept| && forall k :: 0 <= k < |kept| ==> narrow[k] == wide[kept[k]]
  {
  }
}
