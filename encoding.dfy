/** The integer encoders `one_hot` and `multi_hot`: the values of an encoded
    index sequence, the permutation that moves the class axis, and the axis
    `multi_hot` reduces over. */
module Encoding {
  import opened Errors
  import opened Shapes

  function Max(a: int, b: int): int {
    if a >= b then a else b
  }

  /** The engine's one-hot row of a valid class index. */
  function EngineOneHot(v: nat, numClasses: nat): (r: seq<int>)
    requires v < numClasses
    ensures |r| == numClasses && r[v] == 1
    ensures forall j :: 0 <= j < numClasses && j != v ==> r[j] == 0
  {
    seq(numClasses, j => if j == v then 1 else 0)
  }

  /** One row of `one_hot` for the default axis: the engine encodes
      `max(x, 0)` and the row is then zeroed where `x` is negative. */
  function OneHotRow(x: int, numClasses: nat): (r: seq<int>)
    requires x < numClasses && numClasses >= 1
    ensures |r| == numClasses
    ensures forall j :: 0 <= j < numClasses ==> r[j] == 0 || r[j] == 1
    ensures forall j :: 0 <= j < numClasses ==> (r[j] == 1 <==> j == x)
  {
    var hot := EngineOneHot(Max(x, 0), numClasses);
    seq(numClasses, j requires 0 <= j < numClasses => if x >= 0 then hot[j] else 0)
  }

  /** A negative index encodes to a row of zeros. */
  lemma NegativeIndexIsZeroRow(x: int, numClasses: nat)
    requires x < 0 && numClasses >= 1
    ensures OneHotRow(x, numClasses) == seq(numClasses, _ => 0)
  {
  }

  predicate IndicesBelow(xs: seq<int>, numClasses: nat) {
    forall i :: 0 <= i < |xs| ==> xs[i] < numClasses
  }

  /** `one_hot` of a 1-D index sequence with the default axis. */
  function OneHot(xs: seq<int>, numClasses: nat): (r: seq<seq<int>>)
    requires IndicesBelow(xs, numClasses) && numClasses >= 1
    ensures |r| == |xs|
    ensures forall i :: 0 <= i < |xs| ==> r[i] == OneHotRow(xs[i], numClasses)
  {
    seq(|xs|, i requires 0 <= i < |xs| => OneHotRow(xs[i], numClasses))
  }

  lemma OneHotWithNegativeIndex()
    ensures OneHot([-1, 0, 2], 3) == [[0, 0, 0], [1, 0, 0], [0, 0, 1]]
  {
    var r := OneHot([-1, 0, 2], 3);
    assert r[0] == [0, 0, 0];
    assert r[1] == [1, 0, 0];
    assert r[2] == [0, 0, 1];
  }

  /** The order `one_hot` permutes by when the class axis is not last: the
      identity before `axis`, the last axis (as -1) at `axis`, and every later
      position shifted down by one. */
  function AxesOrder(dims: nat, axis: nat): (r: seq<int>)
    requires axis < dims
    ensures |r| == dims
  {
    seq(dims, i => if i < axis then i else if i == axis then -1 else i - 1)
  }

  /** The loop that builds `new_axes_order`. */
  method NewAxesOrder(dims: nat, axis: nat) returns (order: seq<int>)
    requires axis < dims
    ensures order == AxesOrder(dims, axis)
  {
    order := seq(dims, i => i);
    order := order[axis := -1];
    for ax := axis + 1 to dims
      invariant |order| == dims
      invariant forall i :: 0 <= i < dims ==>
                  order[i] == (if i < axis then i else if i == axis then -1 else if i < ax then i - 1 else i)
    {
      order := order[ax := order[ax] - 1];
    }
  }

  /** The order with -1 read as the last of `dims` axes, as the engine reads it. */
  function Wrapped(order: seq<int>, dims: nat): (r: seq<int>)
    ensures |r| == |order|
  {
    seq(|order|, i requires 0 <= i < |order| => WrapAxis(order[i], dims))
  }

  /** Read with -1 as the last axis, the order is a permutation of the
      output's axes: every axis occurs, and no axis occurs twice. */
  lemma AxesOrderIsPermutation(dims: nat, axis: nat)
    requires axis < dims
    ensures var order := AxesOrder(dims, axis);
            AxesFit(order, dims)
            && (forall i, j :: 0 <= i < j < dims ==> Wrapped(order, dims)[i] != Wrapped(order, dims)[j])
            && (forall v :: 0 <= v < dims ==> v in Wrapped(order, dims))
  {
    var order := AxesOrder(dims, axis);
    var w := Wrapped(order, dims);
    forall v | 0 <= v < dims
      ensures v in w
    {
      var i := if v < axis then v else if v == dims - 1 then axis else v + 1;
      assert w[i] == v;
    }
  }

  /** Permuting the engine's output by the order moves the class axis to
      `axis` and keeps the other axes in their order. */
  lemma AxesOrderMovesClassAxis(xShape: Shape, numClasses: nat, axis: nat)
    requires axis <= |xShape|
    ensures AxesFit(AxesOrder(|xShape| + 1, axis), |xShape| + 1)
    ensures Permute(xShape + [numClasses], AxesOrder(|xShape| + 1, axis))
            == xShape[..axis] + [numClasses] + xShape[axis..]
  {
    AxesOrderIsPermutation(|xShape| + 1, axis);
    var full := xShape + [numClasses];
    var p := Permute(full, AxesOrder(|xShape| + 1, axis));
    var want := xShape[..axis] + [numClasses] + xShape[axis..];
    forall i | 0 <= i < |p|
      ensures p[i] == want[i]
    {
      if i < axis {
        assert p[i] == full[i];
      } else if i == axis {
        assert p[i] == full[|xShape|];
      } else {
        assert p[i] == full[i - 1];
      }
    }
  }

  /** An output axis `one_hot` accepts: -1, or one of 0 ..= rank + 1 (the
      last two both leave the class axis last). */
  predicate OneHotAxis(rank: nat, axis: int) {
    axis == -1 || 0 <= axis <= rank + 1
  }

  /** The shape `one_hot` returns for an input of shape `xShape`. */
  function OneHotShape(xShape: Shape, numClasses: nat, axis: int): (r: Shape)
    requires OneHotAxis(|xShape|, axis)
    ensures var at := if axis == -1 || axis >= |xShape| then |xShape| else axis;
            r == xShape[..at] + [numClasses] + xShape[at..]
  {
    var dims := |xShape| + 1;
    if axis == -1 || axis == dims then xShape + [numClasses]
    else
      AxesOrderMovesClassAxis(xShape, numClasses, axis);
      Permute(xShape + [numClasses], AxesOrder(dims, axis))
  }

  /** The column-wise maximum of equally long rows, as the engine's `amax`
      over the first axis computes it. */
  function ColumnMax(rows: seq<seq<int>>, width: nat): (r: seq<int>)
    requires |rows| >= 1
    requires forall i :: 0 <= i < |rows| ==> |rows[i]| == width
    ensures |r| == width
    ensures forall j :: 0 <= j < width ==>
              (forall i :: 0 <= i < |rows| ==> rows[i][j] <= r[j])
              && (exists i :: 0 <= i < |rows| && rows[i][j] == r[j])
  {
    if |rows| == 1 then rows[0]
    else
      var rest := ColumnMax(rows[1..], width);
      seq(width, j requires 0 <= j < width => Max(rows[0][j], rest[j]))
  }

  /** `multi_hot` of a 1-D index sequence: the class-wise maximum of the
      one-hot rows over axis 0. The engine refuses to reduce an empty axis. */
  function MultiHot(xs: seq<int>, numClasses: nat): (r: Result<seq<int>>)
    requires IndicesBelow(xs, numClasses) && numClasses >= 1
    ensures r.Ok? <==> |xs| >= 1
    ensures r.Err? ==> r.error == EmptyReduction
    ensures r.Ok? ==> |r.value| == numClasses
  {
    if |xs| == 0 then Err(EmptyReduction)
    else Ok(ColumnMax(OneHot(xs, numClasses), numClasses))
  }

  /** The multi-hot vector is the indicator of the classes that occur:
      class `j` is 1 exactly when some index is `j`, and 0 otherwise. */
  lemma MultiHotIsIndicator(xs: seq<int>, numClasses: nat)
    requires IndicesBelow(xs, numClasses) && numClasses >= 1 && |xs| >= 1
    ensures MultiHot(xs, numClasses) == Ok(seq(numClasses, j => if j in xs then 1 else 0))
  {
    var rows := OneHot(xs, numClasses);
    var v := MultiHot(xs, numClasses).value;
    var want := seq(numClasses, j => if j in xs then 1 else 0);
    forall j | 0 <= j < numClasses
      ensures v[j] == want[j]
    {
      var i :| 0 <= i < |rows| && rows[i][j] == v[j];
      assert rows[i] == OneHotRow(xs[i], numClasses);
      if j in xs {
        var k :| 0 <= k < |xs| && xs[k] == j;
        assert rows[k] == OneHotRow(xs[k], numClasses);
        assert rows[k][j] == 1;
      }
    }
    assert v == want;
  }

  /** [2, -1, 2, 0] over 4 classes sets classes 0 and 2. */
  lemma MultiHotExample(xs: seq<int>)
    requires xs == [2, -1, 2, 0]
    ensures MultiHot(xs, 4) == Ok([1, 0, 1, 0])
  {
    MultiHotIsIndicator(xs, 4);
    IndicatorExample(xs);
  }

  lemma IndicatorExample(xs: seq<int>)
    requires xs == [2, -1, 2, 0]
    ensures seq(4, j => if j in xs then 1 else 0) == [1, 0, 1, 0]
  {
    assert xs[3] == 0 && xs[0] == 2;
    assert 1 !in xs && 3 !in xs;
  }

  /** `multi_hot` of a batch of index sequences, each `samples` long: every
      row reduces on its own (axis 1 of the rank-3 one-hot output). */
  function MultiHotBatch(xss: seq<seq<int>>, samples: nat, numClasses: nat): (r: Result<seq<seq<int>>>)
    requires numClasses >= 1
    requires forall b :: 0 <= b < |xss| ==> |xss[b]| == samples && IndicesBelow(xss[b], numClasses)
    ensures r.Ok? <==> samples >= 1
    ensures r.Ok? ==> |r.value| == |xss|
                      && forall b :: 0 <= b < |xss| ==> Ok(r.value[b]) == MultiHot(xss[b], numClasses)
  {
    if samples == 0 then Err(EmptyReduction)
    else Ok(seq(|xss|, b requires 0 <= b < |xss| => MultiHot(xss[b], numClasses).value))
  }

  /** The axis `multi_hot` reduces: the sample axis 1 of a batched input, and
      axis 0 otherwise. */
  function ReductionAxis(rank: nat): (a: nat)
    ensures rank >= 1 ==> a < rank
    ensures a == 1 <==> rank >= 2
  {
    if rank > 1 then 1 else 0
  }

  /** The shape `multi_hot` returns; reducing an empty axis fails. */
  function MultiHotShape(xShape: Shape, numClasses: nat, axis: int): (r: Result<Shape>)
    requires OneHotAxis(|xShape|, axis)
    ensures var encoded := OneHotShape(xShape, numClasses, axis);
            r.Ok? <==> encoded[ReductionAxis(|xShape|)] > 0
    ensures r.Err? ==> r.error == EmptyReduction
    ensures r.Ok? && axis == -1 && |xShape| >= 2 ==> r.value == [xShape[0]] + xShape[2..] + [numClasses]
    ensures r.Ok? && axis == -1 && |xShape| == 1 ==> r.value == [numClasses]
    ensures r.Ok? && axis == -1 && |xShape| == 0 ==> r.value == []
  {
    var encoded := OneHotShape(xShape, numClasses, axis);
    var a := ReductionAxis(|xShape|);
    if encoded[a] == 0 then Err(EmptyReduction) else Ok(RemoveAxis(encoded, a))
  }
}
