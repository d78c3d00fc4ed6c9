# Keras PyTorch backend: shape and integer logic of `nn.py`

This project models the integer and shape layer of the Keras 3 PyTorch
backend's neural-network module, `keras/backend/torch/nn.py`, and proves
properties of that model in Dafny. Most of that module hands floating-point
work to `torch.nn.functional`. What is modelled here is the logic it runs
before those calls, as seen on tensor shapes (`seq<nat>`) and, for the
encoders, on integer index sequences.

The modelled logic covers:

- **"Same" padding.** `_compute_padding_length`, the (left, right) split of
  one dimension, and `_apply_same_padding`, which decides between handing
  symmetric amounts to the native op and padding the tensor explicitly.
- **Layout transposes.** The transposes between channels-last and
  channels-first inputs, and the transpose from the Keras kernel layout
  `(spatial…, in, out)` to the engine's layout `(out, in, spatial…)`.
- **Pooling arguments.** What `max_pool` and `average_pool` hand to the
  engine: strides default to the window, and in "same" mode `average_pool`
  builds its own `padding_value` and `uneven_padding` lists.
- **Convolution arguments.**
  - `conv`: when "same" padding is applied by hand, the `groups` count and its
    divisibility error.
  - `depthwise_conv`: the kernel reshape.
  - `separable_conv`: its two calls.
  - `conv_transpose`: the dilation list and the rank check.
- **Encoders.** The values of `one_hot` (negative indices give zero rows)
  and of `multi_hot`, the permutation that moves the class axis, and the axis
  `multi_hot` reduces over.
- **Losses and `moments`.** The shape checks of the three crossentropy
  losses, and the `synchronized` check and result shape of `moments`.

Errors the source raises become an `Err(…)` of `Errors.Result`:

| Error | Raised for |
|---|---|
| `RankNotSupported` | an unsupported rank |
| `BadTuple` | a `standardize_tuple` failure |
| `ChannelsNotDivisible` | the `conv` divisibility check |
| `ShapeMismatch` | the loss shape checks |
| `RankTooLow` | the loss shape checks |
| `SynchronizedNotSupported` | `moments(…, synchronized=True)` |
| `IndexOutOfRange` | Python's IndexError: a shape or kernel-size list too short for the index the code reads (`kernel_size[i]`, `shape[1]`, `shape[-2]`, `shape[-1]`) |
| `DivisionByZero` | Python's ZeroDivisionError from `channels % kernel_in_channels` when the kernel has 0 input channels |
| `AxisOutOfRange` | the engine's refusal of a reduction axis outside the rank (the crossentropy sums and `moments`) |
| `EmptyReduction` | the engine's refusal of `torch.amax` over an empty axis in `multi_hot` |

Functions the file calls but does not define are modelled as follows:

- **`standardize_tuple`** (from another file). An integer becomes `n`
  copies of itself, where `n` is the number of spatial dimensions, or none
  when `n < 0`. A tuple must have length `n`. Every entry must be at least 1.
  Anything else fails with `BadTuple`.
- **`torch.permute`.** It reads a negative axis from the end.
- **`torch.nn.functional.pad`.** Its pair `j` widens the dimension `j`-th
  from the end.
- **The native strided window.** It produces `(P - d(k-1) - 1) div s + 1`
  outputs from a padded length `P`.
- **`torch.amax`.** It refuses to reduce an empty axis.

### Behaviour kept as the code has it

Verification makes three properties of the code explicit. The model follows
the code in each case and proves what it does:

- **Negative total padding.** The total padding `d(k-1) - (L-1) mod s` can
  be negative. For example, length 2, kernel 1 and stride 2 give `(-1, 0)`
  (`NegativeTotalPadding`). One might expect `left + right >= 0`, but the code
  does not guarantee it, and the model follows the code.
  - `TotalPaddingNonnegative` gives the condition under which the total is
    nonnegative: the dilated kernel spans at least `s - 1`.
  - `SamePaddingGivesSameLength` is arithmetic on the strided-window formula:
    the split gives "same" output lengths for either sign of the total.
  - The engine, however, refuses a negative amount handed to a native pooling
    or convolution op. Pooling also refuses an amount above half the window
    (`PoolAmountAccepted`, `PoolPaddingAccepted`, `ConvPaddingAccepted`).
    So the "same" lengths hold for the calls the engine accepts.
  - `MaxPoolNegativeAmount`, `AveragePoolNegativeAmount` and
    `ConvNegativeAmount` give inputs for which the returned call carries the
    amount -1.
  - `LeftAmountAccepted`, `MaxPoolSameAcceptedInOneDimension`,
    `AveragePoolAmountsAccepted` and `SameAmountsNonnegative` show the amounts
    are accepted when the window (or dilated kernel) is at least the stride.
- **Reversed symmetric amounts.** When every dimension is symmetric,
  `_apply_same_padding` returns the left amounts last dimension first,
  because it builds its list by prepending. The engine, however, pads
  dimension `i` by entry `i`.
  - `SymmetricPadIsSameWhenMirrored` shows the result is still "same" when
    a dimension's amount equals that of its mirror dimension. This always
    holds in one dimension.
  - `ReversedAmountsBreakSame` and `MaxPoolReversedAmounts` give a 2-D input
    where the engine accepts the amounts but 3 rows come out instead of 5.
  - `MaxPoolReversedAmountTooWide` gives a 5 x 1 input where the reversed
    amounts `[0, 2]` put 2 on a window of 1, which the engine refuses. The
    amounts in dimension order, `[2, 0]`, would be accepted.
  - The explicit-pad branch is in the engine's order, and `ExplicitPadIsSame`
    proves that it is always "same".
- **`uneven_padding` on the last dimensions.** In `average_pool`,
  `uneven_padding` is `k` copies of `[0, 1]`, where `k` is the number of
  uneven dimensions. The engine therefore widens the last `k` dimensions,
  whichever dimensions were uneven (`UnevenPadWidensTrailingDims`).
  - `AveragePoolSameWhenUnevenTrailing` proves "same" lengths when the
    uneven dimensions are the trailing ones.
  - `UnevenPadMisplaced` gives a 2 x 3 input where the last dimension is
    widened instead of the first.

## Model

| member | source | states |
|---|---|---|
| Shapes.Spatial | keras/backend/torch/nn.py:138 | the spatial part of a shape has rank minus 2 entries (none below rank 2) |
| Shapes.StandardizeTuple | keras/backend/torch/nn.py:220-224 | on success the tuple has one positive entry per spatial dimension, a given tuple is kept and an integer is repeated; every failure is `BadTuple` |
| Shapes.StandardizeTupleIdempotent | keras/backend/torch/nn.py:149-151 | standardising an already standardised tuple gives it back, so the per-dimension re-standardisation of the dilation rate is harmless |
| Shapes.Permute | keras/backend/torch/nn.py:172-176 | the engine's permute has one axis per entry of the order |
| Shapes.RemoveAxis | keras/backend/torch/nn.py:593 | a reduction over one axis leaves one axis fewer |
| Layout.TransposeSpatialInputs | keras/backend/torch/nn.py:167-183 | succeeds exactly for ranks 3 to 5, then moves the last (channel) axis to position 1; fails with `RankNotSupported` otherwise |
| Layout.TransposeInputsIsPermutation | keras/backend/torch/nn.py:167-183 | the result is a permutation of the input shape (same multiset of sizes) |
| Layout.TransposeSpatialOutputs | keras/backend/torch/nn.py:186-195 | for ranks 3 to 5 moves axis 1 to the end; any other shape is returned unchanged |
| Layout.TransposeOutputsIsPermutation | keras/backend/torch/nn.py:186-195 | the result is a permutation of the shape |
| Layout.SpatialRoundTrip | keras/backend/torch/nn.py:167-195 | transposing outputs undoes transposing inputs |
| Layout.SpatialRoundTripBack | keras/backend/torch/nn.py:167-195 | transposing inputs undoes transposing outputs, for ranks 3 to 5 |
| Layout.TransposeConvKernel | keras/backend/torch/nn.py:198-208 | for ranks 3 to 5 maps `(s1..sn, in, out)` to `(out, in, s1..sn)`; any other shape is unchanged |
| Layout.TransposeKernelIsPermutation | keras/backend/torch/nn.py:198-208 | the kernel transpose is a permutation of the kernel shape |
| Layout.ToChannelsFirst | keras/backend/torch/nn.py:227-228 | keeps the rank; fails exactly for a channels-last input of unsupported rank |
| Padding.ComputePaddingLength | keras/backend/torch/nn.py:110-119 | left + right is the total `d(k-1) - (L-1) mod s` and right - left is 0 or 1, for every total including negative ones |
| Padding.SamePaddingGivesSameLength | keras/backend/torch/nn.py:110-119 | padding a length L by left + right gives ceil(L / s) strided outputs, whatever the sign of the total |
| Padding.NegativeTotalPadding | keras/backend/torch/nn.py:114-118 | length 2, kernel 1, stride 2 give the pair (-1, 0) |
| Padding.TotalPaddingNonnegative | keras/backend/torch/nn.py:114-118 | the total is nonnegative when the dilated kernel spans s - 1 |
| Padding.LeftAmountAccepted | keras/backend/torch/nn.py:110-119 | when the window is at least the stride, the left amount is nonnegative and at most half the window, so the native pooling check accepts it |
| Padding.Dilations | keras/backend/torch/nn.py:143-153 | on success one dilation per spatial dimension (pooling: all 1) |
| Padding.Pairs | keras/backend/torch/nn.py:142-155 | one (left, right) pair per spatial dimension, in dimension order |
| Padding.SamePadding | keras/backend/torch/nn.py:122-164 | the closed form of `_apply_same_padding`: on success the kernel-size list covers every dimension, and the result is one left amount per dimension or a flat pad of two amounts per dimension with the operation's fill (replicate for pooling, constant for convolution) |
| Padding.ApplySamePadding | keras/backend/torch/nn.py:122-164 | the prepend loop yields the symmetric left amounts last dimension first, or the pairs flattened last dimension first with the branch's fill; fails only as `SamePaddingFails` says |
| Padding.SamePaddingFails | keras/backend/torch/nn.py:142-155 | fails exactly when the dilation rate does not standardise (convolution, at least one dimension) or the kernel size list is too short |
| Padding.PoolingUsesUnitDilation | keras/backend/torch/nn.py:143-147 | the pooling branch ignores the dilation rate and computes what convolution computes with dilation 1, up to the fill |
| Padding.PadShape | keras/backend/torch/nn.py:164 | the engine's pad keeps the rank |
| Padding.PadReversedPairs | keras/backend/torch/nn.py:161-164 | the flattened pairs widen spatial dimension i by exactly its own left + right |
| Padding.FlatPairsAreSame | keras/backend/torch/nn.py:161-164 | after the explicit pad every dimension has the "same" output length |
| Padding.ExplicitPadIsSame | keras/backend/torch/nn.py:158-164 | when some dimension is uneven, the explicitly padded input gives every dimension ceil(L / s) outputs |
| Padding.SymmetricPadIsSameWhenMirrored | keras/backend/torch/nn.py:156-159 | the reversed symmetric amounts still give "same" lengths for a dimension whose amount equals its mirror's |
| Padding.ReversedAmountsBreakSame | keras/backend/torch/nn.py:156-159 | for spatial 5 x 3, window 5 x 5, strides 1 x 3 the amounts come out as [1, 2], and the first dimension gets 3 outputs instead of 5 |
| Padding.SameAmountsNonnegative | keras/backend/torch/nn.py:156-159 | when every dilated kernel spans at least s - 1, every symmetric amount handed to the engine is nonnegative |
| Padding.ResolveSame | keras/backend/torch/nn.py:158-164 | succeeds exactly when the padding computation does; never a mode string, and an explicit pad exactly when no amounts are passed |
| Pooling.ResolveStrides | keras/backend/torch/nn.py:221-224 | absent strides default to the window; given ones are standardised |
| Pooling.MaxPool | keras/backend/torch/nn.py:211-269 | succeeds exactly for ranks 3 to 5 with standardisable window and strides; the strides default to the window; the input is channels-first; "valid" gives padding 0 and no pad; "same" gives the resolved amounts or explicit pad |
| Pooling.MaxPoolSameInOneDimension | keras/backend/torch/nn.py:230-236 | by the strided-window formula, a 1-D "same" max pooling yields ceil(L / s) outputs whichever branch is taken; the engine runs the call only when its amount is accepted (`MaxPoolSameAcceptedInOneDimension`) |
| Pooling.SameCallInOneDimension | keras/backend/torch/nn.py:230-236 | any 1-D call prepared by the pooling "same" resolution has the "same" output length |
| Pooling.MaxPoolReversedAmounts | keras/backend/torch/nn.py:230-236 | a concrete 2-D "same" max pooling whose amounts the engine accepts, yet whose first dimension gets 3 outputs instead of 5 |
| Pooling.MaxPoolNegativeAmount | keras/backend/torch/nn.py:230-249 | length 3, window 1 and stride 3 in "same" mode hand the amount -1 to the engine, which refuses it |
| Pooling.MaxPoolReversedAmountTooWide | keras/backend/torch/nn.py:230-253 | a 5 x 1 input with window 5 x 1 and unit strides hands [0, 2], which the engine refuses, while [2, 0] in dimension order would pass |
| Pooling.MaxPoolSameAcceptedInOneDimension | keras/backend/torch/nn.py:230-249 | a 1-D "same" max pooling whose window is at least its stride hands the engine an amount it accepts |
| Pooling.AveragePoolPadding | keras/backend/torch/nn.py:291-311 | the loop leaves every dimension's left amount in dimension order and k copies of [0, 1], k the number of uneven dimensions |
| Pooling.AveragePool | keras/backend/torch/nn.py:272-345 | the same argument resolution as `MaxPool`; in "same" mode the padding is the left amounts and an explicit constant pad is applied exactly when some dimension is uneven |
| Pooling.NumUneven | keras/backend/torch/nn.py:305-308 | the number of uneven dimensions (each prepends one `[0, 1]`) is at most the rank |
| Pooling.NoUnevenIffSymmetric | keras/backend/torch/nn.py:305-310 | no dimension is uneven, so `tnn.pad` is skipped, exactly when every pair is symmetric |
| Pooling.ZeroOnes | keras/backend/torch/nn.py:308 | k prepends of `[0, 1]` give a list of length 2k |
| Pooling.ZeroOnesAt | keras/backend/torch/nn.py:308 | entry 2j of the uneven padding is 0 and entry 2j+1 is 1 |
| Pooling.AveragePoolAmountsAccepted | keras/backend/torch/nn.py:297-318 | when every window is at least its stride, every `padding_value` entry passes the native pooling check |
| Pooling.AveragePoolNegativeAmount | keras/backend/torch/nn.py:297-318 | length 2, window 1 and stride 2 give `padding_value` [-1], which the engine refuses |
| Pooling.UnevenPadWidensTrailingDims | keras/backend/torch/nn.py:305-311 | the uneven padding widens exactly the last k dimensions by one |
| Pooling.AveragePoolSameWhenUnevenTrailing | keras/backend/torch/nn.py:297-311 | when the uneven dimensions are the trailing ones, every dimension gets ceil(L / s) outputs by the strided-window formula (for amounts the engine accepts, see `AveragePoolAmountsAccepted`) |
| Pooling.UnevenPadMisplaced | keras/backend/torch/nn.py:305-311 | for input 2 x 3 and window 2 x 3 the last dimension is widened although the first is the uneven one, giving 1 x 4 outputs instead of 2 x 3 |
| Convolution.ManualPadding | keras/backend/torch/nn.py:366 | the padding is applied by hand only for "same" with at least one stride; "valid" or all strides 1 never apply it |
| Convolution.ConvPadding | keras/backend/torch/nn.py:366-375 | the mode is passed on unless "same" is asked with some stride not 1, in which case the "same" resolution is used and no mode reaches the engine |
| Convolution.ConvNegativeAmount | keras/backend/torch/nn.py:366-392 | a 1-D "same" `conv` of length 3 with kernel size 1 and stride 3 hands the amount -1 to the engine, which refuses negative padding |
| Convolution.Groups | keras/backend/torch/nn.py:376-384 | succeeds exactly when the kernel's input channels are nonzero and divide the channels, then groups times kernel channels is the channel count; each failure has its own error |
| Convolution.Conv | keras/backend/torch/nn.py:348-421 | standardised strides, channels-first input, transposed kernel, groups times kernel input channels equal to the channel count, and the padding of `ConvPadding` |
| Convolution.ConvManualPaddingIff | keras/backend/torch/nn.py:366-375 | the engine gets a mode string exactly when the padding is not applied by hand, and then no explicit pad |
| Convolution.ConvFailsIffNotDivisible | keras/backend/torch/nn.py:376-384 | with otherwise valid arguments `conv` fails exactly when channels mod kernel input channels is nonzero, and groups is their quotient otherwise |
| Convolution.DepthwiseKernel | keras/backend/torch/nn.py:433-435 | fails below rank 2; otherwise keeps all but the last two axes and replaces `(in, mult)` by `(1, in * mult)` |
| Convolution.DepthwiseKernelKeepsSize | keras/backend/torch/nn.py:433-435 | the reshape keeps the number of kernel elements |
| Convolution.DepthwiseConv | keras/backend/torch/nn.py:424-436 | fails on a kernel of rank below 2 with `IndexOutOfRange`, and is otherwise exactly `conv` with the reshaped kernel |
| Convolution.DepthwiseGroupsAreChannels | keras/backend/torch/nn.py:433-436 | the divisibility check always passes and groups equals the channel count |
| Convolution.SeparableConv | keras/backend/torch/nn.py:439-463 | succeeds exactly when the depthwise call and the pointwise call over its output do, and returns both |
| Convolution.SeparablePointwiseIsUnitValid | keras/backend/torch/nn.py:456-463 | the pointwise call has all strides 1, the "valid" mode and no explicit pad |
| Convolution.ConvTranspose | keras/backend/torch/nn.py:466-535 | succeeds exactly for ranks 3 to 5 with standardisable strides; an integer dilation becomes one copy per kernel spatial axis, a tuple is kept |
| Encoding.EngineOneHot | keras/backend/torch/nn.py:547 | the engine's row for a valid index has a single 1 at it |
| Encoding.OneHotRow | keras/backend/torch/nn.py:547-548 | every entry is 0 or 1, and entry j is 1 exactly when j is the index |
| Encoding.NegativeIndexIsZeroRow | keras/backend/torch/nn.py:547-548 | a negative index gives a row of zeros |
| Encoding.OneHot | keras/backend/torch/nn.py:538-548 | one row per index, each the row of that index |
| Encoding.OneHotWithNegativeIndex | keras/backend/torch/nn.py:547-548 | [-1, 0, 2] with 3 classes encodes to [[0,0,0],[1,0,0],[0,0,1]] |
| Encoding.AxesOrder | keras/backend/torch/nn.py:551-556 | one entry per output axis |
| Encoding.NewAxesOrder | keras/backend/torch/nn.py:552-556 | the loop yields the identity before `axis`, -1 at `axis` and i - 1 after it |
| Encoding.AxesOrderIsPermutation | keras/backend/torch/nn.py:552-556 | read with -1 as the last axis, the order contains every axis once |
| Encoding.AxesOrderMovesClassAxis | keras/backend/torch/nn.py:550-557 | permuting by the order puts the class axis at `axis` and keeps the other axes in order |
| Encoding.OneHotShape | keras/backend/torch/nn.py:549-557 | the result shape is the input shape with the class axis inserted at `axis` (at the end for -1 and for the output rank) |
| Encoding.ColumnMax | keras/backend/torch/nn.py:563-566 | each entry is the maximum of its column: at least every row's entry and equal to one of them |
| Encoding.MultiHot | keras/backend/torch/nn.py:561-567 | fails exactly on an empty index sequence, otherwise one entry per class |
| Encoding.MultiHotIsIndicator | keras/backend/torch/nn.py:561-567 | class j is 1 exactly when some index is j, and 0 otherwise |
| Encoding.MultiHotExample | keras/backend/torch/nn.py:561-567 | [2, -1, 2, 0] with 4 classes gives [1, 0, 1, 0] |
| Encoding.MultiHotBatch | keras/backend/torch/nn.py:562-566 | a batch reduces over the sample axis, row by row; fails exactly when rows are empty |
| Encoding.ReductionAxis | keras/backend/torch/nn.py:562 | axis 1 exactly for inputs of rank at least 2, otherwise 0, and always an axis of a non-scalar input |
| Encoding.MultiHotShape | keras/backend/torch/nn.py:561-567 | reduces axis 1 of a batched input and axis 0 otherwise: with the default axis a batch gives (batch, …, classes), a 1-D input (classes) and a scalar the empty shape |
| Losses.CategoricalCrossentropy | keras/backend/torch/nn.py:570-593 | fails exactly on differing shapes (`ShapeMismatch`), rank 0 (`RankTooLow`) or an axis out of range, and otherwise the shape without the reduced axis |
| Losses.SqueezedTarget | keras/backend/torch/nn.py:600-601 | a trailing 1 is dropped when both ranks agree; two scalars fail |
| Losses.SparseCategoricalCrossentropy | keras/backend/torch/nn.py:596-622 | succeeds exactly when the target, with or without one trailing 1, is the output shape without its class axis, which is the result shape |
| Losses.SparseTrailingOneIsSqueezed | keras/backend/torch/nn.py:600-601 | a target with a trailing axis of size 1 is treated like the target without it |
| Losses.BinaryCrossentropy | keras/backend/torch/nn.py:625-643 | fails exactly on differing shapes, and is elementwise otherwise |
| Losses.Kept | keras/backend/torch/nn.py:671-673 | the axes outside the reduced set, each once and in increasing order |
| Losses.Moments | keras/backend/torch/nn.py:646-673 | `synchronized` is refused; the reduced axes become 1 with `keepdims` and are squeezed away otherwise |
| Losses.MomentsSqueezeKeptDims | keras/backend/torch/nn.py:661-673 | squeezing the reduced axes of the `keepdims` shape gives the shape without `keepdims` |

## Left out

- The activations and softmax functions (nn.py:20-107): floating-point work done by the engine.
- Numeric results: pooling, convolution and transposed convolution values, the log/clip/sum arithmetic of the losses, and the mean and variance in `moments` with their float16 clipping. Only shapes and argument resolution are modelled.
- The meta-device workaround in `max_pool`: device placement, not logic.
- `compute_conv_transpose_padding_args_for_torch`, whose body is not in this file. It is not part of this model, so `ConvTranspose` leaves out the padding and output padding it computes, and any errors it raises.
- `standardize_data_format`: the layout is passed as a value. Reading the default from the configuration is not modelled.
- `convert_to_tensor` and dtype handling: shapes stand for tensors.
- Engine checks beyond those named above, for example mismatched kernel and input ranks, and repeated axes in a permutation.
- SparseCategoricalCrossentropy: models the default `axis=-1` only. For other axes the result depends on engine broadcasting of the encoded target.
- OneHotShape: a negative `axis` other than -1 relies on Python's negative list indexing and is not modelled.
- OneHotRow: indices at or above `num_classes`, which the engine rejects, are excluded by a precondition.
- OneHot: the cell values are modelled for 1-D input with the default axis; for other axes only the shape is modelled (`OneHotShape`).
- MultiHot: the values are modelled for 1-D input and for a batch of rows (`MultiHotBatch`), and the shape for any rank. The cast of the indices to int32 is left out: the model takes indices to lie in the int32 range, where the cast changes nothing.
- Moments: the axes are a nonempty set of nonnegative axes. An axis at or above the rank is refused with `AxisOutOfRange`. Negative axes and repeated axes are not modelled, since their meaning is the engine's. An empty axis list is excluded by a precondition, because the engine then reduces every axis.
- MaxPool: the engine's check of the padding it is handed is not an error of the model. A returned call whose amounts are negative, or above half the window, is one the engine refuses. This is stated by `PoolPaddingAccepted` (see `MaxPoolNegativeAmount` and `MaxPoolReversedAmountTooWide`), not by an `Err`.
- AveragePool: likewise, a `padding_value` entry that is negative or above half the window is refused by the engine, not by the model (`PoolAmountAccepted`, `AveragePoolNegativeAmount`).
- Conv: likewise, a negative amount is refused by the engine's convolution op, not by the model (`ConvPaddingAccepted`, `ConvNegativeAmount`).
- Conv: the dilation rate is passed to the engine as given. A rejected dilation is not modelled, except where the "same" computation standardises it.
- SeparableConv: the shape of the depthwise result is an input, because computing it is the engine's numeric work.
