# MULTIVAL nodes of AnimateDiff-Evolved, in Dafny

The MULTIVAL nodes of `animatediff/nodes_multival.py` turn a "float value" and an
optional mask into one MULTIVAL. The float value is a scalar or a list of
per-frame scalars. The mask is a tensor of shape (frames, height, width). A
MULTIVAL is a value later pipeline stages multiply against per-frame,
per-pixel data. It is one of three things:

- a bare scalar, when a scalar comes without a mask;
- a copy of the mask multiplied by the value, when a mask is given. A list is
  first reconciled to the mask's frame count: padded with its last element
  if short, cut from the end if long;
- a (L, 1, 1) tensor holding the list's elements, when a list of length L
  comes without a mask.

Three thin nodes feed this rule. `MultivalDynamicFloatInputNode` takes the
value from upstream. `MultivalFloatNode` has no mask input.
`MultivalScaledMaskNode` rescales a mask between two scalar bounds and rejects
list bounds with a ValueError naming the offending parameter.

Files:

- `tensors.dfy` (module `Tensors`): tensors as `seq<seq<seq<real>>>` indexed
  frame, row, column. Also shape predicates, the scalar product, the
  per-frame product and the (L, 1, 1) tensor of ones.
- `nodes_multival.dfy` (module `Multival`): the float value as
  `Scalar(real) | Sequence(seq<real>)`, errors as a `Result`, length
  reconciliation, the four nodes, and the lemmas about them.
- `as_written.dfy` (module `AsWritten`): three lines of the source (37, 42
  and 52) read literally, and inputs on which they differ from their comments
  (see "## Findings").

Where the code's comments and its literal expressions disagree, module
`Multival` follows the comments. The literal readings are kept in
`AsWritten`. Everywhere else the model follows the code. One example: an
empty list with a non-empty mask raises IndexError (`float_val[-1]`). An
empty list is accepted without a mask, and with a mask of zero frames.

## Model

| member | source | states |
|---|---|---|
| `Tensors.Scale` | animatediff/nodes_multival.py:42 | mask times a scalar has the mask's shape, and each element is the mask's element times the scalar |
| `Tensors.BroadcastMultiply` | animatediff/nodes_multival.py:42 | with one value per frame, the product has the tensor's shape, and element (f, h, w) is the tensor's element times the value for frame f |
| `Tensors.Ones` | animatediff/nodes_multival.py:50-51 | `torch.ones((L,1,1))` is a rectangular (L, 1, 1) tensor of ones |
| `Multival.Repeat` | animatediff/nodes_multival.py:37 | the padding `[x] * n` has length n and every element equals x |
| `Multival.Take` | animatediff/nodes_multival.py:38 | the slice `xs[:n]` is the prefix of xs of length min(n, len(xs)) |
| `Multival.Reconcile` | animatediff/nodes_multival.py:34-38 | fails (IndexError) exactly when the list is empty and the mask has frames. Otherwise the result has exactly the mask's frame count. A long list becomes its first F elements. A short list keeps all its elements, and every added one equals its last element |
| `Multival.ReconcileAt` | animatediff/nodes_multival.py:35-38 | for a non-empty list, frame f's multiplier is element min(f, len-1) of the original list |
| `Multival.ReconcileIdempotent` | animatediff/nodes_multival.py:34-38 | reconciling an already reconciled list changes nothing |
| `Multival.PadExample` | animatediff/nodes_multival.py:35-38 | [1, 2] against 5 frames gives multipliers [1, 2, 2, 2, 2] |
| `Multival.TruncateExample` | animatediff/nodes_multival.py:38 | [1, 2, 3, 4] against 2 frames gives [1, 2] |
| `Multival.MultivalDynamic` | animatediff/nodes_multival.py:26-53 | errs exactly when an empty list meets a mask with frames, and that error is IndexError. With a mask, a successful result is a tensor of the mask's shape. A scalar without a mask is returned unchanged as a scalar. A list without a mask gives a rectangular (L, 1, 1) tensor |
| `Multival.ScalarWithMask` | animatediff/nodes_multival.py:40-43 | a scalar with a mask never fails. The output has the mask's shape, and each element is the mask's element times the scalar |
| `Multival.SequenceWithMask` | animatediff/nodes_multival.py:34-43 | a list with a mask succeeds when the list is non-empty or the mask has no frames. The output has the mask's shape. Element (f, h, w) is the mask's element times list element min(f, len-1) |
| `Multival.SequenceWithoutMask` | animatediff/nodes_multival.py:47-53 | a list without a mask gives L frames, and frame i is exactly `[[xs[i]]]` |
| `Multival.ScaleByOne` | animatediff/nodes_multival.py:114 | multiplying a mask by the default value 1.0 leaves it unchanged |
| `Multival.MultivalDynamicFloatInput` | animatediff/nodes_multival.py:72-73 | behaves exactly as MultivalDynamic on the same value and mask |
| `Multival.MultivalFloat` | animatediff/nodes_multival.py:89-90 | never fails. A scalar comes back as that scalar. A list comes back as a tensor whose frame i is `[[xs[i]]]` |
| `Multival.InvalidArgumentMessage` | animatediff/nodes_multival.py:110 | the ValueError text starts with the parameter's name and ends with the offending type's name and a full stop |
| `Multival.MultivalScaledMask` | animatediff/nodes_multival.py:108-114 | a list lower bound fails naming `min_float_val`, and it is checked first. A list upper bound with a scalar lower bound fails naming `max_float_val`. With two scalar bounds, the result is exactly the rescaled mask |
| `Multival.ScaledMaskKeepsShape` | animatediff/nodes_multival.py:113-114 | with scalar bounds and a shape-preserving rescale, the result is a tensor of the mask's shape |
| `Multival.ScaledMaskRejectsLists` | animatediff/nodes_multival.py:109-112 | any list bound gives an InvalidArgument error. It names `min_float_val` when that bound is a list, else `max_float_val`. Its message starts with that name |
| `AsWritten.LiteralReconcile` | animatediff/nodes_multival.py:34-38 | as written, reconciliation succeeds only when the list is at least as long as the mask's frame count. Otherwise it raises IndexError for an empty list and TypeError for any other |
| `AsWritten.LiteralMultivalDynamic` | animatediff/nodes_multival.py:26-53 | as written: the scalar paths agree with MultivalDynamic, and every list fails. An empty list against a mask with frames raises IndexError; every other list raises TypeError, at line 37 or at the product of line 42 or 52 |
| `AsWritten.LiteralPaddingRaises` | animatediff/nodes_multival.py:37 | every non-empty list shorter than the mask raises TypeError at line 37 as written, while the intended rule succeeds |
| `AsWritten.LiteralListWithMaskRaises` | animatediff/nodes_multival.py:38-42 | a list at least as long as the mask passes line 38 and raises TypeError at line 42 as written; the intended rule scales frame f by element f |
| `AsWritten.LiteralListWithoutMaskRaises` | animatediff/nodes_multival.py:47-53 | a list without a mask raises TypeError at line 52 as written; the intended rule gives an (L, 1, 1) tensor whose frame i is `[[xs[i]]]` |
| `AsWritten.ListWithMaskExample` | animatediff/nodes_multival.py:42 | [1, 2] over a (2, 1, 2) mask of ones: as written TypeError; intended [[[1, 1]], [[2, 2]]] |

## Findings

| source | as written | input that shows it | evidently intended | confidence | as-written member | corrected member |
|---|---|---|---|---|---|---|
| animatediff/nodes_multival.py:37 | `float_val + float_val[-1]*(n)` multiplies the last float by n and adds that float to a list; Python raises TypeError | `float_val=[1.0, 2.0]` with a mask of 5 frames | append n copies of the last element, giving [1, 2, 2, 2, 2] (comment at line 36) | high, not executed | AsWritten.LiteralPaddingRaises | Multival.Reconcile |
| animatediff/nodes_multival.py:42 | `mask_optional * float_val` multiplies a float tensor by a Python list: the tensor's `*` accepts only a tensor or a number, and list repetition needs an integer, so it raises TypeError | `float_val=[1.0, 2.0]` with a (2, 1, 2) mask of ones | frame f multiplied by element f: [[[1, 1]], [[2, 2]]] (comment at line 33) | high, not executed | AsWritten.ListWithMaskExample | Multival.SequenceWithMask |
| animatediff/nodes_multival.py:52 | `torch.ones(shape) * float_val` multiplies a float tensor by a Python list and raises TypeError in the same way | `float_val=[1.0, 2.0]` without a mask | shape (L, 1, 1) with frame i equal to element i (comments at lines 47-48) | high, not executed | AsWritten.LiteralListWithoutMaskRaises | Multival.SequenceWithoutMask |

## Left out

- `normalize_min_max` (imported from `motion_utils`, which is not part of this model): a function parameter `normalize` of `MultivalScaledMask`. Shape preservation is a hypothesis of `ScaledMaskKeepsShape`, not a property the model proves.
- torch itself: dtype, device placement and memory. `.clone()` becomes value semantics. A Dafny value cannot be changed by the call, so "the caller's mask is not modified" holds by construction and has no lemma of its own.
- Floating point: all arithmetic is on `real`.
- The node metadata (`INPUT_TYPES`, `RETURN_TYPES`, `CATEGORY`, `FUNCTION`): the host shows these as widgets and enforces their min/max/step bounds.
- The one-element tuple `(value,)` that each node returns: the model returns the value itself.
- The `None` defaults of `float_val` in MultivalDynamicFloatInputNode and MultivalFloatNode: the host always supplies this required input, so the default is never used.
- Iterables other than lists (strings, tuples, tensors) passing `isinstance(..., Iterable)`: the tagged `FloatVal` admits only scalars and lists of reals. For that reason the ValueError reports the type name `list`.
- The literal behaviour of lines 37, 42 and 52 in module `Multival`: there it follows the comments, and the literal code is in `AsWritten` (see "## Findings").
