/**
 The MULTIVAL nodes of animatediff/nodes_multival.py.

 A MULTIVAL is either a bare scalar or a tensor of shape (frames, height,
 width) that later pipeline stages broadcast against per-frame, per-pixel
 data. MultivalDynamic is the one normalisation rule; the other three nodes
 feed it.
 */
module Multival {
  import opened Tensors

  datatype Option<T> = None | Some(value: T)

  /**
   The "float value" input. The source decides at run time whether the value
   is iterable; here that decision is the constructor.
   */
  datatype FloatVal = Scalar(x: real) | Sequence(xs: seq<real>)

  /** What a node returns. */
  datatype MultivalOut = ScalarOut(scalar: real) | TensorOut(tensor: Tensor)

  /**
   The exceptions a node can raise. IndexError is Python's for `[][-1]`;
   InvalidArgument is the ValueError of MultivalScaledMask. TypeError is
   raised only by the literal code of module AsWritten.
   */
  datatype Error =
    | IndexError
    | InvalidArgument(param: string, typeName: string)
    | TypeError

  datatype Result<T> = Ok(value: T) | Err(error: Error)

  /** The default of `float_val` in MultivalDynamic, used by MultivalScaledMask. */
  const DefaultFloatVal: FloatVal := Scalar(1.0)

  /** `type(v).__name__` of a Sequence value, which the host hands over as a list. */
  const SequenceTypeName: string := "list"

  function Min(a: int, b: int): (r: int)
  {
    if a <= b then a else b
  }

  /** Python's `[x] * n`. */
  function Repeat(x: real, n: nat): (r: seq<real>)
    ensures |r| == n
    ensures forall i :: 0 <= i < n ==> r[i] == x
  {
    if n == 0 then [] else [x] + Repeat(x, n - 1)
  }

  /** Python's slice `xs[:n]` for n >= 0: the first n elements, or all of xs if it is shorter. */
  function Take(xs: seq<real>, n: nat): (r: seq<real>)
    ensures |r| == Min(n, |xs|)
    ensures r == xs[..|r|]
  {
    if n <= |xs| then xs[..n] else xs
  }

  /**
   Length reconciliation of a per-frame list against a mask of `frames`
   frames: a short list is padded with copies of its last element, then the
   list is cut to its first `frames` elements. A short EMPTY list has no last
   element, and the lookup raises IndexError.

   The source's padding expression multiplies the last element (a float) by
   the missing count and adds that float to the list, which Python rejects;
   this function follows the comment beside it ("copies last entry enough
   times") and appends that many copies of the last element. AsWritten.LiteralReconcile
   is the code as written.
   */
  function Reconcile(xs: seq<real>, frames: nat): (r: Result<seq<real>>)
    ensures r.Err? <==> |xs| == 0 && frames > 0
    ensures r.Err? ==> r.error == IndexError
    ensures r.Ok? ==> |r.value| == frames
    ensures r.Ok? && frames <= |xs| ==> r.value == xs[..frames]
    ensures r.Ok? && |xs| < frames ==>
              && r.value[..|xs|] == xs
              && forall i :: |xs| <= i < frames ==> r.value[i] == xs[|xs| - 1]
  {
    if |xs| < frames then
      if |xs| == 0 then Err(IndexError)
      else Ok(Take(xs + Repeat(xs[|xs| - 1], frames - |xs|), frames))
    else
      Ok(Take(xs, frames))
  }

  /** Frame f of a reconciled list is element f of the original, or its last element past the end. */
  lemma ReconcileAt(xs: seq<real>, frames: nat, f: nat)
    requires |xs| > 0 && f < frames
    ensures Reconcile(xs, frames).Ok?
    ensures Reconcile(xs, frames).value[f] == xs[Min(f, |xs| - 1)]
  {
    var ys := Reconcile(xs, frames).value;
    if f < |xs| {
      if |xs| < frames {
        assert ys[f] == ys[..|xs|][f];
      } else {
        assert ys[f] == xs[..frames][f];
      }
    }
  }

  /** A reconciled list needs no further reconciliation. */
  lemma ReconcileIdempotent(xs: seq<real>, frames: nat)
    requires Reconcile(xs, frames).Ok?
    ensures Reconcile(Reconcile(xs, frames).value, frames) == Reconcile(xs, frames)
  {
    var ys := Reconcile(xs, frames).value;
    assert ys[..frames] == ys;
  }

  /**
   MultivalDynamicNode.create_multival. A Sequence given with a mask is first
   reconciled to the mask's frame count. Then: with a mask, the result is a
   copy of the mask multiplied by the value; without one, a scalar is returned
   as it is, and a list of length L becomes a tensor of shape (L, 1, 1).

   The source multiplies the tensor by the Python list itself, which raises
   TypeError; this function multiplies frame by frame, as the source's
   comments describe ("a dummy mask of b,h,w=float_len,1,1").
   AsWritten.LiteralMultivalDynamic is the code as written.
   */
  function MultivalDynamic(v: FloatVal, mask: Option<Tensor>): (r: Result<MultivalOut>)
    ensures r.Err? <==> v.Sequence? && mask.Some? && |v.xs| == 0 && |mask.value| > 0
    ensures r.Err? ==> r.error == IndexError
    ensures mask.Some? && r.Ok? ==> r.value.TensorOut? && SameShape(r.value.tensor, mask.value)
    ensures mask.None? && v.Scalar? ==> r == Ok(ScalarOut(v.x))
    ensures mask.None? && v.Sequence? ==>
              r.Ok? && r.value.TensorOut? && IsBox(r.value.tensor, |v.xs|, 1, 1)
  {
    match v
    case Scalar(x) =>
      if mask.Some? then Ok(TensorOut(Scale(mask.value, x)))
      else Ok(ScalarOut(x))
    case Sequence(xs) =>
      if mask.Some? then
        match Reconcile(xs, |mask.value|)
        case Err(e) => Err(e)
        case Ok(perFrame) => Ok(TensorOut(BroadcastMultiply(mask.value, perFrame)))
      else
        Ok(TensorOut(BroadcastMultiply(Ones(|xs|), xs)))
  }

  /** A scalar with a mask: the mask's shape, every element the mask's times the scalar. */
  lemma ScalarWithMask(x: real, mask: Tensor)
    ensures MultivalDynamic(Scalar(x), Some(mask)).Ok?
    ensures var r := MultivalDynamic(Scalar(x), Some(mask)).value;
            && r.TensorOut?
            && SameShape(r.tensor, mask)
            && forall f, h, w :: 0 <= f < |mask| && 0 <= h < |mask[f]| && 0 <= w < |mask[f][h]| ==>
                 r.tensor[f][h][w] == mask[f][h][w] * x
  {
  }

  /**
   A list with a mask: the mask's shape, and frame f scaled by element f of
   the list, or by its last element for frames past the end of the list.
   */
  lemma SequenceWithMask(xs: seq<real>, mask: Tensor)
    requires |xs| > 0 || |mask| == 0
    ensures MultivalDynamic(Sequence(xs), Some(mask)).Ok?
    ensures var r := MultivalDynamic(Sequence(xs), Some(mask)).value;
            && r.TensorOut?
            && SameShape(r.tensor, mask)
            && forall f, h, w :: 0 <= f < |mask| && 0 <= h < |mask[f]| && 0 <= w < |mask[f][h]| ==>
                 r.tensor[f][h][w] == mask[f][h][w] * xs[Min(f, |xs| - 1)]
  {
    var t := MultivalDynamic(Sequence(xs), Some(mask)).value.tensor;
    forall f, h, w | 0 <= f < |mask| && 0 <= h < |mask[f]| && 0 <= w < |mask[f][h]|
      ensures t[f][h][w] == mask[f][h][w] * xs[Min(f, |xs| - 1)]
    {
      ReconcileAt(xs, |mask|, f);
    }
  }

  /** A list without a mask: shape (L, 1, 1), frame i holding exactly element i. */
  lemma SequenceWithoutMask(xs: seq<real>)
    ensures MultivalDynamic(Sequence(xs), None).Ok?
    ensures var r := MultivalDynamic(Sequence(xs), None).value;
            && r.TensorOut?
            && |r.tensor| == |xs|
            && forall i :: 0 <= i < |xs| ==> r.tensor[i] == [[xs[i]]]
  {
    var t := MultivalDynamic(Sequence(xs), None).value.tensor;
    forall i | 0 <= i < |xs|
      ensures t[i] == [[xs[i]]]
    {
      assert |t[i]| == 1 && |t[i][0]| == 1;
      assert t[i][0][0] == 1.0 * xs[i] == xs[i];
      assert t[i][0] == [xs[i]];
    }
  }

  /** Multiplying by the default 1.0 leaves a tensor as it is. */
  lemma ScaleByOne(t: Tensor)
    ensures Scale(t, 1.0) == t
  {
    var r := Scale(t, 1.0);
    forall f | 0 <= f < |t|
      ensures r[f] == t[f]
    {
      forall h | 0 <= h < |t[f]|
        ensures r[f][h] == t[f][h]
      {
        assert |r[f][h]| == |t[f][h]|;
      }
    }
  }

  /** MultivalDynamicFloatInputNode.create_multival: the same rule, the value coming from an upstream node. */
  function MultivalDynamicFloatInput(v: FloatVal, mask: Option<Tensor>): (r: Result<MultivalOut>)
    ensures r == MultivalDynamic(v, mask)
  {
    MultivalDynamic(v, mask)
  }

  /**
   MultivalFloatNode.create_multival: the rule with no mask. It never fails;
   a scalar comes back as it is and a list as a (L, 1, 1) tensor of its elements.
   */
  function MultivalFloat(v: FloatVal): (r: Result<MultivalOut>)
    ensures r.Ok?
    ensures v.Scalar? ==> r.value == ScalarOut(v.x)
    ensures v.Sequence? ==>
              && r.value.TensorOut?
              && |r.value.tensor| == |v.xs|
              && forall i :: 0 <= i < |v.xs| ==> r.value.tensor[i] == [[v.xs[i]]]
  {
    if v.Sequence? then SequenceWithoutMask(v.xs); MultivalDynamic(v, None)
    else MultivalDynamic(v, None)
  }

  /** The text of the ValueError raised by MultivalScaledMask. */
  function InvalidArgumentMessage(param: string, typeName: string): (m: string)
    ensures |m| > |param| + |typeName|
    ensures m[..|param|] == param
    ensures typeName <= m[|m| - |typeName| - 1..]
    ensures m[|m| - 1] == '.'
  {
    param + " must be type float (no lists allowed here), not " + typeName + "."
  }

  /**
   MultivalScaledMaskNode.create_multival. Both bounds must be scalars; the
   lower bound is checked first. The mask is rescaled between the bounds by
   `normalize` (normalize_min_max, whose code is not part of this model) and
   handed to MultivalDynamic with the default value 1.0, so the result is the
   rescaled mask itself.
   */
  function MultivalScaledMask(minVal: FloatVal, maxVal: FloatVal, mask: Tensor,
                              normalize: (Tensor, real, real) -> Tensor): (r: Result<MultivalOut>)
    ensures minVal.Sequence? ==> r == Err(InvalidArgument("min_float_val", SequenceTypeName))
    ensures minVal.Scalar? && maxVal.Sequence? ==>
              r == Err(InvalidArgument("max_float_val", SequenceTypeName))
    ensures minVal.Scalar? && maxVal.Scalar? ==>
              r == Ok(TensorOut(normalize(mask, minVal.x, maxVal.x)))
  {
    if minVal.Sequence? then Err(InvalidArgument("min_float_val", SequenceTypeName))
    else if maxVal.Sequence? then Err(InvalidArgument("max_float_val", SequenceTypeName))
    else
      var rescaled := normalize(mask, minVal.x, maxVal.x);
      ScaleByOne(rescaled);
      MultivalDynamic(DefaultFloatVal, Some(rescaled))
  }

  /** With scalar bounds and a shape-preserving rescale, the result has the mask's shape. */
  lemma ScaledMaskKeepsShape(minVal: real, maxVal: real, mask: Tensor,
                             normalize: (Tensor, real, real) -> Tensor)
    requires SameShape(normalize(mask, minVal, maxVal), mask)
    ensures var r := MultivalScaledMask(Scalar(minVal), Scalar(maxVal), mask, normalize);
            r.Ok? && r.value.TensorOut? && SameShape(r.value.tensor, mask)
  {
  }

  /** Lists of per-frame values are never accepted as bounds, whatever else is passed. */
  lemma ScaledMaskRejectsLists(minVal: FloatVal, maxVal: FloatVal, mask: Tensor,
                               normalize: (Tensor, real, real) -> Tensor)
    requires minVal.Sequence? || maxVal.Sequence?
    ensures var r := MultivalScaledMask(minVal, maxVal, mask, normalize);
            && r.Err?
            && r.error.InvalidArgument?
            && r.error.param == (if minVal.Sequence? then "min_float_val" else "max_float_val")
            && InvalidArgumentMessage(r.error.param, r.error.typeName)[..|r.error.param|] == r.error.param
  {
  }

  /** A two-element list against a five-frame mask: multipliers 1, 2, 2, 2, 2. */
  lemma PadExample()
    ensures Reconcile([1.0, 2.0], 5) == Ok([1.0, 2.0, 2.0, 2.0, 2.0])
  {
    var xs := [1.0, 2.0];
    var ys := Reconcile(xs, 5).value;
    assert ys[0] == ys[..2][0] == 1.0 && ys[1] == ys[..2][1] == 2.0;
    assert ys[2] == ys[3] == ys[4] == xs[1];
    assert ys == [ys[0], ys[1], ys[2], ys[3], ys[4]];
  }

  /** A four-element list against a two-frame mask: the first two elements. */
  lemma TruncateExample()
    ensures Reconcile([1.0, 2.0, 3.0, 4.0], 2) == Ok([1.0, 2.0])
  {
    assert [1.0, 2.0, 3.0, 4.0][..2] == [1.0, 2.0];
  }
}
