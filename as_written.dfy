/**
 MultivalDynamicNode.create_multival of animatediff/nodes_multival.py read
 literally, for the three lines (37, 42 and 52) where the code does not do
 what its comments say. Module Multival models the commented intent; the
 lemmas here exhibit inputs on which the two differ.

 - Line 37: `float_val + float_val[-1]*(n)` multiplies a float by an int and
   adds the resulting float to a list, which Python rejects with a TypeError.
 - Lines 42 and 52: `tensor * float_val` with a Python list. A tensor's `*`
   accepts only a tensor or a number, so it declines the list; Python then
   tries the list's repetition, which needs an integer and cannot take a float
   tensor. Either way the product raises TypeError.
 */
module AsWritten {
  import opened Tensors
  import opened Multival

  /** Lines 34-38 as written: a short list cannot be padded. */
  function LiteralReconcile(xs: seq<real>, frames: nat): (r: Result<seq<real>>)
    ensures r.Ok? <==> frames <= |xs|
    ensures r.Err? ==> r.error == (if |xs| == 0 then IndexError else TypeError)
    ensures r.Ok? ==> r.value == xs[..frames]
  {
    if |xs| < frames then
      if |xs| == 0 then Err(IndexError)   // float_val[-1] is evaluated first
      else Err(TypeError)                 // list + float
    else
      Ok(Take(xs, frames))
  }

  /**
   create_multival as written. The scalar paths agree with
   Multival.MultivalDynamic. A list either fails in LiteralReconcile or reaches
   the product `tensor * list` of line 42 or 52, which raises TypeError.
   */
  function LiteralMultivalDynamic(v: FloatVal, mask: Option<Tensor>): (r: Result<MultivalOut>)
    ensures v.Scalar? ==> r == MultivalDynamic(v, mask)
    ensures v.Sequence? ==> r.Err?
    ensures v.Sequence? ==>
              r.error == (if mask.Some? && |v.xs| == 0 && |mask.value| > 0 then IndexError else TypeError)
  {
    match v
    case Scalar(x) =>
      if mask.Some? then Ok(TensorOut(Scale(mask.value, x)))
      else Ok(ScalarOut(x))
    case Sequence(xs) =>
      if mask.Some? then
        match LiteralReconcile(xs, |mask.value|)
        case Err(e) => Err(e)
        case Ok(_) => Err(TypeError)      // mask_optional * float_val, line 42
      else
        Err(TypeError)                    // torch.ones(shape) * float_val, line 52
  }

  /** Every list shorter than a mask is rejected at line 37 as written, and padded by the intended rule. */
  lemma LiteralPaddingRaises(xs: seq<real>, mask: Tensor)
    requires 0 < |xs| < |mask|
    ensures LiteralReconcile(xs, |mask|) == Err(TypeError)
    ensures LiteralMultivalDynamic(Sequence(xs), Some(mask)) == Err(TypeError)
    ensures MultivalDynamic(Sequence(xs), Some(mask)).Ok?
  {
  }

  /**
   A list at least as long as the mask passes line 38 and then raises at the
   product of line 42; the intended rule scales frame f by element f.
   */
  lemma LiteralListWithMaskRaises(xs: seq<real>, mask: Tensor)
    requires |mask| <= |xs|
    ensures LiteralReconcile(xs, |mask|).Ok?
    ensures LiteralMultivalDynamic(Sequence(xs), Some(mask)) == Err(TypeError)
    ensures var r := MultivalDynamic(Sequence(xs), Some(mask));
            && r.Ok?
            && r.value.TensorOut?
            && forall f, h, w :: 0 <= f < |mask| && 0 <= h < |mask[f]| && 0 <= w < |mask[f][h]| ==>
                 r.value.tensor[f][h][w] == mask[f][h][w] * xs[f]
  {
    SequenceWithMask(xs, mask);
  }

  /**
   A list without a mask raises at the product of line 52 as written; the
   intended rule gives the (L, 1, 1) tensor the comment at line 47 describes.
   */
  lemma LiteralListWithoutMaskRaises(xs: seq<real>)
    ensures LiteralMultivalDynamic(Sequence(xs), None) == Err(TypeError)
    ensures var r := MultivalDynamic(Sequence(xs), None);
            && r.Ok?
            && r.value.TensorOut?
            && IsBox(r.value.tensor, |xs|, 1, 1)
            && forall i :: 0 <= i < |xs| ==> r.value.tensor[i] == [[xs[i]]]
  {
    SequenceWithoutMask(xs);
  }

  /** A mask of shape (2, 1, 2), all ones. */
  const OnesTwoByTwo: Tensor := [[[1.0, 1.0]], [[1.0, 1.0]]]

  /**
   The list [1, 2] over a (2, 1, 2) mask of ones: as written, line 42 raises
   TypeError; intended, frame 0 is scaled by 1 and frame 1 by 2.
   */
  lemma ListWithMaskExample()
    ensures LiteralMultivalDynamic(Sequence([1.0, 2.0]), Some(OnesTwoByTwo)) == Err(TypeError)
    ensures MultivalDynamic(Sequence([1.0, 2.0]), Some(OnesTwoByTwo))
            == Ok(TensorOut([[[1.0, 1.0]], [[2.0, 2.0]]]))
  {
    var t := MultivalDynamic(Sequence([1.0, 2.0]), Some(OnesTwoByTwo)).value.tensor;
    SequenceWithMask([1.0, 2.0], OnesTwoByTwo);
    assert |t| == 2 && |t[0]| == 1 && |t[1]| == 1;
    assert t[0][0] == [t[0][0][0], t[0][0][1]];
    assert t[1][0] == [t[1][0][0], t[1][0][1]];
    assert t[0] == [t[0][0]] && t[1] == [t[1][0]];
    assert t == [t[0], t[1]];
  }
}
