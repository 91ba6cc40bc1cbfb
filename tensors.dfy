/**
 Tensors of shape (frames, height, width), indexed frame, row, column, as
 nested sequences of reals. A mask and every tensor-valued MULTIVAL has this
 form. Copies are values, so a "clone" is the value itself.
 */
module Tensors {

  type Frame = seq<seq<real>>
  type Tensor = seq<Frame>

  /** a and b have the same number of frames, of rows in each frame and of columns in each row. */
  predicate SameShape(a: Tensor, b: Tensor)
  {
    && |a| == |b|
    && forall f :: 0 <= f < |a| ==>
         && |a[f]| == |b[f]|
         && forall h :: 0 <= h < |a[f]| ==> |a[f][h]| == |b[f][h]|
  }

  /** t is a rectangular tensor of shape (frames, height, width). */
  predicate IsBox(t: Tensor, frames: nat, height: nat, width: nat)
  {
    && |t| == frames
    && forall f :: 0 <= f < |t| ==>
         && |t[f]| == height
         && forall h :: 0 <= h < |t[f]| ==> |t[f][h]| == width
  }

  /** Every element of one frame multiplied by k. */
  function ScaleFrame(fr: Frame, k: real): (r: Frame)
    ensures |r| == |fr|
    ensures forall h :: 0 <= h < |r| ==> |r[h]| == |fr[h]|
    ensures forall h, w :: 0 <= h < |r| && 0 <= w < |r[h]| ==> r[h][w] == fr[h][w] * k
  {
    seq(|fr|, h requires 0 <= h < |fr| =>
      seq(|fr[h]|, w requires 0 <= w < |fr[h]| => fr[h][w] * k))
  }

  /** tensor * scalar: the scalar is broadcast over every element. */
  function Scale(t: Tensor, k: real): (r: Tensor)
    ensures SameShape(r, t)
    ensures forall f, h, w :: 0 <= f < |r| && 0 <= h < |r[f]| && 0 <= w < |r[f][h]| ==>
              r[f][h][w] == t[f][h][w] * k
  {
    seq(|t|, f requires 0 <= f < |t| => ScaleFrame(t[f], k))
  }

  /**
   Per-frame multiplication: frame f of t is multiplied by perFrame[f], the
   value being broadcast across that frame's rows and columns.
   */
  function BroadcastMultiply(t: Tensor, perFrame: seq<real>): (r: Tensor)
    requires |perFrame| == |t|
    ensures SameShape(r, t)
    ensures forall f, h, w :: 0 <= f < |r| && 0 <= h < |r[f]| && 0 <= w < |r[f][h]| ==>
              r[f][h][w] == t[f][h][w] * perFrame[f]
  {
    seq(|t|, f requires 0 <= f < |t| => ScaleFrame(t[f], perFrame[f]))
  }

  /** A tensor of ones of shape (frames, 1, 1): one pixel per frame. */
  function Ones(frames: nat): (r: Tensor)
    ensures IsBox(r, frames, 1, 1)
    ensures forall f :: 0 <= f < frames ==> r[f][0][0] == 1.0
  {
    seq(frames, f => [[1.0]])
  }
}
