/** A numpy integer array as a nested value: a 0-d array is a `Leaf`, an
    array of rank r > 0 is a `Node` holding its slices along axis 0. This is
    the view numpy itself gives when an array is iterated (`for x in arr`).
    `np.pad(arr, widths, mode="constant", constant_values=fill)` is `Pad`. */
module NdArray {
  import opened Wrappers

  datatype Nd = Leaf(v: int) | Node(items: seq<Nd>)

  /** `a.shape == s`: every slice along an axis has the same shape. */
  predicate HasShape(a: Nd, s: seq<nat>)
    decreases a
  {
    if |s| == 0 then a.Leaf?
    else a.Node? && |a.items| == s[0] && forall x :: x in a.items ==> HasShape(x, s[1..])
  }

  /** `a[idx]` for a full index; None when the index is out of range or does
      not have one entry per axis. */
  function At(a: Nd, idx: seq<nat>): Option<int>
    decreases a
  {
    match a
    case Leaf(v) => if |idx| == 0 then Some(v) else None
    case Node(items) =>
      if |idx| == 0 || idx[0] >= |items| then None else At(items[idx[0]], idx[1..])
  }

  predicate InBounds(idx: seq<nat>, s: seq<nat>) {
    |idx| == |s| && forall k :: 0 <= k < |s| ==> idx[k] < s[k]
  }

  /** Every in-bounds index of an array of shape `s` is readable. */
  lemma {:induction false} AtInBounds(a: Nd, s: seq<nat>, idx: seq<nat>)
    requires HasShape(a, s) && InBounds(idx, s)
    ensures At(a, idx).Some?
    decreases s
  {
    if |s| > 0 {
      assert a.items[idx[0]] in a.items;
      AtInBounds(a.items[idx[0]], s[1..], idx[1..]);
    }
  }

  /** `np.full(s, fill)`. */
  function Full(s: seq<nat>, fill: int): (r: Nd)
    ensures HasShape(r, s)
    decreases |s|
  {
    if |s| == 0 then Leaf(fill)
    else Node(seq(s[0], _ => Full(s[1..], fill)))
  }

  /** Every cell of `np.full(s, fill)` holds `fill`. */
  lemma {:induction false} FullAt(s: seq<nat>, fill: int, idx: seq<nat>)
    requires InBounds(idx, s)
    ensures At(Full(s, fill), idx) == Some(fill)
    decreases |s|
  {
    if |s| > 0 {
      FullAt(s[1..], fill, idx[1..]);
    }
  }

  /** Shape after padding each axis k by `w[k]` before and after. */
  function PaddedShape(s: seq<nat>, w: seq<(nat, nat)>): (r: seq<nat>)
    requires |w| == |s|
    ensures |r| == |s|
    ensures forall k :: 0 <= k < |s| ==> r[k] == w[k].0 + s[k] + w[k].1
  {
    seq(|s|, k requires 0 <= k < |s| => w[k].0 + s[k] + w[k].1)
  }

  /** Constant-mode `np.pad` with non-negative widths, one pair per axis. */
  function Pad(a: Nd, s: seq<nat>, w: seq<(nat, nat)>, fill: int): (r: Nd)
    requires HasShape(a, s) && |w| == |s|
    ensures HasShape(r, PaddedShape(s, w))
    decreases a
  {
    if |s| == 0 then a
    else
      var inner := PaddedShape(s[1..], w[1..]);
      assert PaddedShape(s, w)[1..] == inner;
      var middle := seq(|a.items|, i requires 0 <= i < |a.items| =>
        assert a.items[i] in a.items; Pad(a.items[i], s[1..], w[1..], fill));
      Node(seq(w[0].0, _ => Full(inner, fill)) + middle + seq(w[0].1, _ => Full(inner, fill)))
  }

  /** The index lies in the region that holds the original array. */
  predicate Inside(idx: seq<nat>, s: seq<nat>, w: seq<(nat, nat)>)
    requires |idx| == |s| == |w|
  {
    forall k :: 0 <= k < |s| ==> w[k].0 <= idx[k] < w[k].0 + s[k]
  }

  /** The index shifted back by the "before" widths. */
  function Unshift(idx: seq<nat>, w: seq<(nat, nat)>): (r: seq<nat>)
    requires |idx| == |w|
    requires forall k :: 0 <= k < |w| ==> w[k].0 <= idx[k]
    ensures |r| == |idx|
    ensures forall k :: 0 <= k < |idx| ==> r[k] + w[k].0 == idx[k]
  {
    seq(|idx|, k requires 0 <= k < |idx| => idx[k] - w[k].0)
  }

  /** Slice `i` along axis 0 of a padded array: a filler slice in the
      before/after bands, the padded original slice in between. */
  lemma PadSlice(a: Nd, s: seq<nat>, w: seq<(nat, nat)>, fill: int, i: nat)
    requires HasShape(a, s) && |w| == |s| && |s| > 0
    requires i < w[0].0 + s[0] + w[0].1
    ensures |Pad(a, s, w, fill).items| == w[0].0 + s[0] + w[0].1
    ensures w[0].0 <= i < w[0].0 + s[0] ==>
      a.items[i - w[0].0] in a.items &&
      Pad(a, s, w, fill).items[i] == Pad(a.items[i - w[0].0], s[1..], w[1..], fill)
    ensures !(w[0].0 <= i < w[0].0 + s[0]) ==>
      Pad(a, s, w, fill).items[i] == Full(PaddedShape(s[1..], w[1..]), fill)
  {
    if w[0].0 <= i < w[0].0 + s[0] {
      assert a.items[i - w[0].0] in a.items;
    }
  }

  /** Being inside the original region splits into axis 0 and the rest. */
  lemma InsideSplit(idx: seq<nat>, s: seq<nat>, w: seq<(nat, nat)>)
    requires |idx| == |s| == |w| && |s| > 0
    ensures Inside(idx, s, w) <==>
      (w[0].0 <= idx[0] < w[0].0 + s[0] && Inside(idx[1..], s[1..], w[1..]))
  {
    if w[0].0 <= idx[0] < w[0].0 + s[0] && Inside(idx[1..], s[1..], w[1..]) {
      forall k | 0 <= k < |s| ensures w[k].0 <= idx[k] < w[k].0 + s[k] {
        if k > 0 {
          assert w[1..][k - 1].0 <= idx[1..][k - 1] < w[1..][k - 1].0 + s[1..][k - 1];
        }
      }
    }
  }

  lemma InBoundsTail(idx: seq<nat>, s: seq<nat>, w: seq<(nat, nat)>)
    requires |w| == |s| > 0 && InBounds(idx, PaddedShape(s, w))
    ensures idx[0] < w[0].0 + s[0] + w[0].1
    ensures InBounds(idx[1..], PaddedShape(s[1..], w[1..]))
  {
    var inner := PaddedShape(s[1..], w[1..]);
    forall k | 0 <= k < |inner| ensures idx[1..][k] < inner[k] {
      assert idx[k + 1] < PaddedShape(s, w)[k + 1];
    }
  }

  lemma UnshiftTail(idx: seq<nat>, s: seq<nat>, w: seq<(nat, nat)>)
    requires |idx| == |s| == |w| > 0 && Inside(idx, s, w)
    ensures Inside(idx[1..], s[1..], w[1..])
    ensures Unshift(idx, w) == [idx[0] - w[0].0] + Unshift(idx[1..], w[1..])
  {
    InsideSplit(idx, s, w);
    assert Unshift(idx, w)[1..] == Unshift(idx[1..], w[1..]);
  }

  /** Reading a cell of a non-0-d array reads it in slice `idx[0]`. */
  lemma AtNode(a: Nd, idx: seq<nat>)
    requires a.Node? && |idx| > 0 && idx[0] < |a.items|
    ensures At(a, idx) == At(a.items[idx[0]], idx[1..])
  {
  }

  /** A cell of the padded array inside the original region holds the
      original cell, shifted back by the "before" widths. */
  lemma {:induction false} PadAtInside(a: Nd, s: seq<nat>, w: seq<(nat, nat)>, fill: int, idx: seq<nat>)
    requires HasShape(a, s) && |w| == |s|
    requires InBounds(idx, PaddedShape(s, w)) && Inside(idx, s, w)
    ensures At(Pad(a, s, w, fill), idx) == At(a, Unshift(idx, w))
    decreases a
  {
    if |s| > 0 {
      InBoundsTail(idx, s, w);
      UnshiftTail(idx, s, w);
      var j := idx[0] - w[0].0;
      PadSlice(a, s, w, fill, idx[0]);
      AtNode(Pad(a, s, w, fill), idx);
      PadAtInside(a.items[j], s[1..], w[1..], fill, idx[1..]);
      var u := Unshift(idx, w);
      AtNode(a, u);
      assert u[1..] == Unshift(idx[1..], w[1..]);
    }
  }

  /** Reading the padded array at a cell whose axis-0 index falls in the
      original band reads the padded original slice. */
  lemma PadCellBand(a: Nd, s: seq<nat>, w: seq<(nat, nat)>, fill: int, idx: seq<nat>)
    requires HasShape(a, s) && |w| == |s| > 0 && |idx| > 0
    requires w[0].0 <= idx[0] < w[0].0 + s[0]
    ensures a.items[idx[0] - w[0].0] in a.items
    ensures HasShape(a.items[idx[0] - w[0].0], s[1..])
    ensures At(Pad(a, s, w, fill), idx) ==
      At(Pad(a.items[idx[0] - w[0].0], s[1..], w[1..], fill), idx[1..])
  {
    PadSlice(a, s, w, fill, idx[0]);
    AtNode(Pad(a, s, w, fill), idx);
  }

  /** Reading the padded array at a cell whose axis-0 index falls in a
      before/after band reads a filler slice. */
  lemma PadCellBorder(a: Nd, s: seq<nat>, w: seq<(nat, nat)>, fill: int, idx: seq<nat>)
    requires HasShape(a, s) && |w| == |s| > 0 && |idx| > 0
    requires idx[0] < w[0].0 + s[0] + w[0].1
    requires !(w[0].0 <= idx[0] < w[0].0 + s[0])
    ensures At(Pad(a, s, w, fill), idx) == At(Full(PaddedShape(s[1..], w[1..]), fill), idx[1..])
  {
    PadSlice(a, s, w, fill, idx[0]);
    AtNode(Pad(a, s, w, fill), idx);
  }

  /** Every other cell of the padded array holds the fill value. */
  lemma {:induction false} PadAtOutside(a: Nd, s: seq<nat>, w: seq<(nat, nat)>, fill: int, idx: seq<nat>)
    requires HasShape(a, s) && |w| == |s|
    requires InBounds(idx, PaddedShape(s, w)) && !Inside(idx, s, w)
    ensures At(Pad(a, s, w, fill), idx) == Some(fill)
    decreases a
  {
    InBoundsTail(idx, s, w);
    InsideSplit(idx, s, w);
    if w[0].0 <= idx[0] < w[0].0 + s[0] {
      PadCellBand(a, s, w, fill, idx);
      PadAtOutside(a.items[idx[0] - w[0].0], s[1..], w[1..], fill, idx[1..]);
    } else {
      PadCellBorder(a, s, w, fill, idx);
      FullAt(PaddedShape(s[1..], w[1..]), fill, idx[1..]);
    }
  }

  /** What constant-mode padding means: the original array sits at offset
      `before` on every axis and every other cell of the result is `fill`. */
  lemma PadAt(a: Nd, s: seq<nat>, w: seq<(nat, nat)>, fill: int, idx: seq<nat>)
    requires HasShape(a, s) && |w| == |s|
    requires InBounds(idx, PaddedShape(s, w))
    ensures Inside(idx, s, w) ==> At(Pad(a, s, w, fill), idx) == At(a, Unshift(idx, w))
    ensures !Inside(idx, s, w) ==> At(Pad(a, s, w, fill), idx) == Some(fill)
  {
    if Inside(idx, s, w) {
      PadAtInside(a, s, w, fill, idx);
    } else {
      PadAtOutside(a, s, w, fill, idx);
    }
  }
}
