/** The two transforms of betaVAE/preprocess.py applied to every skeleton
    volume: NormalizeSkeleton, which remaps voxel labels in place, and
    Padding, which centre-pads a volume to a target shape. */
module Preprocess {
  import opened Wrappers
  import opened NdArray

  // ---------------------------------------------------------------------
  // NormalizeSkeleton. The transform is element-wise, so the volume is a
  // flat array of voxel values; each numpy masked assignment
  // `arr[mask] = v` is one pass over the whole array.
  // ---------------------------------------------------------------------

  /** Value of one voxel after the masked assignment `arr[arr == from] = to`. */
  function Replace(v: int, from: int, to: int): int {
    if v == from then to else v
  }

  /** Value of one voxel after the whole `__call__`, as the net effect of the
      sequential masked assignments: binary mode clips positive labels to 1,
      the multi-class mode merges 30/40 into 1, 60 into 2 and 70/80 into 3. */
  function NormalizedVoxel(v: int, nbCls: int): (r: int)
    ensures nbCls == 2 ==> r <= 1 && (v <= 1 ==> r == v)
    ensures nbCls != 2 ==> (r != v <==> v in {30, 40, 60, 70, 80}) && (r != v ==> 1 <= r <= 3)
  {
    if nbCls == 2 then
      (if v > 0 then 1 else v)
    else if v == 30 || v == 40 then 1
    else if v == 60 then 2
    else if v == 70 || v == 80 then 3
    else v
  }

  /** The five masked assignments of the multi-class branch, in source order. */
  function MultiClassSteps(v: int): (r: int)
    ensures r != v <==> v in {30, 40, 60, 70, 80}
    ensures r != v ==> 1 <= r <= 3
  {
    Replace(Replace(Replace(Replace(Replace(v, 40, 30), 70, 80), 30, 1), 60, 2), 80, 3)
  }

  /** The order of the in-place steps yields exactly the net label mapping:
      40 first becomes 30 and then 1, 70 first becomes 80 and then 3. */
  lemma MultiClassStepsNet(v: int, nbCls: int)
    requires nbCls != 2
    ensures MultiClassSteps(v) == NormalizedVoxel(v, nbCls)
    ensures v == 40 ==> MultiClassSteps(v) == 1
    ensures v == 70 ==> MultiClassSteps(v) == 3
    ensures v !in {30, 40, 60, 70, 80} ==> MultiClassSteps(v) == v
  {
  }

  /** Normalizing a voxel twice is normalizing it once, in both modes. */
  lemma NormalizedVoxelIdempotent(v: int, nbCls: int)
    ensures NormalizedVoxel(NormalizedVoxel(v, nbCls), nbCls) == NormalizedVoxel(v, nbCls)
  {
  }

  /** The whole array after `__call__`. */
  function Normalized(s: seq<int>, nbCls: int): (r: seq<int>)
    ensures |r| == |s|
    ensures forall i :: 0 <= i < |s| ==> r[i] == NormalizedVoxel(s[i], nbCls)
  {
    if s == [] then [] else [NormalizedVoxel(s[0], nbCls)] + Normalized(s[1..], nbCls)
  }

  /** Applying NormalizeSkeleton twice equals applying it once. */
  lemma NormalizedIdempotent(s: seq<int>, nbCls: int)
    ensures Normalized(Normalized(s, nbCls), nbCls) == Normalized(s, nbCls)
  {
    var once := Normalized(s, nbCls);
    forall i | 0 <= i < |s|
      ensures Normalized(once, nbCls)[i] == once[i]
    {
      NormalizedVoxelIdempotent(s[i], nbCls);
    }
  }

  /** Binary mode: every strictly positive voxel becomes 1, every other voxel
      keeps its value; so the result holds no value above 1. */
  lemma BinaryModeClips(s: seq<int>)
    ensures forall i :: 0 <= i < |s| && s[i] > 0 ==> Normalized(s, 2)[i] == 1
    ensures forall i :: 0 <= i < |s| && s[i] <= 0 ==> Normalized(s, 2)[i] == s[i]
    ensures forall i :: 0 <= i < |s| ==> Normalized(s, 2)[i] <= 1
  {
  }

  /** The transform object; `nbCls` is fixed at construction. */
  class NormalizeSkeleton {
    const nbCls: int

    constructor (nbCls: int)
      ensures this.nbCls == nbCls
    {
      this.nbCls := nbCls;
    }

    /** `arr[arr > 0] = 1`: one masked pass over the array. */
    static method ClipPositive(arr: array<int>)
      modifies arr
      ensures forall i :: 0 <= i < arr.Length ==>
        arr[i] == (if old(arr[i]) > 0 then 1 else old(arr[i]))
    {
      var k := 0;
      while k < arr.Length
        invariant 0 <= k <= arr.Length
        invariant forall i :: 0 <= i < k ==> arr[i] == (if old(arr[i]) > 0 then 1 else old(arr[i]))
        invariant forall i :: k <= i < arr.Length ==> arr[i] == old(arr[i])
      {
        if arr[k] > 0 {
          arr[k] := 1;
        }
        k := k + 1;
      }
    }

    /** `arr[arr == from] = to`: one masked pass over the array. */
    static method ReplaceAll(arr: array<int>, from: int, to: int)
      modifies arr
      ensures forall i :: 0 <= i < arr.Length ==> arr[i] == Replace(old(arr[i]), from, to)
    {
      var k := 0;
      while k < arr.Length
        invariant 0 <= k <= arr.Length
        invariant forall i :: 0 <= i < k ==> arr[i] == Replace(old(arr[i]), from, to)
        invariant forall i :: k <= i < arr.Length ==> arr[i] == old(arr[i])
      {
        if arr[k] == from {
          arr[k] := to;
        }
        k := k + 1;
      }
    }

    /** `__call__`: updates `arr` in place and returns the same array. */
    method Apply(arr: array<int>) returns (r: array<int>)
      modifies arr
      ensures r == arr
      ensures arr[..] == Normalized(old(arr[..]), nbCls)
    {
      if nbCls == 2 {
        ClipPositive(arr);
      } else {
        ghost var s0 := arr[..];
        ReplaceAll(arr, 40, 30);
        ReplaceAll(arr, 70, 80);
        ReplaceAll(arr, 30, 1);
        ReplaceAll(arr, 60, 2);
        ReplaceAll(arr, 80, 3);
        forall i | 0 <= i < arr.Length
          ensures arr[i] == NormalizedVoxel(s0[i], nbCls)
        {
          MultiClassStepsNet(s0[i], nbCls);
        }
      }
      r := arr;
    }
  }

  // ---------------------------------------------------------------------
  // Padding
  // ---------------------------------------------------------------------

  /** `fill_value`: an int, or a list with one value per channel. */
  datatype FillValue = Scalar(v: int) | PerChannel(vs: seq<int>)

  /** A configured Padding transform: target `shape`, `nb_channels`, `fill_value`. */
  datatype Padding = Padding(shape: seq<int>, nbChannels: int, fillValue: FillValue)

  /** The exceptions the transform can raise. */
  datatype PadError =
    | NbChannelsNotCallable  // `self.nb_channels()` on an int: TypeError
    | WrongInputShape        // ValueError("Wrong input shape specified!")
    | FillNotIterable        // `zip(arr, fill_value)` with an int fill: TypeError
    | WidthsNotIntegral      // np.pad given an empty padding list: TypeError
    | NegativeWidth          // np.pad given a negative width: ValueError
    | FillNotBroadcastable   // np.pad given a list fill of 3 or more values: ValueError

  predicate Fits(orig: seq<nat>, target: seq<int>) {
    forall k :: 0 <= k < |orig| && k < |target| ==> orig[k] <= target[k]
  }

  predicate Uniform(vs: seq<int>) {
    forall i :: 0 <= i < |vs| ==> vs[i] == vs[0]
  }

  /** What every Padding built by `__init__` satisfies: a list fill is
      `nb_channels` copies of one scalar, with more than one channel. */
  predicate Constructed(p: Padding) {
    p.fillValue.PerChannel? ==>
      p.nbChannels > 1 && |p.fillValue.vs| == p.nbChannels && Uniform(p.fillValue.vs)
  }

  /** `Padding.__init__`. A scalar fill with several channels is broadcast to
      one copy per channel. The list branch calls `self.nb_channels()` on an
      int, so with assertions enabled a list fill raises. */
  function MakePadding(shape: seq<int>, nbChannels: int, fillValue: FillValue): (r: Result<Padding, PadError>)
    ensures r.Err? <==> fillValue.PerChannel?
    ensures r.Err? ==> r.error == NbChannelsNotCallable
    ensures r.Ok? ==> r.value.shape == shape && r.value.nbChannels == nbChannels && Constructed(r.value)
    ensures r.Ok? && nbChannels > 1 ==>
      r.value.fillValue.PerChannel? && |r.value.fillValue.vs| == nbChannels &&
      forall i :: 0 <= i < nbChannels ==> r.value.fillValue.vs[i] == fillValue.v
    ensures r.Ok? && nbChannels <= 1 ==> r.value.fillValue == fillValue
  {
    if nbChannels > 1 && fillValue.Scalar? then
      Ok(Padding(shape, nbChannels, PerChannel(seq(nbChannels, _ => fillValue.v))))
    else if fillValue.PerChannel? then
      Err(NbChannelsNotCallable)
    else
      Ok(Padding(shape, nbChannels, fillValue))
  }

  /** How one axis of original size `o` and target size `t` is padded:
      `half = (t - o) // 2`, then `(half, half)` when the difference is even
      and `(half, half + 1)` when it is odd. Python's `//` and `%` by 2 floor,
      as Dafny's do. */
  function SplitDifference(o: nat, t: int): (r: (int, int))
    ensures r.0 + r.1 == t - o
    ensures 0 <= r.1 - r.0 <= 1
    ensures r.0 == (t - o) / 2
    ensures o <= t ==> r.0 >= 0 && r.1 >= 0
  {
    var d := t - o;
    var half := d / 2;
    if d % 2 == 0 then (half, half) else (half, half + 1)
  }

  /** The split is the only pair that adds up to the difference with the
      extra cell, if any, after the original content. */
  lemma SplitDifferenceUnique(o: nat, t: int, before: int, after: int)
    requires before + after == t - o && 0 <= after - before <= 1
    ensures SplitDifference(o, t) == (before, after)
  {
  }

  /** The padding list `_apply_padding` hands to np.pad: one pair per axis of
      the array, the centred split on the axes `zip` pairs with the target
      shape, and `(0, 0)` on the trailing axes. */
  function Widths(orig: seq<nat>, target: seq<int>): (w: seq<(int, int)>)
    ensures |w| == |orig|
    ensures forall k :: 0 <= k < |orig| && k < |target| ==>
      w[k].0 + w[k].1 == target[k] - orig[k] && 0 <= w[k].1 - w[k].0 <= 1
    ensures forall k :: |target| <= k < |orig| ==> w[k] == (0, 0)
  {
    seq(|orig|, k requires 0 <= k < |orig| =>
      if k < |target| then SplitDifference(orig[k], target[k]) else (0, 0))
  }

  /** The shape the padded array should get: the target size on every axis
      the target constrains, the original size elsewhere. */
  function Resized(orig: seq<nat>, target: seq<int>): seq<nat>
    requires Fits(orig, target)
  {
    seq(|orig|, k requires 0 <= k < |orig| => if k < |target| then target[k] else orig[k])
  }

  predicate NonNegative(w: seq<(int, int)>) {
    forall k :: 0 <= k < |w| ==> w[k].0 >= 0 && w[k].1 >= 0
  }

  function AsNat(w: seq<(int, int)>): (r: seq<(nat, nat)>)
    requires NonNegative(w)
    ensures |r| == |w| && forall k :: 0 <= k < |w| ==> r[k] == w[k]
  {
    seq(|w|, k requires 0 <= k < |w| => (w[k].0 as nat, w[k].1 as nat))
  }

  /** The scalar np.pad fills with when given `constant_values`: a list is
      broadcast to one (before, after) pair per axis, which works for one or
      two values and fails for more. */
  function ConstantFill(f: FillValue): (r: Result<int, PadError>)
    requires f.PerChannel? ==> Uniform(f.vs)
    ensures r.Ok? <==> f.Scalar? || 1 <= |f.vs| <= 2
    ensures r.Ok? && f.Scalar? ==> r.value == f.v
    ensures r.Ok? && f.PerChannel? ==> forall i :: 0 <= i < |f.vs| ==> r.value == f.vs[i]
    ensures r.Err? ==> r.error == FillNotBroadcastable
  {
    match f
    case Scalar(v) => Ok(v)
    case PerChannel(vs) => if 1 <= |vs| <= 2 then Ok(vs[0]) else Err(FillNotBroadcastable)
  }

  /** `np.pad(arr, w, mode="constant", constant_values=values)`, with the
      errors in the order numpy checks them: an empty padding list is not of
      integral type, a negative width is refused, then the fill is broadcast. */
  function NpPad(a: Nd, s: seq<nat>, w: seq<(int, int)>, values: FillValue): (r: Result<Nd, PadError>)
    requires HasShape(a, s) && |w| == |s|
    requires values.PerChannel? ==> Uniform(values.vs)
    ensures r.Ok? <==> |w| > 0 && NonNegative(w) && ConstantFill(values).Ok?
    ensures r.Err? ==>
      r.error == (if |w| == 0 then WidthsNotIntegral
                  else if !NonNegative(w) then NegativeWidth
                  else FillNotBroadcastable)
    ensures r.Ok? ==> HasShape(r.value, PaddedShape(s, AsNat(w)))
  {
    if |w| == 0 then Err(WidthsNotIntegral)
    else if !NonNegative(w) then Err(NegativeWidth)
    else match ConstantFill(values)
      case Err(e) => Err(e)
      case Ok(v) => Ok(Pad(a, s, AsNat(w), v))
  }

  /** `_apply_padding(arr, fill_value)` as a value: it succeeds exactly when
      the array has an axis, every constrained axis fits its target and the
      fill can be broadcast, and then has exactly the target size on every
      constrained axis. */
  function PadSpec(target: seq<int>, a: Nd, s: seq<nat>, values: FillValue): (r: Result<Nd, PadError>)
    requires HasShape(a, s)
    requires values.PerChannel? ==> Uniform(values.vs)
    ensures r.Ok? <==> |s| > 0 && Fits(s, target) && ConstantFill(values).Ok?
    ensures r.Err? ==>
      r.error == (if |s| == 0 then WidthsNotIntegral
                  else if !Fits(s, target) then NegativeWidth
                  else FillNotBroadcastable)
    ensures r.Ok? ==> HasShape(r.value, Resized(s, target))
  {
    var w := Widths(s, target);
    var r := NpPad(a, s, w, values);
    assert NonNegative(w) <==> Fits(s, target) by {
      if Fits(s, target) {
        forall k | 0 <= k < |s| ensures w[k].0 >= 0 && w[k].1 >= 0 {
          if k < |target| {
            assert w[k] == SplitDifference(s[k], target[k]);
          }
        }
      }
      if NonNegative(w) {
        forall k | 0 <= k < |s| && k < |target| ensures s[k] <= target[k] {
          assert w[k].0 >= 0 && w[k].1 >= 0;
        }
      }
    }
    if r.Ok? then
      assert PaddedShape(s, AsNat(w)) == Resized(s, target);
      r
    else r
  }

  /** Offset of the original content on each axis: `(target - orig) // 2`
      on a constrained axis, 0 on a trailing one. */
  function Befores(orig: seq<nat>, target: seq<int>): (b: seq<nat>)
    requires Fits(orig, target)
    ensures |b| == |orig|
  {
    seq(|orig|, k requires 0 <= k < |orig| => if k < |target| then (target[k] - orig[k]) / 2 else 0)
  }

  lemma WidthsFit(s: seq<nat>, target: seq<int>)
    requires Fits(s, target)
    ensures NonNegative(Widths(s, target))
    ensures PaddedShape(s, AsNat(Widths(s, target))) == Resized(s, target)
    ensures forall k :: 0 <= k < |s| ==> AsNat(Widths(s, target))[k].0 == Befores(s, target)[k]
  {
    var w := Widths(s, target);
    forall k | 0 <= k < |s| ensures w[k].0 >= 0 && w[k].1 >= 0 && w[k].0 == Befores(s, target)[k] {
      if k < |target| {
        assert w[k] == SplitDifference(s[k], target[k]);
      }
    }
  }

  /** Where the content goes: after `_apply_padding` on an array that fits,
      with a fill np.pad can broadcast (a scalar, or one or two copies of a
      value as the same-rank path passes for two channels), the original
      content sits at offset `Befores` on every axis, every other cell holds
      the broadcast fill value, and every cell of the result is readable. */
  lemma PadSpecCentres(target: seq<int>, a: Nd, s: seq<nat>, values: FillValue, idx: seq<nat>)
    requires HasShape(a, s) && |s| > 0 && Fits(s, target)
    requires values.PerChannel? ==> Uniform(values.vs)
    requires ConstantFill(values).Ok?
    requires InBounds(idx, Resized(s, target))
    ensures PadSpec(target, a, s, values).Ok?
    ensures At(PadSpec(target, a, s, values).value, idx).Some?
    ensures InOriginal(idx, s, Befores(s, target)) ==>
      At(PadSpec(target, a, s, values).value, idx) == At(a, Shifted(idx, Befores(s, target)))
    ensures !InOriginal(idx, s, Befores(s, target)) ==>
      At(PadSpec(target, a, s, values).value, idx) == Some(ConstantFill(values).value)
  {
    WidthsFit(s, target);
    var nw := AsNat(Widths(s, target));
    PadSpecConstant(target, a, s, values);
    PadAt(a, s, nw, ConstantFill(values).value, idx);
    InOriginalInside(target, s, idx);
    AtInBounds(PadSpec(target, a, s, values).value, Resized(s, target), idx);
  }

  /** With a broadcastable fill on an array that fits, `_apply_padding` is
      constant-mode padding by the computed widths with the broadcast value. */
  lemma PadSpecConstant(target: seq<int>, a: Nd, s: seq<nat>, values: FillValue)
    requires HasShape(a, s) && |s| > 0 && Fits(s, target)
    requires values.PerChannel? ==> Uniform(values.vs)
    requires ConstantFill(values).Ok?
    ensures NonNegative(Widths(s, target))
    ensures PadSpec(target, a, s, values) == Ok(Pad(a, s, AsNat(Widths(s, target)), ConstantFill(values).value))
  {
    WidthsFit(s, target);
  }

  /** The region holding the original content, described by the offsets or
      by the widths, is the same, and so is the shift back into it. */
  lemma InOriginalInside(target: seq<int>, s: seq<nat>, idx: seq<nat>)
    requires Fits(s, target) && |idx| == |s|
    ensures NonNegative(Widths(s, target))
    ensures InOriginal(idx, s, Befores(s, target)) <==> Inside(idx, s, AsNat(Widths(s, target)))
    ensures InOriginal(idx, s, Befores(s, target)) ==>
      Unshift(idx, AsNat(Widths(s, target))) == Shifted(idx, Befores(s, target))
  {
    WidthsFit(s, target);
    var nw := AsNat(Widths(s, target));
    var b := Befores(s, target);
    assert forall k :: 0 <= k < |s| ==> nw[k].0 == b[k];
    if InOriginal(idx, s, b) {
      assert Unshift(idx, nw) == Shifted(idx, b);
    }
  }

  /** The index lies in the region holding the original content. */
  predicate InOriginal(idx: seq<nat>, s: seq<nat>, b: seq<nat>)
    requires |idx| == |s| == |b|
  {
    forall k :: 0 <= k < |s| ==> b[k] <= idx[k] < b[k] + s[k]
  }

  function Shifted(idx: seq<nat>, b: seq<nat>): seq<nat>
    requires |idx| == |b| && forall k :: 0 <= k < |b| ==> b[k] <= idx[k]
  {
    seq(|idx|, k requires 0 <= k < |idx| => idx[k] - b[k])
  }

  /** `_apply_padding`: builds the padding list with two loops, then calls
      np.pad. */
  method ApplyPadding(p: Padding, a: Nd, s: seq<nat>, values: FillValue) returns (r: Result<Nd, PadError>)
    requires HasShape(a, s)
    requires values.PerChannel? ==> Uniform(values.vs)
    ensures r == PadSpec(p.shape, a, s, values)
  {
    var padding: seq<(int, int)> := [];
    var n := if |s| < |p.shape| then |s| else |p.shape|;
    for k := 0 to n
      invariant |padding| == k
      invariant forall j :: 0 <= j < k ==> padding[j] == SplitDifference(s[j], p.shape[j])
    {
      var shapeK := p.shape[k] - s[k];
      var halfK := shapeK / 2;
      if shapeK % 2 == 0 {
        padding := padding + [(halfK, halfK)];
      } else {
        padding := padding + [(halfK, halfK + 1)];
      }
    }
    for cnt := 0 to |s| - |padding|
      invariant |padding| == n + cnt
      invariant forall j :: 0 <= j < n ==> padding[j] == SplitDifference(s[j], p.shape[j])
      invariant forall j :: n <= j < |padding| ==> padding[j] == (0, 0)
    {
      padding := padding + [(0, 0)];
    }
    assert padding == Widths(s, p.shape);
    r := NpPad(a, s, padding, values);
  }

  /** `Padding.__call__` as a value. Rank equal to the target's: one padding
      with the configured fill. Rank one greater: each slice along the
      leading (channel) axis is padded with its own fill, `zip` stopping at
      the shorter of channels and fill values. Any other rank: ValueError. */
  function CallSpec(p: Padding, a: Nd, s: seq<nat>): (r: Result<Nd, PadError>)
    requires HasShape(a, s) && Constructed(p)
    ensures |s| - |p.shape| !in {0, 1} ==> r == Err(WrongInputShape)
    ensures |s| == |p.shape| ==> r == PadSpec(p.shape, a, s, p.fillValue)
    ensures |s| == |p.shape| + 1 && p.fillValue.Scalar? ==> r == Err(FillNotIterable)
    ensures |s| == |p.shape| + 1 && r.Ok? ==>
      p.fillValue.PerChannel? && r.value.Node? &&
      |r.value.items| == (if s[0] < |p.fillValue.vs| then s[0] else |p.fillValue.vs|) &&
      forall i :: 0 <= i < |r.value.items| ==>
        a.items[i] in a.items &&
        PadSpec(p.shape, a.items[i], s[1..], Scalar(p.fillValue.vs[i])) == Ok(r.value.items[i])
  {
    if |s| - |p.shape| == 1 then
      match p.fillValue
      case Scalar(_) => Err(FillNotIterable)
      case PerChannel(vs) =>
        var n := if |a.items| < |vs| then |a.items| else |vs|;
        if n == 0 then Ok(Node([]))
        else
          assert a.items[0] in a.items;
          var first := PadSpec(p.shape, a.items[0], s[1..], Scalar(vs[0]));
          if first.Err? then Err(first.error)
          else Ok(Node(seq(n, i requires 0 <= i < n =>
            assert a.items[i] in a.items;
            PadSpec(p.shape, a.items[i], s[1..], Scalar(vs[i])).value)))
    else if |s| - |p.shape| == 0 then
      PadSpec(p.shape, a, s, p.fillValue)
    else
      Err(WrongInputShape)
  }

  /** On a channel-first volume whose channels fit the target, `__call__`
      yields one padded channel per paired fill value, each of exactly the
      target shape. With no channels nothing is paired and the result is the
      empty array, which numpy builds with the 1-D shape (0,). */
  lemma CallChannelsFit(p: Padding, a: Nd, s: seq<nat>)
    requires HasShape(a, s) && Constructed(p)
    requires |s| == |p.shape| + 1 && |p.shape| > 0 && Fits(s[1..], p.shape)
    requires p.fillValue.PerChannel?
    ensures CallSpec(p, a, s).Ok?
    ensures Resized(s[1..], p.shape) == p.shape
    ensures HasShape(CallSpec(p, a, s).value,
      [if s[0] < p.nbChannels then s[0] else p.nbChannels] + Resized(s[1..], p.shape))
    ensures s[0] == 0 <==> CallSpec(p, a, s).value == Node([])
  {
    var vs := p.fillValue.vs;
    var n := if s[0] < |vs| then s[0] else |vs|;
    assert Resized(s[1..], p.shape) == p.shape;
    if n > 0 {
      assert a.items[0] in a.items;
    }
    var r := CallSpec(p, a, s);
    forall x | x in r.value.items ensures HasShape(x, Resized(s[1..], p.shape)) {
      var i :| 0 <= i < |r.value.items| && r.value.items[i] == x;
      assert a.items[i] in a.items;
    }
  }

  /** `Padding.__call__`: the channel path appends one padded channel per
      iteration to `data`, then stacks them. */
  method Call(p: Padding, a: Nd, s: seq<nat>) returns (r: Result<Nd, PadError>)
    requires HasShape(a, s) && Constructed(p)
    ensures r == CallSpec(p, a, s)
  {
    if |s| - |p.shape| == 1 {
      if p.fillValue.Scalar? {
        return Err(FillNotIterable);
      }
      var vs := p.fillValue.vs;
      var n := if |a.items| < |vs| then |a.items| else |vs|;
      var data: seq<Nd> := [];
      for i := 0 to n
        invariant |data| == i
        invariant forall j :: 0 <= j < i ==>
          a.items[j] in a.items && PadSpec(p.shape, a.items[j], s[1..], Scalar(vs[j])) == Ok(data[j])
      {
        assert a.items[i] in a.items;
        var channel := ApplyPadding(p, a.items[i], s[1..], Scalar(vs[i]));
        if channel.Err? {
          assert a.items[0] in a.items;
          assert PadSpec(p.shape, a.items[0], s[1..], Scalar(vs[0])).Err?;
          return Err(channel.error);
        }
        data := data + [channel.value];
      }
      if n > 0 {
        assert a.items[0] in a.items;
        assert PadSpec(p.shape, a.items[0], s[1..], Scalar(vs[0])).Ok?;
      }
      assert data == seq(n, i requires 0 <= i < n =>
        assert a.items[i] in a.items;
        PadSpec(p.shape, a.items[i], s[1..], Scalar(vs[i])).value);
      r := Ok(Node(data));
    } else if |s| - |p.shape| == 0 {
      r := ApplyPadding(p, a, s, p.fillValue);
    } else {
      r := Err(WrongInputShape);
    }
  }
}
