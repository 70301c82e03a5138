/** SimCLR/utils/plots/visualize_tsne.py: accumulating the embeddings of the
    two views of every sample, and the choices plot_tsne and mscatter make.
    The network is a function `net` from an input view to an output row of
    an abstract vector type, so nothing here depends on its numerics. */
module VisualizeTsne {
  import opened Wrappers

  /** The two augmented views of one sample, in their fixed order. */
  datatype ViewPair<I> = ViewPair(view0: I, view1: I)

  /** One batch from the loader: `inputs[:, 0, :]` and `inputs[:, 1, :]`. */
  type Batch<I> = seq<ViewPair<I>>

  datatype EmbeddingError =
    | ZeroWidthView  // `view(-1, 0)` of a tensor with no elements: RuntimeError
    | SizeMismatch   // torch.cat of rows of different widths

  /** Number of samples in the batches. */
  function TotalSize<I>(batches: seq<Batch<I>>): nat {
    if batches == [] then 0 else TotalSize(batches[..|batches| - 1]) + |batches[|batches| - 1]|
  }

  /** Rows one batch contributes: `torch.cat([X_i, X_j], dim=-1)` reshaped by
      `.view(-1, X_i.shape[-1])`, so that the two views of sample k become
      rows 2k and 2k+1. */
  function Interleave<I, V>(batch: Batch<I>, net: I -> V): (rows: seq<V>)
    ensures |rows| == 2 * |batch|
    ensures forall k :: 0 <= k < |batch| ==>
      rows[2 * k] == net(batch[k].view0) && rows[2 * k + 1] == net(batch[k].view1)
  {
    if batch == [] then []
    else [net(batch[0].view0), net(batch[0].view1)] + Interleave(batch[1..], net)
  }

  /** The matrix `X` after the given batches: each batch's rows are appended
      after all earlier rows. */
  function Embeddings<I, V>(batches: seq<Batch<I>>, net: I -> V): (x: seq<V>)
    ensures |x| == 2 * TotalSize(batches)
  {
    if batches == [] then []
    else Embeddings(batches[..|batches| - 1], net) + Interleave(batches[|batches| - 1], net)
  }

  /** Appending a batch leaves every earlier row where it was; the new
      batch's block starts at row 2 * (samples seen so far). */
  lemma EmbeddingsAppend<I, V>(batches: seq<Batch<I>>, b: Batch<I>, net: I -> V)
    ensures Embeddings(batches + [b], net) == Embeddings(batches, net) + Interleave(b, net)
    ensures TotalSize(batches + [b]) == TotalSize(batches) + |b|
  {
    assert (batches + [b])[..|batches|] == batches;
  }

  /** Earlier rows never change: the matrix after a prefix of the batches is
      a prefix of the final matrix. */
  lemma {:induction false} EmbeddingsPrefix<I, V>(batches: seq<Batch<I>>, n: nat, net: I -> V)
    requires n <= |batches|
    ensures TotalSize(batches[..n]) <= TotalSize(batches)
    ensures Embeddings(batches, net)[..2 * TotalSize(batches[..n])] == Embeddings(batches[..n], net)
    decreases |batches| - n
  {
    if n < |batches| {
      EmbeddingsPrefix(batches, n + 1, net);
      var p := batches[..n + 1];
      assert p[..|p| - 1] == batches[..n];
      assert batches[..n + 1] == batches[..n] + [batches[n]];
      EmbeddingsAppend(batches[..n], batches[n], net);
      var m := 2 * TotalSize(batches[..n]);
      assert Embeddings(batches[..n + 1], net)[..m] == Embeddings(batches[..n], net);
    } else {
      assert batches[..n] == batches;
    }
  }

  /** Where every embedding lands: the views of sample k of batch b are rows
      2 * (samples in earlier batches) + 2k and that row + 1. */
  lemma EmbeddingsRows<I, V>(batches: seq<Batch<I>>, net: I -> V, b: nat, k: nat)
    requires b < |batches| && k < |batches[b]|
    ensures var row := 2 * TotalSize(batches[..b]) + 2 * k;
      row + 1 < |Embeddings(batches, net)| &&
      Embeddings(batches, net)[row] == net(batches[b][k].view0) &&
      Embeddings(batches, net)[row + 1] == net(batches[b][k].view1)
  {
    var pre := batches[..b];
    var upto := Embeddings(batches[..b + 1], net);
    var full := Embeddings(batches, net);
    EmbeddingsPrefix(batches, b + 1, net);
    assert batches[..b + 1] == pre + [batches[b]];
    EmbeddingsAppend(pre, batches[b], net);
    var block := Interleave(batches[b], net);
    var start := 2 * TotalSize(pre);
    assert upto == Embeddings(pre, net) + block;
    assert |upto| == start + |block|;
    var row := start + 2 * k;
    assert upto[row] == block[2 * k] && upto[row + 1] == block[2 * k + 1];
    assert full[..|upto|] == upto;
    assert full[row] == upto[row] && full[row + 1] == upto[row + 1];
  }

  /** All samples of the batches, in loader order. */
  function Flatten<I>(batches: seq<Batch<I>>): (samples: seq<ViewPair<I>>)
    ensures |samples| == TotalSize(batches)
  {
    if batches == [] then [] else Flatten(batches[..|batches| - 1]) + batches[|batches| - 1]
  }

  lemma {:induction false} InterleaveConcat<I, V>(a: Batch<I>, b: Batch<I>, net: I -> V)
    ensures Interleave(a + b, net) == Interleave(a, net) + Interleave(b, net)
  {
    if a == [] {
      assert a + b == b;
    } else {
      assert (a + b)[0] == a[0] && (a + b)[1..] == a[1..] + b;
      InterleaveConcat(a[1..], b, net);
    }
  }

  /** Batching does not matter: the matrix is the interleaving of all samples
      taken in loader order. */
  lemma {:induction false} EmbeddingsFlatten<I, V>(batches: seq<Batch<I>>, net: I -> V)
    ensures Embeddings(batches, net) == Interleave(Flatten(batches), net)
  {
    if batches != [] {
      var n := |batches| - 1;
      EmbeddingsFlatten(batches[..n], net);
      InterleaveConcat(Flatten(batches[..n]), batches[n], net);
    }
  }

  /** `compute_embeddings_skeletons`: starts from an empty matrix with
      `num_outputs` columns and appends the interleaved rows of every batch.
      `width` is the width of the network's output rows; concatenating rows
      of another width onto the accumulator fails. */
  method ComputeEmbeddingsSkeletons<I, V>(loader: seq<Batch<I>>, net: I -> V, width: nat, numOutputs: nat)
    returns (x: Result<seq<V>, EmbeddingError>)
    ensures loader == [] ==> x == Ok([])
    ensures loader != [] && width == 0 ==> x == Err(ZeroWidthView)
    ensures loader != [] && width > 0 && width != numOutputs ==> x == Err(SizeMismatch)
    ensures x.Ok? <==> loader == [] || (width == numOutputs && width > 0)
    ensures x.Ok? ==> x.value == Embeddings(loader, net) && |x.value| == 2 * TotalSize(loader)
  {
    var acc: seq<V> := [];
    for i := 0 to |loader|
      invariant acc == Embeddings(loader[..i], net)
      invariant i > 0 ==> width == numOutputs && width > 0
    {
      var reordered := Interleave(loader[i], net);
      if width == 0 {
        return Err(ZeroWidthView);
      }
      if width != numOutputs {
        return Err(SizeMismatch);
      }
      EmbeddingsAppend(loader[..i], loader[i], net);
      assert loader[..i + 1] == loader[..i] + [loader[i]];
      acc := acc + reordered;
    }
    assert loader[..|loader|] == loader;
    x := Ok(acc);
  }

  // ---------------------------------------------------------------------
  // plot_tsne and mscatter
  // ---------------------------------------------------------------------

  /** The colour argument of the scatter: a list of colour names, or the
      caller's labels. */
  datatype Colours<L> = Names(names: seq<string>) | Labels(labels: seq<L>)

  /** `np.tile(["b", "r"], reps)`. */
  function TileBlueRed(reps: nat): (r: seq<string>)
    ensures |r| == 2 * reps
    ensures forall i :: 0 <= i < |r| ==> r[i] == (if i % 2 == 0 then "b" else "r")
  {
    if reps == 0 then [] else ["b", "r"] + TileBlueRed(reps - 1)
  }

  /** Colour choice in `plot_tsne`: without labels, alternate blue and red
      over `nb_points // 2` pairs, one colour short of the points when their
      number is odd; with labels, exactly the labels. */
  function PointColours<L>(nbPoints: nat, labels: Option<seq<L>>): (c: Colours<L>)
    ensures labels.None? ==>
      c.Names? && |c.names| == 2 * (nbPoints / 2) &&
      (nbPoints % 2 == 1 ==> |c.names| == nbPoints - 1) &&
      forall i :: 0 <= i < |c.names| ==> c.names[i] == (if i % 2 == 0 then "b" else "r")
    ensures labels.Some? ==> c == Labels(labels.value)
  {
    match labels
    case None => Names(TileBlueRed(nbPoints / 2))
    case Some(l) => Labels(l)
  }

  /** A per-point marker: a MarkerStyle object, or a marker code to build one from. */
  datatype Marker<S> = Style(style: S) | Code(code: string)

  /** The MarkerStyle `mscatter` takes from a marker: a MarkerStyle is used
      as it is, a code is turned into one. */
  function MarkerObject<S>(m: Marker<S>, styleOf: string -> S): (s: S)
    ensures m.Style? ==> s == m.style
    ensures m.Code? ==> s == styleOf(m.code)
  {
    match m
    case Style(s) => s
    case Code(c) => styleOf(c)
  }

  /** `mscatter`: the per-point marker paths are set on the scatter only when
      markers are given and there is one per point; otherwise the scatter is
      left untouched (None). `pathOf` stands for `get_path().transformed(...)`. */
  method MScatter<S, P>(nbPoints: nat, m: Option<seq<Marker<S>>>, styleOf: string -> S, pathOf: S -> P)
    returns (paths: Option<seq<P>>)
    ensures paths.Some? <==> m.Some? && |m.value| == nbPoints
    ensures paths.Some? ==>
      |paths.value| == nbPoints &&
      forall i :: 0 <= i < nbPoints ==> paths.value[i] == pathOf(MarkerObject(m.value[i], styleOf))
  {
    if m.None? || |m.value| != nbPoints {
      return None;
    }
    var acc: seq<P> := [];
    for i := 0 to |m.value|
      invariant |acc| == i
      invariant forall j :: 0 <= j < i ==> acc[j] == pathOf(MarkerObject(m.value[j], styleOf))
    {
      var markerObj: S;
      match m.value[i] {
        case Style(s) => markerObj := s;
        case Code(c) => markerObj := styleOf(c);
      }
      acc := acc + [pathOf(markerObj)];
    }
    paths := Some(acc);
  }

  /** Where `plot_tsne` sends the figure. */
  datatype Output = ImageBuffer | SavedTo(path: string) | Shown

  /** An image buffer when asked for, which takes precedence; otherwise a PNG
      file under a non-empty save path; otherwise the figure is shown. */
  function OutputTarget(buffer: bool, savepath: Option<string>, kind: string): (o: Output)
    ensures o.ImageBuffer? <==> buffer
    ensures o.SavedTo? <==> !buffer && savepath.Some? && savepath.value != ""
    ensures o.Shown? <==> !buffer && (savepath.None? || savepath.value == "")
    ensures o.SavedTo? ==>
      o.path == savepath.value + "/tsne_" + kind + ".png" && o.path[..|savepath.value|] == savepath.value
  {
    if buffer then ImageBuffer
    else if savepath.Some? && savepath.value != "" then SavedTo(savepath.value + "/tsne_" + kind + ".png")
    else Shown
  }

  /** How many colours the scatter is given. */
  function ColourCount<L>(c: Colours<L>): nat {
    match c
    case Names(names) => |names|
    case Labels(labels) => |labels|
  }

  /** matplotlib's `scatter` takes no colour, one colour for all points, or
      one colour per point, and raises ValueError otherwise. */
  predicate ScatterAccepts(count: nat, nbPoints: nat) {
    count == 0 || count == 1 || count == nbPoints
  }

  /** When the colours chosen by `plot_tsne` are refused: without labels
      exactly for an odd number of points from three on (the tiling is one
      short), with labels exactly when their count is not 0, 1 or the number
      of points. */
  lemma PointColoursRefused<L>(nbPoints: nat, labels: Option<seq<L>>)
    ensures labels.None? ==>
      (!ScatterAccepts(ColourCount(PointColours(nbPoints, labels)), nbPoints) <==>
       nbPoints % 2 == 1 && nbPoints >= 3)
    ensures labels.Some? ==>
      (!ScatterAccepts(ColourCount(PointColours(nbPoints, labels)), nbPoints) <==>
       |labels.value| !in {0, 1, nbPoints})
  {
  }

  /** The scatter's colour check failed: ValueError from matplotlib. */
  datatype PlotError = ColourCountMismatch

  /** What one call of `plot_tsne` draws and where it goes. */
  datatype TsnePlot<L, P> = TsnePlot(colours: Colours<L>, paths: Option<seq<P>>, output: Output)

  /** `plot_tsne`: every point gets the "o" marker, so the marker condition of
      `mscatter` always holds and every point's path is set. The scatter
      refuses a colour list of the wrong length, and then nothing is saved or
      shown. */
  method PlotTsne<L, S, P>(nbPoints: nat, buffer: bool, labels: Option<seq<L>>, savepath: Option<string>,
                           kind: string, styleOf: string -> S, pathOf: S -> P)
    returns (r: Result<TsnePlot<L, P>, PlotError>)
    ensures r.Err? <==> !ScatterAccepts(ColourCount(PointColours(nbPoints, labels)), nbPoints)
    ensures r.Ok? ==> r.value.colours == PointColours(nbPoints, labels)
    ensures r.Ok? ==> r.value.paths.Some? && |r.value.paths.value| == nbPoints
    ensures r.Ok? ==> forall i :: 0 <= i < nbPoints ==> r.value.paths.value[i] == pathOf(styleOf("o"))
    ensures r.Ok? ==> r.value.output == OutputTarget(buffer, savepath, kind)
  {
    var m: seq<Marker<S>> := seq(nbPoints, _ => Code("o"));
    var c := PointColours(nbPoints, labels);
    if !ScatterAccepts(ColourCount(c), nbPoints) {
      return Err(ColourCountMismatch);
    }
    var paths := MScatter(nbPoints, Some(m), styleOf, pathOf);
    r := Ok(TsnePlot(c, paths, OutputTarget(buffer, savepath, kind)));
  }
}
