/** SimCLR/evaluation/validate_and_clusterize.py: after validation, keep the
    first view of every sample, coarsen an Affinity-Propagation clustering
    until at most five clusters remain, and assemble the result record.
    Affinity Propagation itself is an oracle: a fit function, the exemplar
    indices and labels of a fit, and prediction with a fitted model. */
module ValidateAndClusterize {
  import opened Wrappers
  import opened PyDict
  import opened VisualizeTsne

  // ---------------------------------------------------------------------
  // First-view selection
  // ---------------------------------------------------------------------

  /** `embeddings[np.arange(n // 2) * 2, :]`: row k of the result is row 2k. */
  function FirstViews<V>(embeddings: seq<V>): (r: seq<V>)
    ensures |r| == |embeddings| / 2
    ensures forall k :: 0 <= k < |r| ==> r[k] == embeddings[2 * k]
  {
    seq(|embeddings| / 2, k requires 0 <= k < |embeddings| / 2 => embeddings[2 * k])
  }

  /** `filenames[::2]`: positions 0, 2, 4, ... */
  function EveryOther<T>(s: seq<T>): (r: seq<T>)
    ensures |r| == (|s| + 1) / 2
    ensures forall k :: 0 <= k < |r| ==> r[k] == s[2 * k]
  {
    seq((|s| + 1) / 2, k requires 0 <= k < (|s| + 1) / 2 => s[2 * k])
  }

  /** The two selections stay aligned row by row, and have the same length
      exactly when the number of rows is even; with an odd number of rows the
      filenames keep one entry more than the embeddings. */
  lemma SelectionAlignment<V, T>(embeddings: seq<V>, filenames: seq<T>)
    requires |embeddings| == |filenames|
    ensures |FirstViews(embeddings)| == |EveryOther(filenames)| <==> |embeddings| % 2 == 0
    ensures |embeddings| % 2 == 1 ==> |EveryOther(filenames)| == |FirstViews(embeddings)| + 1
    ensures forall k :: 0 <= k < |FirstViews(embeddings)| ==>
      FirstViews(embeddings)[k] == embeddings[2 * k] && EveryOther(filenames)[k] == filenames[2 * k]
  {
  }

  /** Selecting the first views of the matrix built by
      `compute_embeddings_skeletons` gives exactly the view-0 embedding of
      every sample, in loader order. */
  lemma FirstViewsOfEmbeddings<I, V>(batches: seq<Batch<I>>, net: I -> V)
    ensures FirstViews(Embeddings(batches, net)) ==
      seq(TotalSize(batches), i requires 0 <= i < TotalSize(batches) => net(Flatten(batches)[i].view0))
  {
    EmbeddingsFlatten(batches, net);
  }

  // ---------------------------------------------------------------------
  // Affinity Propagation as an oracle
  // ---------------------------------------------------------------------

  /** `AffinityPropagation().fit(X)`, and of a fitted model F its
      `cluster_centers_indices_`, its `labels_` and its `predict(X)`. */
  datatype AffinityPropagation<!V, !F> = AffinityPropagation(
    fit: seq<V> -> F,
    centers: F -> seq<nat>,
    labels: F -> seq<int>,
    predict: (F, seq<V>) -> seq<int>)

  predicate StrictlyIncreasing(s: seq<nat>) {
    forall i, j :: 0 <= i < j < |s| ==> s[i] < s[j]
  }

  predicate IndicesBelow(s: seq<nat>, n: nat) {
    forall i :: 0 <= i < |s| ==> s[i] < n
  }

  /** What scikit-learn promises of the estimator: exemplar indices are
      ascending positions within the fitted rows, and there is one label per
      fitted row and one predicted label per row to predict. */
  ghost predicate WellBehaved<V(!new), F(!new)>(ap: AffinityPropagation<V, F>) {
    && (forall rows: seq<V> ::
          StrictlyIncreasing(ap.centers(ap.fit(rows))) && IndicesBelow(ap.centers(ap.fit(rows)), |rows|))
    && (forall rows: seq<V> :: |ap.labels(ap.fit(rows))| == |rows|)
    && (forall f: F, x: seq<V> :: |ap.predict(f, x)| == |x|)
  }

  /** An ascending sequence of positions below n has at most n entries. */
  lemma IncreasingBelowLength(s: seq<nat>, n: nat)
    requires StrictlyIncreasing(s) && IndicesBelow(s, n)
    ensures |s| <= n
  {
    if |s| > 0 {
      var i := 0;
      while i < |s| - 1
        invariant 0 <= i <= |s| - 1 && s[i] >= i
      {
        i := i + 1;
      }
    }
  }

  /** `rows[idx]` (numpy fancy indexing). */
  function Select<V>(rows: seq<V>, idx: seq<nat>): (r: seq<V>)
    requires IndicesBelow(idx, |rows|)
    ensures |r| == |idx| && forall j :: 0 <= j < |idx| ==> r[j] == rows[idx[j]]
  {
    seq(|idx|, j requires 0 <= j < |idx| => rows[idx[j]])
  }

  datatype CoarsenError =
    | UnboundLabel      // `x_cluster_label` read before any assignment: UnboundLocalError
    | OutOfFuel         // the loop was still running when the fuel ran out
    | ConvergenceStall  // a refit did not reduce the number of exemplars

  // ---------------------------------------------------------------------
  // The coarsening loop as written
  // ---------------------------------------------------------------------

  /** Rows given to the k-th fit of the loop as written. The 0-th fit sees
      the whole matrix; each refit sees the rows of the WHOLE matrix at the
      previous fit's exemplar indices, although from the second refit on
      those indices are positions within the previous subset. */
  function AsWrittenRows<V(!new), F(!new)>(emb: seq<V>, ap: AffinityPropagation<V, F>, k: nat): (rows: seq<V>)
    requires WellBehaved(ap)
    ensures |rows| <= |emb|
  {
    if k == 0 then emb
    else
      var prev := AsWrittenRows(emb, ap, k - 1);
      var c := ap.centers(ap.fit(prev));
      IncreasingBelowLength(c, |prev|);
      Select(emb, c)
  }

  function AsWrittenFit<V(!new), F(!new)>(emb: seq<V>, ap: AffinityPropagation<V, F>, k: nat): F
    requires WellBehaved(ap)
  {
    ap.fit(AsWrittenRows(emb, ap, k))
  }

  /** `n_clusters_` after the k-th fit. */
  function AsWrittenCount<V(!new), F(!new)>(emb: seq<V>, ap: AffinityPropagation<V, F>, k: nat): nat
    requires WellBehaved(ap)
  {
    |ap.centers(AsWrittenFit(emb, ap, k))|
  }

  datatype Coarsening = Coarsening(labels: seq<int>, nClusters: nat, refits: nat)

  /** Lines 134-143 as written, with `fuel` bounding the number of refits
      because the loop has no termination guarantee. The loop exits normally
      only once at most five exemplars remain; when the first fit already has
      at most five, the body never runs and the label vector is unbound. */
  method CoarsenAsWritten<V(!new), F(!new)>(emb: seq<V>, ap: AffinityPropagation<V, F>, fuel: nat)
    returns (r: Result<Coarsening, CoarsenError>)
    requires WellBehaved(ap)
    ensures r == Err(UnboundLabel) <==> AsWrittenCount(emb, ap, 0) <= 5
    ensures r == Err(OutOfFuel) <==> forall k :: 0 <= k <= fuel ==> AsWrittenCount(emb, ap, k) > 5
    ensures r.Err? ==> r.error != ConvergenceStall
    ensures r.Ok? ==>
      && 1 <= r.value.refits <= fuel
      && (forall k :: 0 <= k < r.value.refits ==> AsWrittenCount(emb, ap, k) > 5)
      && r.value.nClusters == AsWrittenCount(emb, ap, r.value.refits) <= 5
      && r.value.labels == ap.predict(AsWrittenFit(emb, ap, r.value.refits), emb)
      && |r.value.labels| == |emb|
  {
    var af := ap.fit(emb);
    var clusterLabelsIni := ap.labels(af);
    var initialCenters := ap.centers(af);
    var nClusters := |initialCenters|;
    var xClusterLabel: Option<seq<int>> := None;
    var refits := 0;
    while nClusters > 5
      invariant 0 <= refits <= fuel
      invariant af == AsWrittenFit(emb, ap, refits)
      invariant nClusters == AsWrittenCount(emb, ap, refits)
      invariant forall k :: 0 <= k < refits ==> AsWrittenCount(emb, ap, k) > 5
      invariant xClusterLabel.None? <==> refits == 0
      invariant refits > 0 ==> xClusterLabel == Some(ap.predict(af, emb))
      decreases fuel - refits
    {
      if refits == fuel {
        return Err(OutOfFuel);
      }
      IncreasingBelowLength(ap.centers(af), |AsWrittenRows(emb, ap, refits)|);
      af := ap.fit(Select(emb, ap.centers(af)));
      var centerClusterLabels := ap.labels(af);
      xClusterLabel := Some(ap.predict(af, emb));
      nClusters := |ap.centers(af)|;
      refits := refits + 1;
    }
    if xClusterLabel.None? {
      return Err(UnboundLabel);
    }
    r := Ok(Coarsening(xClusterLabel.value, nClusters, refits));
  }

  // ---------------------------------------------------------------------
  // The coarsening loop as intended
  // ---------------------------------------------------------------------

  /** An ascending list of n positions below n lists every position. */
  lemma {:induction false} FullIncreasingIsIdentity(c: seq<nat>, n: nat)
    requires StrictlyIncreasing(c) && IndicesBelow(c, n) && |c| == n
    ensures forall j :: 0 <= j < n ==> c[j] == j
  {
    if n > 0 {
      var last := c[..n - 1];
      assert IndicesBelow(last, n - 1) by {
        forall j | 0 <= j < n - 1 ensures last[j] < n - 1 {
          assert c[j] < c[n - 1] < n;
        }
      }
      FullIncreasingIsIdentity(last, n - 1);
      assert c[n - 1] == n - 1 by {
        if n > 1 {
          assert c[n - 2] == n - 2 && c[n - 2] < c[n - 1];
        }
      }
    }
  }

  /** Mapped back through the subset it was given, a refit that keeps as
      many exemplars as it was given keeps every one of them. */
  lemma StallRepeats(idx: seq<nat>, c: seq<nat>)
    requires StrictlyIncreasing(c) && IndicesBelow(c, |idx|) && |c| >= |idx|
    ensures Select(idx, c) == idx
  {
    IncreasingBelowLength(c, |idx|);
    FullIncreasingIsIdentity(c, |idx|);
  }

  /** Positions picked from an ascending list at ascending positions are
      ascending, and stay below any bound of the list. */
  lemma SelectIncreasing(idx: seq<nat>, c: seq<nat>, n: nat)
    requires StrictlyIncreasing(idx) && IndicesBelow(idx, n)
    requires StrictlyIncreasing(c) && IndicesBelow(c, |idx|)
    ensures StrictlyIncreasing(Select(idx, c)) && IndicesBelow(Select(idx, c), n)
  {
    var r := Select(idx, c);
    forall i, j | 0 <= i < j < |r| ensures r[i] < r[j] {
      assert c[i] < c[j];
    }
  }

  /** The exemplars, as rows of the whole matrix, after the k-th fit of the
      corrected loop: the first fit's exemplars, then at every refit the
      refitted positions mapped back through the previous exemplars. */
  function Exemplars<V(!new), F(!new)>(emb: seq<V>, ap: AffinityPropagation<V, F>, k: nat): (e: seq<nat>)
    requires WellBehaved(ap)
    ensures StrictlyIncreasing(e) && IndicesBelow(e, |emb|)
    ensures forall j :: 0 <= j < |e| ==> e[j] in Exemplars(emb, ap, 0)
  {
    if k == 0 then ap.centers(ap.fit(emb))
    else
      var prev := Exemplars(emb, ap, k - 1);
      var c := ap.centers(ap.fit(Select(emb, prev)));
      SelectIncreasing(prev, c, |emb|);
      Select(prev, c)
  }

  /** The fitted model of the k-th refit (k >= 1) of the corrected loop. */
  function Refit<V(!new), F(!new)>(emb: seq<V>, ap: AffinityPropagation<V, F>, k: nat): F
    requires WellBehaved(ap) && k >= 1
  {
    ap.fit(Select(emb, Exemplars(emb, ap, k - 1)))
  }

  /** The k-th fit still has more than five exemplars, and the refit after
      it keeps fewer. */
  predicate Shrinks<V(!new), F(!new)>(emb: seq<V>, ap: AffinityPropagation<V, F>, k: nat)
    requires WellBehaved(ap)
  {
    |Exemplars(emb, ap, k)| > 5 && |Exemplars(emb, ap, k + 1)| < |Exemplars(emb, ap, k)|
  }

  /** The loop reaches the k-th fit with more than five exemplars, every
      earlier refit having shrunk the set, and the refit after it does not. */
  predicate StallsAt<V(!new), F(!new)>(emb: seq<V>, ap: AffinityPropagation<V, F>, k: nat)
    requires WellBehaved(ap)
  {
    && (forall j :: 0 <= j < k ==> Shrinks(emb, ap, j))
    && |Exemplars(emb, ap, k)| > 5
    && |Exemplars(emb, ap, k + 1)| >= |Exemplars(emb, ap, k)|
  }

  /** Every refit that shrinks removes at least one exemplar, so the loop
      can refit at most as often as the first fit has exemplars. */
  lemma {:induction false} ShrinkingBound<V(!new), F(!new)>(emb: seq<V>, ap: AffinityPropagation<V, F>, k: nat)
    requires WellBehaved(ap)
    requires forall j :: 0 <= j < k ==> Shrinks(emb, ap, j)
    ensures |Exemplars(emb, ap, k)| + k <= |Exemplars(emb, ap, 0)|
  {
    if k > 0 {
      ShrinkingBound(emb, ap, k - 1);
      assert Shrinks(emb, ap, k - 1);
    }
  }

  /** Once the loop ends with at most five exemplars it has not stalled on
      the way, so stalling and ending normally exclude each other. */
  lemma NoStallBeforeEnd<V(!new), F(!new)>(emb: seq<V>, ap: AffinityPropagation<V, F>, n: nat)
    requires WellBehaved(ap)
    requires forall j :: 0 <= j < n ==> Shrinks(emb, ap, j)
    requires |Exemplars(emb, ap, n)| <= 5
    ensures forall k: nat :: !StallsAt(emb, ap, k)
  {
    forall k: nat ensures !StallsAt(emb, ap, k) {
      if k < n {
        assert Shrinks(emb, ap, k);
      } else if k > n {
        assert !Shrinks(emb, ap, n);
      }
    }
  }

  /** One refit of the corrected loop: the rows at the current exemplars
      are refitted and the new positions mapped back through them. */
  lemma ExemplarsStep<V(!new), F(!new)>(emb: seq<V>, ap: AffinityPropagation<V, F>, k: nat)
    requires WellBehaved(ap)
    ensures Refit(emb, ap, k + 1) == ap.fit(Select(emb, Exemplars(emb, ap, k)))
    ensures Exemplars(emb, ap, k + 1) == Select(Exemplars(emb, ap, k), ap.centers(Refit(emb, ap, k + 1)))
  {
  }

  /** In the corrected loop without its stall check, a refit that does not
      shrink the exemplars keeps exactly the same rows, so the next refit
      sees the same rows again and, Affinity Propagation being a function of
      its rows, keeps them too: the loop would repeat for ever. This is why
      the corrected loop reports a stall instead. */
  lemma CorrectedStallRepeats<V(!new), F(!new)>(emb: seq<V>, ap: AffinityPropagation<V, F>, k: nat)
    requires WellBehaved(ap)
    requires |Exemplars(emb, ap, k + 1)| >= |Exemplars(emb, ap, k)|
    ensures Exemplars(emb, ap, k + 1) == Exemplars(emb, ap, k)
    ensures Exemplars(emb, ap, k + 2) == Exemplars(emb, ap, k + 1)
  {
    var e := Exemplars(emb, ap, k);
    ExemplarsStep(emb, ap, k);
    var c := ap.centers(Refit(emb, ap, k + 1));
    assert |Select(emb, e)| == |e|;
    StallRepeats(e, c);
    ExemplarsStep(emb, ap, k + 1);
  }

  /** One pass of the corrected loop's body at fit k: a refit that does not
      shrink is a stall at k, one that shrinks extends the run of shrinking
      refits. */
  lemma CoarsenStep<V(!new), F(!new)>(emb: seq<V>, ap: AffinityPropagation<V, F>, k: nat)
    requires WellBehaved(ap)
    requires forall j :: 0 <= j < k ==> Shrinks(emb, ap, j)
    requires |Exemplars(emb, ap, k)| > 5
    ensures |Exemplars(emb, ap, k + 1)| >= |Exemplars(emb, ap, k)| ==> StallsAt(emb, ap, k)
    ensures |Exemplars(emb, ap, k + 1)| < |Exemplars(emb, ap, k)| ==>
      forall j :: 0 <= j < k + 1 ==> Shrinks(emb, ap, j)
  {
  }

  datatype Clustering = Clustering(labels: seq<int>, exemplars: seq<nat>, refits: nat)

  /** The coarsening loop with its three defects corrected: exemplar indices
      are mapped back to rows of the whole matrix before each refit, the
      labels start as the first fit's `labels_` so that they are always
      bound, and a refit that does not shrink the exemplar set is reported
      as a stall. It always terminates. */
  method Coarsen<V(!new), F(!new)>(emb: seq<V>, ap: AffinityPropagation<V, F>) returns (r: Result<Clustering, CoarsenError>)
    requires WellBehaved(ap)
    ensures r.Err? ==> r.error == ConvergenceStall
    ensures r.Err? <==> exists k: nat :: StallsAt(emb, ap, k)
    ensures r.Ok? ==>
      && (forall j :: 0 <= j < r.value.refits ==> Shrinks(emb, ap, j))
      && r.value.exemplars == Exemplars(emb, ap, r.value.refits)
      && |r.value.exemplars| <= 5
      && |r.value.labels| == |emb|
    ensures r.Ok? && r.value.refits > 0 ==> r.value.labels == ap.predict(Refit(emb, ap, r.value.refits), emb)
    ensures r.Ok? ==>
      StrictlyIncreasing(r.value.exemplars) &&
      forall j :: 0 <= j < |r.value.exemplars| ==> r.value.exemplars[j] in ap.centers(ap.fit(emb))
    ensures |ap.centers(ap.fit(emb))| <= 5 ==>
      r == Ok(Clustering(ap.labels(ap.fit(emb)), ap.centers(ap.fit(emb)), 0))
  {
    var af := ap.fit(emb);
    var clusterLabelsIni := ap.labels(af);
    var exemplars := ap.centers(af);
    var labels := clusterLabelsIni;
    var refits := 0;
    while |exemplars| > 5
      invariant exemplars == Exemplars(emb, ap, refits)
      invariant forall j :: 0 <= j < refits ==> Shrinks(emb, ap, j)
      invariant |labels| == |emb|
      invariant refits == 0 ==> labels == ap.labels(ap.fit(emb))
      invariant refits > 0 ==> labels == ap.predict(Refit(emb, ap, refits), emb)
      invariant |ap.centers(ap.fit(emb))| <= 5 ==> refits == 0
      decreases |exemplars|
    {
      af := ap.fit(Select(emb, exemplars));
      var next := Select(exemplars, ap.centers(af));
      ExemplarsStep(emb, ap, refits);
      CoarsenStep(emb, ap, refits);
      if |next| >= |exemplars| {
        return Err(ConvergenceStall);
      }
      labels := ap.predict(af, emb);
      exemplars := next;
      refits := refits + 1;
    }
    NoStallBeforeEnd(emb, ap, refits);
    r := Ok(Clustering(labels, exemplars, refits));
  }

  // ---------------------------------------------------------------------
  // Inputs that exhibit the defects of the loop as written
  // ---------------------------------------------------------------------

  function Range(n: nat): (r: seq<nat>)
    ensures |r| == n && forall i :: 0 <= i < n ==> r[i] == i
  {
    seq(n, i requires 0 <= i < n => i)
  }

  /** An estimator that makes every row its own exemplar. */
  function AllExemplars(): AffinityPropagation<int, seq<int>> {
    AffinityPropagation(FitRows, EveryRowCenters, ZeroLabels, PredictZero)
  }

  function EveryRowCenters(f: seq<int>): seq<nat> { Range(|f|) }

  lemma AllExemplarsWellBehaved()
    ensures WellBehaved(AllExemplars())
  {
  }

  /** With every row its own exemplar and more than five rows, every fit of
      the loop as written keeps all rows, so the loop never ends: for every
      fuel, `CoarsenAsWritten` reports OutOfFuel. */
  lemma {:induction false} AsWrittenNeverStops(emb: seq<int>, k: nat)
    requires |emb| > 5
    ensures WellBehaved(AllExemplars())
    ensures AsWrittenRows(emb, AllExemplars(), k) == emb
    ensures AsWrittenCount(emb, AllExemplars(), k) > 5
  {
    AllExemplarsWellBehaved();
    if k > 0 {
      AsWrittenNeverStops(emb, k - 1);
      assert Select(emb, Range(|emb|)) == emb;
    }
  }

  /** The same estimator on three rows: the first fit already has at most
      five exemplars, so the loop as written leaves its labels unbound,
      while the corrected loop returns the first fit's labels. */
  lemma FewRowsLeaveLabelUnbound()
    ensures WellBehaved(AllExemplars())
    ensures AsWrittenCount([7, 8, 9], AllExemplars(), 0) == 3
  {
    AllExemplarsWellBehaved();
  }

  const TenRows: seq<int> := [0, 1, 2, 3, 4, 5, 6, 7, 8, 9]

  /** An estimator on integer rows: more than six rows give the six
      exemplars 1..6, exactly six rows starting with 1 give six exemplars at
      positions 0..5, anything else a single exemplar. */
  function ShiftedExemplars(): AffinityPropagation<int, seq<int>> {
    AffinityPropagation(FitRows, ShiftedCenters, ZeroLabels, PredictZero)
  }

  function FitRows(rows: seq<int>): seq<int> { rows }

  function ShiftedCenters(f: seq<int>): seq<nat> {
    if |f| > 6 then [1, 2, 3, 4, 5, 6]
    else if |f| == 6 && f[0] == 1 then [0, 1, 2, 3, 4, 5]
    else if |f| > 0 then [0] else []
  }

  function ZeroLabels(f: seq<int>): seq<int> { seq(|f|, _ => 0) }

  function PredictZero(f: seq<int>, x: seq<int>): seq<int> { seq(|x|, _ => 0) }

  lemma ShiftedCentersAscending(f: seq<int>)
    ensures StrictlyIncreasing(ShiftedCenters(f)) && IndicesBelow(ShiftedCenters(f), |f|)
  {
  }

  lemma ShiftedExemplarsWellBehaved()
    ensures WellBehaved(ShiftedExemplars())
  {
    var ap := ShiftedExemplars();
    forall rows: seq<int>
      ensures StrictlyIncreasing(ap.centers(ap.fit(rows))) && IndicesBelow(ap.centers(ap.fit(rows)), |rows|)
    {
      ShiftedCentersAscending(rows);
    }
    forall rows: seq<int> ensures |ap.labels(ap.fit(rows))| == |rows| {
      assert ap.labels(ap.fit(rows)) == ZeroLabels(rows);
    }
    forall f: seq<int>, x: seq<int> ensures |ap.predict(f, x)| == |x| {
      assert ap.predict(f, x) == PredictZero(f, x);
    }
  }

  lemma ShiftedRefitRows(k: nat)
    requires WellBehaved(ShiftedExemplars())
    ensures AsWrittenRows(TenRows, ShiftedExemplars(), k + 1)
      == Select(TenRows, ShiftedCenters(AsWrittenRows(TenRows, ShiftedExemplars(), k)))
  {
  }

  lemma ShiftedCentersOnSamples()
    ensures ShiftedCenters(TenRows) == [1, 2, 3, 4, 5, 6]
    ensures ShiftedCenters([1, 2, 3, 4, 5, 6]) == [0, 1, 2, 3, 4, 5]
    ensures Select(TenRows, [1, 2, 3, 4, 5, 6]) == [1, 2, 3, 4, 5, 6]
    ensures Select(TenRows, [0, 1, 2, 3, 4, 5]) == [0, 1, 2, 3, 4, 5]
    ensures Select([1, 2, 3, 4, 5, 6], [0, 1, 2, 3, 4, 5]) == [1, 2, 3, 4, 5, 6]
  {
  }

  lemma ShiftedFirstRefit()
    requires WellBehaved(ShiftedExemplars())
    ensures AsWrittenRows(TenRows, ShiftedExemplars(), 1) == [1, 2, 3, 4, 5, 6]
  {
    ShiftedRefitRows(0);
    ShiftedCentersOnSamples();
  }

  lemma ShiftedSecondRefit()
    requires WellBehaved(ShiftedExemplars())
    ensures AsWrittenRows(TenRows, ShiftedExemplars(), 2) == [0, 1, 2, 3, 4, 5]
  {
    ShiftedFirstRefit();
    ShiftedRefitRows(1);
    ShiftedCentersOnSamples();
  }

  /** Ten rows 0..9: the first fit picks rows 1..6 and the first refit keeps
      all six of them, at positions 0..5 of the subset. The loop as written
      then refits rows 0..5 of the whole matrix, which includes row 0, never
      an exemplar; mapping the positions back through the subset would have
      refit rows 1..6 again. */
  lemma AsWrittenRefitsWrongRows()
    ensures WellBehaved(ShiftedExemplars())
    ensures AsWrittenRows(TenRows, ShiftedExemplars(), 2) == [0, 1, 2, 3, 4, 5]
    ensures 0 !in ShiftedCenters(TenRows)
    ensures Select([1, 2, 3, 4, 5, 6], ShiftedCenters([1, 2, 3, 4, 5, 6])) == [1, 2, 3, 4, 5, 6]
  {
    ShiftedExemplarsWellBehaved();
    ShiftedSecondRefit();
    ShiftedCentersOnSamples();
  }

  lemma CorrectedFirstFit()
    requires WellBehaved(ShiftedExemplars())
    ensures Exemplars(TenRows, ShiftedExemplars(), 0) == [1, 2, 3, 4, 5, 6]
  {
    ShiftedCentersOnSamples();
  }

  lemma CorrectedFirstRefit()
    requires WellBehaved(ShiftedExemplars())
    ensures Exemplars(TenRows, ShiftedExemplars(), 1) == [1, 2, 3, 4, 5, 6]
  {
    CorrectedFirstFit();
    ExemplarsStep(TenRows, ShiftedExemplars(), 0);
    ShiftedCentersOnSamples();
  }

  /** On the same ten rows the corrected loop maps the refit's positions
      0..5 back to rows 1..6, so its exemplars stay rows 1..6; the refit
      does not shrink them and the loop reports a stall at once. */
  lemma CorrectedRefitsRightRows()
    requires WellBehaved(ShiftedExemplars())
    ensures StallsAt(TenRows, ShiftedExemplars(), 0)
  {
    CorrectedFirstFit();
    CorrectedFirstRefit();
  }

  // ---------------------------------------------------------------------
  // The result record
  // ---------------------------------------------------------------------

  /** `result_dict` after its two updates: the validation metrics, then the
      silhouette entries, then the latent space size and temperature. */
  function Assembled(metrics: Dict, silhouette: Dict, latentSpaceSize: int, temperature: real): (r: Dict)
    requires UniqueKeys(metrics)
    ensures UniqueKeys(r)
    ensures "latent_space_size" in Keys(r) && "temperature" in Keys(r)
  {
    var config: Dict := [("latent_space_size", Int(latentSpaceSize)), ("temperature", Float(temperature))];
    var mid := UpdateAll(metrics, silhouette);
    ConfigEntries(latentSpaceSize, temperature);
    UpdateAllGet(mid, config, "latent_space_size");
    UpdateAllGet(mid, config, "temperature");
    UpdateAll(mid, config)
  }

  /** The configuration entries added last: two distinct keys. */
  lemma ConfigEntries(latentSpaceSize: int, temperature: real)
    ensures var config: Dict := [("latent_space_size", Int(latentSpaceSize)), ("temperature", Float(temperature))];
      && UniqueKeys(config)
      && Keys(config) == ["latent_space_size", "temperature"]
      && Get(config, "latent_space_size") == Some(Int(latentSpaceSize))
      && Get(config, "temperature") == Some(Float(temperature))
  {
    var config: Dict := [("latent_space_size", Int(latentSpaceSize)), ("temperature", Float(temperature))];
    assert "latent_space_size"[0] != "temperature"[0];
    assert Keys(config) == ["latent_space_size", "temperature"];
    GetAt(config, 0);
    GetAt(config, 1);
  }

  /** The configuration's latent size and temperature override everything. */
  lemma AssembledConfig(metrics: Dict, silhouette: Dict, latentSpaceSize: int, temperature: real)
    requires UniqueKeys(metrics)
    ensures Get(Assembled(metrics, silhouette, latentSpaceSize, temperature), "latent_space_size")
      == Some(Int(latentSpaceSize))
    ensures Get(Assembled(metrics, silhouette, latentSpaceSize, temperature), "temperature")
      == Some(Float(temperature))
  {
    var config: Dict := [("latent_space_size", Int(latentSpaceSize)), ("temperature", Float(temperature))];
    var mid := UpdateAll(metrics, silhouette);
    ConfigEntries(latentSpaceSize, temperature);
    UpdateAllGet(mid, config, "latent_space_size");
    UpdateAllGet(mid, config, "temperature");
  }

  /** Every other key holds its silhouette value if it has one, and its
      validation metric otherwise. */
  lemma AssembledOthers(metrics: Dict, silhouette: Dict, latentSpaceSize: int, temperature: real, k: string)
    requires UniqueKeys(metrics) && UniqueKeys(silhouette)
    requires k != "latent_space_size" && k != "temperature"
    ensures Get(Assembled(metrics, silhouette, latentSpaceSize, temperature), k)
      == if k in Keys(silhouette) then Get(silhouette, k) else Get(metrics, k)
  {
    var config: Dict := [("latent_space_size", Int(latentSpaceSize)), ("temperature", Float(temperature))];
    var mid := UpdateAll(metrics, silhouette);
    ConfigEntries(latentSpaceSize, temperature);
    UpdateAllGet(mid, config, k);
    UpdateAllGet(metrics, silhouette, k);
  }

  lemma PrefixOfPrefix(a: seq<string>, b: seq<string>, c: seq<string>)
    requires |a| <= |b| <= |c| && b[..|a|] == a && c[..|b|] == b
    ensures a <= c
  {
    assert c[..|a|] == c[..|b|][..|a|];
  }

  /** Every validation metric key is kept, in its original position. */
  lemma AssembledKeepsMetrics(metrics: Dict, silhouette: Dict, latentSpaceSize: int, temperature: real)
    requires UniqueKeys(metrics)
    ensures Keys(metrics) <= Keys(Assembled(metrics, silhouette, latentSpaceSize, temperature))
  {
    var config: Dict := [("latent_space_size", Int(latentSpaceSize)), ("temperature", Float(temperature))];
    var mid := UpdateAll(metrics, silhouette);
    var full := UpdateAll(mid, config);
    UpdateAllKeepsKeys(metrics, silhouette);
    UpdateAllKeepsKeys(mid, config);
    PrefixOfPrefix(Keys(metrics), Keys(mid), Keys(full));
  }

  /** Lines 86 and 152-156: `result_dict` is updated in place. */
  method AssembleResult(metrics: Dict, silhouette: Dict, latentSpaceSize: int, temperature: real)
    returns (record: ResultDict)
    requires UniqueKeys(metrics)
    ensures fresh(record) && record.Valid()
    ensures record.items == Assembled(metrics, silhouette, latentSpaceSize, temperature)
  {
    record := new ResultDict(metrics);
    record.Update(silhouette);
    record.Update([("latent_space_size", Int(latentSpaceSize)), ("temperature", Float(temperature))]);
  }
}
