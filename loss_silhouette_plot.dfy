// The cross-run aggregation of
// SimCLR/evaluation/plot_loss_silhouette_score_vs_latent_dimension.py: every
// run directory under the source directory holds a `result.json`; the
// script reads them in sorted path order into three aligned lists (latent
// space size, validation loss, silhouette score) that it then plots.
//
// The filesystem is a parameter: `listing` is what the glob of
// `<src_dir>/*` returns, in whatever order the operating system lists it,
// and `files` maps a run directory to the parsed contents of its
// `result.json` (no entry: the file cannot be opened or parsed).

module LossSilhouettePlot {
  import opened Wrappers
  import opened PyDict
  import opened StringOrder

  datatype CollectError =
    | Unreadable(dir: string)                // open/json.load fails
    | NotSubscriptable(dir: string)          // the record is not a JSON object
    | MissingKey(dir: string, key: string)   // KeyError
    | NoItems(dir: string)                   // `.items()` on a value that is not an object
    | EmptyMapping(dir: string)              // `list(...)[0]` on an empty object

  /** One run's contribution: its latent size, validation loss and the
      value of the first entry of its AffinityPropagation record. */
  datatype Point = Point(latentSpaceSize: Json, valLoss: Json, silhouette: Json)

  /** The three parallel lists the script builds. */
  datatype Series = Series(latentSpaceSize: seq<Json>, valLoss: seq<Json>, silhouette: seq<Json>)

  /** What reading one run directory yields, checking the record in the
      order the script indexes it. */
  function Entry(dir: string, files: map<string, Json>): (r: Result<Point, CollectError>)
    ensures r.Err? ==> r.error.dir == dir
  {
    if dir !in files then Err(Unreadable(dir))
    else if !files[dir].Object? then Err(NotSubscriptable(dir))
    else
      var rec := files[dir].fields;
      match (Get(rec, "latent_space_size"), Get(rec, "val_loss"), Get(rec, "AffinityPropagation"))
      case (None, _, _) => Err(MissingKey(dir, "latent_space_size"))
      case (Some(_), None, _) => Err(MissingKey(dir, "val_loss"))
      case (Some(_), Some(_), None) => Err(MissingKey(dir, "AffinityPropagation"))
      case (Some(size), Some(loss), Some(af)) =>
        if !af.Object? then Err(NoItems(dir))
        else if |af.fields| == 0 then Err(EmptyMapping(dir))
        else Ok(Point(size, loss, af.fields[0].1))
  }

  /** A run reads exactly when its record is an object holding the three
      keys and a non-empty AffinityPropagation object; the silhouette is the
      value of that object's first entry. */
  lemma EntryReads(dir: string, files: map<string, Json>)
    ensures Entry(dir, files).Ok? <==>
      && dir in files && files[dir].Object?
      && "latent_space_size" in Keys(files[dir].fields)
      && "val_loss" in Keys(files[dir].fields)
      && "AffinityPropagation" in Keys(files[dir].fields)
      && Get(files[dir].fields, "AffinityPropagation").value.Object?
      && |Get(files[dir].fields, "AffinityPropagation").value.fields| > 0
    ensures Entry(dir, files).Ok? ==>
      var rec := files[dir].fields;
      var p := Entry(dir, files).value;
      && Get(rec, "latent_space_size") == Some(p.latentSpaceSize)
      && Get(rec, "val_loss") == Some(p.valLoss)
      && p.silhouette == Get(rec, "AffinityPropagation").value.fields[0].1
  {
  }

  function Append(s: Series, p: Point): Series {
    Series(s.latentSpaceSize + [p.latentSpaceSize], s.valLoss + [p.valLoss], s.silhouette + [p.silhouette])
  }

  type Read = Result<Point, CollectError>

  /** The scan over per-directory reads in order: the first failure aborts
      it, otherwise one point per directory. */
  function Gather(rs: seq<Read>): (r: Result<Series, CollectError>)
    ensures r.Ok? ==>
      && |r.value.latentSpaceSize| == |rs|
      && |r.value.valLoss| == |rs|
      && |r.value.silhouette| == |rs|
  {
    if |rs| == 0 then Ok(Series([], [], []))
    else
      match Gather(rs[..|rs| - 1])
      case Err(e) => Err(e)
      case Ok(s) =>
        match rs[|rs| - 1]
        case Err(e) => Err(e)
        case Ok(p) => Ok(Append(s, p))
  }

  /** What reading each of `dirs` yields. */
  function Reads(dirs: seq<string>, files: map<string, Json>): (rs: seq<Read>)
    ensures |rs| == |dirs|
    ensures forall i :: 0 <= i < |dirs| ==> rs[i] == Entry(dirs[i], files)
  {
    seq(|dirs|, i requires 0 <= i < |dirs| => Entry(dirs[i], files))
  }

  /** The outcome of reading the directories `dirs` in order. */
  function Collected(dirs: seq<string>, files: map<string, Json>): (r: Result<Series, CollectError>)
    ensures r.Ok? ==>
      |r.value.latentSpaceSize| == |r.value.valLoss| == |r.value.silhouette| == |dirs|
    ensures r.Err? ==> exists i :: 0 <= i < |dirs| && r.error.dir == dirs[i]
  {
    var rs := Reads(dirs, files);
    if Gather(rs).Err? then
      GatherFirstError(rs);
      Gather(rs)
    else Gather(rs)
  }

  function PointAt(s: Series, i: nat): Point
    requires i < |s.latentSpaceSize| && i < |s.valLoss| && i < |s.silhouette|
  {
    Point(s.latentSpaceSize[i], s.valLoss[i], s.silhouette[i])
  }

  lemma {:induction false} GatherOkIff(rs: seq<Read>)
    ensures Gather(rs).Ok? <==> forall i :: 0 <= i < |rs| ==> rs[i].Ok?
  {
    if |rs| > 0 {
      var init := rs[..|rs| - 1];
      GatherOkIff(init);
      assert forall i :: 0 <= i < |init| ==> init[i] == rs[i];
    }
  }

  lemma {:induction false} GatherAligned(rs: seq<Read>)
    requires Gather(rs).Ok?
    ensures forall i :: 0 <= i < |rs| ==> rs[i] == Ok(PointAt(Gather(rs).value, i))
  {
    if |rs| > 0 {
      var init := rs[..|rs| - 1];
      var s := Gather(init).value;
      var p := rs[|rs| - 1].value;
      assert Gather(rs).value == Append(s, p);
      GatherAligned(init);
      forall i | 0 <= i < |rs|
        ensures rs[i] == Ok(PointAt(Gather(rs).value, i))
      {
        if i < |init| {
          assert init[i] == rs[i];
          assert PointAt(Append(s, p), i) == PointAt(s, i);
        }
      }
    }
  }

  lemma {:induction false} GatherFirstError(rs: seq<Read>)
    requires Gather(rs).Err?
    ensures exists k ::
      && 0 <= k < |rs|
      && rs[k] == Err(Gather(rs).error)
      && (forall j :: 0 <= j < k ==> rs[j].Ok?)
  {
    var init := rs[..|rs| - 1];
    assert forall i :: 0 <= i < |init| ==> init[i] == rs[i];
    if Gather(init).Err? {
      GatherFirstError(init);
      var k :| 0 <= k < |init| && init[k] == Err(Gather(init).error)
        && forall j :: 0 <= j < k ==> init[j].Ok?;
      assert rs[k] == Err(Gather(rs).error);
    } else {
      GatherOkIff(init);
      assert rs[|rs| - 1] == Err(Gather(rs).error);
    }
  }

  /** Once a prefix of the scan has failed, the whole scan fails with the
      same error. */
  lemma {:induction false} GatherErrorSticks(rs: seq<Read>, n: nat)
    requires n <= |rs| && Gather(rs[..n]).Err?
    ensures Gather(rs) == Gather(rs[..n])
    decreases |rs| - n
  {
    if n < |rs| {
      assert rs[..n + 1][..n] == rs[..n];
      GatherErrorSticks(rs, n + 1);
    } else {
      assert rs[..n] == rs;
    }
  }

  /** The scan succeeds exactly when every directory reads. */
  lemma CollectedOkIff(dirs: seq<string>, files: map<string, Json>)
    ensures Collected(dirs, files).Ok? <==> forall i :: 0 <= i < |dirs| ==> Entry(dirs[i], files).Ok?
  {
    GatherOkIff(Reads(dirs, files));
  }

  /** After a successful scan, the three lists have one entry per directory
      and entry i of each comes from the i-th directory read. */
  lemma CollectedAligned(dirs: seq<string>, files: map<string, Json>)
    requires Collected(dirs, files).Ok?
    ensures |Collected(dirs, files).value.latentSpaceSize| == |dirs|
    ensures |Collected(dirs, files).value.valLoss| == |dirs|
    ensures |Collected(dirs, files).value.silhouette| == |dirs|
    ensures forall i :: 0 <= i < |dirs| ==> Entry(dirs[i], files) == Ok(PointAt(Collected(dirs, files).value, i))
  {
    GatherAligned(Reads(dirs, files));
  }

  /** Nothing is skipped: when the scan fails, it fails with the error of
      the first directory (in the order read) that does not read. */
  lemma CollectedFirstError(dirs: seq<string>, files: map<string, Json>)
    requires Collected(dirs, files).Err?
    ensures exists k ::
      && 0 <= k < |dirs|
      && Entry(dirs[k], files) == Err(Collected(dirs, files).error)
      && (forall j :: 0 <= j < k ==> Entry(dirs[j], files).Ok?)
  {
    var rs := Reads(dirs, files);
    GatherFirstError(rs);
    var k :| 0 <= k < |rs| && rs[k] == Err(Gather(rs).error) && forall j :: 0 <= j < k ==> rs[j].Ok?;
    assert Entry(dirs[k], files) == Err(Collected(dirs, files).error);
    assert forall j :: 0 <= j < k ==> Entry(dirs[j], files) == rs[j];
  }

  /** One more successful read appends its point to a successful scan. */
  lemma GatherOkStep(rs: seq<Read>, i: nat, s: Series)
    requires i < |rs| && Gather(rs[..i]) == Ok(s) && rs[i].Ok?
    ensures Gather(rs[..i + 1]) == Ok(Append(s, rs[i].value))
  {
    assert rs[..i + 1][..i] == rs[..i];
  }

  /** `plot_loss_silhouette_score` up to the plotting: the directories are
      read in sorted path order into three lists. */
  method CollectRuns(listing: seq<string>, files: map<string, Json>) returns (r: Result<Series, CollectError>)
    ensures r == Collected(Sorted(listing), files)
  {
    var dirs := Sorted(listing);
    ghost var rs := Reads(dirs, files);
    var latentSpaceSize: seq<Json> := [];
    var affinityPropagation: seq<Json> := [];
    var valLoss: seq<Json> := [];
    for i := 0 to |dirs|
      invariant Gather(rs[..i]) == Ok(Series(latentSpaceSize, valLoss, affinityPropagation))
    {
      var entry := Entry(dirs[i], files);
      assert rs[i] == entry;
      if entry.Err? {
        assert rs[..i + 1][..i] == rs[..i];
        GatherErrorSticks(rs, i + 1);
        return Err(entry.error);
      }
      GatherOkStep(rs, i, Series(latentSpaceSize, valLoss, affinityPropagation));
      latentSpaceSize := latentSpaceSize + [entry.value.latentSpaceSize];
      valLoss := valLoss + [entry.value.valLoss];
      affinityPropagation := affinityPropagation + [entry.value.silhouette];
    }
    assert rs[..|dirs|] == rs;
    r := Ok(Series(latentSpaceSize, valLoss, affinityPropagation));
  }

  /** Two runs of latent sizes 8 and 16. */
  function SampleRuns(): map<string, Json> {
    map[
      "runs/8" := Object([("latent_space_size", Int(8)), ("val_loss", Float(0.5)),
                         ("AffinityPropagation", Object([("silhouette", Float(0.25))]))]),
      "runs/16" := Object([("latent_space_size", Int(16)), ("val_loss", Float(0.25)),
                          ("AffinityPropagation", Object([("silhouette", Float(0.5))]))])]
  }

  lemma SampleReads()
    ensures Reads(["runs/16", "runs/8"], SampleRuns())
      == [Ok(Point(Int(16), Float(0.25), Float(0.5))), Ok(Point(Int(8), Float(0.5), Float(0.25)))]
  {
    assert Entry("runs/8", SampleRuns()) == Ok(Point(Int(8), Float(0.5), Float(0.25)));
    assert Entry("runs/16", SampleRuns()) == Ok(Point(Int(16), Float(0.25), Float(0.5)));
  }

  lemma GatherTwo(p: Point, q: Point)
    ensures Gather([Ok(p), Ok(q)]) == Ok(Series([p.latentSpaceSize, q.latentSpaceSize],
      [p.valLoss, q.valLoss], [p.silhouette, q.silhouette]))
  {
    var rs: seq<Read> := [Ok(p), Ok(q)];
    assert rs[..1] == [Ok(p)] && rs[..1][..0] == [];
    var empty := Series([], [], []);
    assert Gather(rs[..1]) == Ok(Append(empty, p));
    assert Gather(rs) == Ok(Append(Append(empty, p), q));
    assert Append(Append(empty, p), q) == Series([p.latentSpaceSize, q.latentSpaceSize],
      [p.valLoss, q.valLoss], [p.silhouette, q.silhouette]);
  }

  /** The plotted x-values of the two sample runs come out as [16, 8]: in
      path order, not in numeric order. */
  lemma XValuesFollowPathOrder()
    ensures Collected(Sorted(["runs/8", "runs/16"]), SampleRuns())
      == Ok(Series([Int(16), Int(8)], [Float(0.25), Float(0.5)], [Float(0.5), Float(0.25)]))
  {
    SixteenBeforeEight();
    SampleReads();
    GatherTwo(Point(Int(16), Float(0.25), Float(0.5)), Point(Int(8), Float(0.5), Float(0.25)));
  }

  // ---------------------------------------------------------------------
  // `main`
  // ---------------------------------------------------------------------

  /** `SystemExit.code`: None, an integer or any other object (shown here
      as a string). */
  datatype ExitCode = NoCode | IntCode(n: int) | StrCode(s: string)

  datatype Raised =
    | SystemExit(code: ExitCode)
    | CollectFailed(error: CollectError)

  datatype Outcome = Returned | Raises(exc: Raised)

  /** What `argparse` does with the command line: either a source
      directory, or a SystemExit (code 0 for `--help`, 2 for bad usage). */
  datatype Parsed = SrcDir(path: string) | ParserExit(code: ExitCode)

  /** The body of the `try` in `main`: parse, then scan. */
  function Body(parsed: Parsed, listing: seq<string>, files: map<string, Json>): (r: Outcome)
    ensures parsed.ParserExit? ==> r == Raises(SystemExit(parsed.code))
    ensures parsed.SrcDir? ==> (r == Returned <==> Collected(Sorted(listing), files).Ok?)
  {
    match parsed
    case ParserExit(code) => Raises(SystemExit(code))
    case SrcDir(_) =>
      match Collected(Sorted(listing), files)
      case Ok(_) => Returned
      case Err(e) => Raises(CollectFailed(e))
  }

  /** `main`: a SystemExit whose code compares equal to 0 is swallowed,
      every other SystemExit (None included) is re-raised unchanged, and
      other exceptions are not caught. */
  function MainOutcome(body: Outcome): (r: Outcome)
    ensures r == Returned <==> body == Returned || body == Raises(SystemExit(IntCode(0)))
    ensures r != Returned ==> r == body
  {
    match body
    case Raises(SystemExit(code)) => if code == IntCode(0) then Returned else body
    case _ => body
  }

  /** `--help` ends `main` normally; a run without a readable result file
      makes `main` raise that directory's error. */
  lemma MainOutcomes(listing: seq<string>, files: map<string, Json>, dir: string)
    ensures MainOutcome(Body(ParserExit(IntCode(0)), listing, files)) == Returned
    ensures MainOutcome(Body(ParserExit(NoCode), listing, files)) == Raises(SystemExit(NoCode))
    ensures dir in listing && dir !in files ==>
      MainOutcome(Body(SrcDir("runs"), listing, files)).Raises?
      && MainOutcome(Body(SrcDir("runs"), listing, files)).exc.CollectFailed?
  {
    if dir in listing && dir !in files {
      var dirs := Sorted(listing);
      assert dir in multiset(dirs);
      var k :| 0 <= k < |dirs| && dirs[k] == dir;
      CollectedOkIff(dirs, files);
    }
  }
}
