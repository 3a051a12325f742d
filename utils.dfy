/** Model of the scoring helpers in runtime/scoring/utils.py: run-length
    grouping of stored video ids, the flatten/regroup round trip of per-video
    descriptors, the truncated list rendering used in error messages, and the
    validation rules applied to a descriptor submission. */
module Utils {
  import opened Seqs

  /** A numpy float as `np.isfinite` and `np.isnan` see it. */
  datatype Float = Finite(value: real) | PosInf | NegInf | NaN

  /** One row of a 2-D float array (a descriptor, or a (start, end) timestamp pair). */
  type Row = seq<Float>

  /** What a rejected input failed; every one surfaces as `DataValidationError`. */
  datatype ValidationFailure =
    | TooManyRows(maxRows: real, rows: nat)
    | TooManyDims(dims: nat)
    | NullValue
    | InvalidIds(ids: set<int>)
    | LengthMismatch
    | ScoresNotFinite

  /** The exceptions the modelled code raises. */
  datatype Error =
    | DataValidationError(failure: ValidationFailure)
    | IndexError   // `values[0]` on an empty array
    | ValueError   // `np.concatenate` of an empty list, or of arrays of different widths
    | KeyError     // `groupby` on a frame without the grouped columns
    | ZeroDivisionError   // `n / 0` on Python integers

  datatype Result<T> = Ok(value: T) | Err(error: Error)

  datatype Outcome = Pass | Fail(error: Error)

  /** A video's descriptors: one feature row and one timestamp row per interval. */
  datatype VideoFeature = VideoFeature(videoId: int, timestamps: seq<Row>, feature: seq<Row>)

  /** `len(feature)`: `VideoMetadata.__len__` counts timestamp rows, not feature rows. */
  function Len(f: VideoFeature): nat { |f.timestamps| }

  /** The three arrays of a descriptor file: `video_ids`, `features`, `timestamps`. */
  datatype Arrays = Arrays(videoIds: seq<int>, features: seq<Row>, timestamps: seq<Row>)

  // ---------------------------------------------------------------------------
  // same_value_ranges

  /** A maximal run `values[start..end]` of equal entries. */
  datatype Run<T> = Run(value: T, start: nat, end: nat)

  /** `runs` covers `values[start..]` in order, without gap or overlap, each
      run is non-empty and holds a single value, and adjacent runs differ. */
  ghost predicate IsRunCover<T>(runs: seq<Run<T>>, values: seq<T>, start: nat)
  {
    && start <= |values|
    && (runs == [] <==> start == |values|)
    && (runs != [] ==> runs[0].start == start && runs[|runs| - 1].end == |values|)
    && (forall k, k' :: 0 <= k < |runs| && k' == k + 1 < |runs| ==> runs[k].end == runs[k'].start)
    && (forall k :: 0 <= k < |runs| ==> runs[k].start < runs[k].end <= |values|)
    && (forall k, j :: 0 <= k < |runs| && runs[k].start <= j < runs[k].end ==> values[j] == runs[k].value)
    && (forall k, k' :: 0 <= k < |runs| && k' == k + 1 < |runs| ==> runs[k].value != runs[k'].value)
  }

  /** The end of the run that starts at `start`. */
  function RunEnd<T(==)>(values: seq<T>, start: nat): (e: nat)
    requires start < |values|
    ensures start < e <= |values|
    ensures forall j :: start <= j < e ==> values[j] == values[start]
    ensures e < |values| ==> values[e] != values[start]
    decreases |values| - start
  {
    if start + 1 == |values| || values[start + 1] != values[start] then start + 1
    else RunEnd(values, start + 1)
  }

  /** The maximal runs of `values[start..]`, left to right. */
  function RunsFrom<T(==)>(values: seq<T>, start: nat): seq<Run<T>>
    requires start <= |values|
    decreases |values| - start
  {
    if start == |values| then []
    else
      var e := RunEnd(values, start);
      [Run(values[start], start, e)] + RunsFrom(values, e)
  }

  /** A run followed by a cover of the rest, with a different value, covers
      from the run's start. */
  lemma ConsCover<T>(run: Run<T>, rest: seq<Run<T>>, values: seq<T>)
    requires run.start < run.end <= |values|
    requires forall j :: run.start <= j < run.end ==> values[j] == run.value
    requires IsRunCover(rest, values, run.end)
    requires rest != [] ==> rest[0].value != run.value
    ensures IsRunCover([run] + rest, values, run.start)
  {
    ConsLinks(run, rest, values);
    ConsValues(run, rest, values);
    ConsBounds(run, rest, values);
    if rest != [] {
      assert ([run] + rest)[|rest|] == rest[|rest| - 1];
    }
  }

  lemma ConsLinks<T>(run: Run<T>, rest: seq<Run<T>>, values: seq<T>)
    requires IsRunCover(rest, values, run.end)
    requires rest != [] ==> rest[0].value != run.value
    ensures forall k, k' :: 0 <= k < |[run] + rest| && k' == k + 1 < |[run] + rest| ==>
      ([run] + rest)[k].end == ([run] + rest)[k'].start && ([run] + rest)[k].value != ([run] + rest)[k'].value
  {
    var runs := [run] + rest;
    forall k, k' | 0 <= k < |runs| && k' == k + 1 < |runs|
      ensures runs[k].end == runs[k'].start && runs[k].value != runs[k'].value
    {
      assert runs[k'] == rest[k];
      if k > 0 {
        assert runs[k] == rest[k - 1];
      }
    }
  }

  lemma ConsValues<T>(run: Run<T>, rest: seq<Run<T>>, values: seq<T>)
    requires run.end <= |values|
    requires forall j :: run.start <= j < run.end ==> values[j] == run.value
    requires IsRunCover(rest, values, run.end)
    ensures forall k, j :: 0 <= k < |[run] + rest| && ([run] + rest)[k].start <= j < ([run] + rest)[k].end ==>
      j < |values| && values[j] == ([run] + rest)[k].value
  {
    var runs := [run] + rest;
    forall k, j | 0 <= k < |runs| && runs[k].start <= j < runs[k].end
      ensures j < |values| && values[j] == runs[k].value
    {
      if k > 0 {
        assert runs[k] == rest[k - 1];
      }
    }
  }

  lemma ConsBounds<T>(run: Run<T>, rest: seq<Run<T>>, values: seq<T>)
    requires run.start < run.end <= |values|
    requires IsRunCover(rest, values, run.end)
    ensures forall k :: 0 <= k < |[run] + rest| ==> ([run] + rest)[k].start < ([run] + rest)[k].end <= |values|
  {
    var runs := [run] + rest;
    forall k | 0 <= k < |runs|
      ensures runs[k].start < runs[k].end <= |values|
    {
      if k > 0 {
        assert runs[k] == rest[k - 1];
      }
    }
  }

  /** Dropping the first run of a cover leaves a cover from where it ended. */
  lemma TailCover<T>(runs: seq<Run<T>>, values: seq<T>, start: nat)
    requires IsRunCover(runs, values, start) && runs != []
    ensures IsRunCover(runs[1..], values, runs[0].end)
  {
    var rest := runs[1..];
    TailLinks(runs, values, start);
    TailInside(runs, values, start);
    if rest != [] {
      assert rest[0] == runs[1];
      assert runs[0].end == runs[1].start;
      assert rest[|rest| - 1] == runs[|runs| - 1];
    } else {
      assert runs[0] == runs[|runs| - 1];
    }
  }

  lemma TailLinks<T>(runs: seq<Run<T>>, values: seq<T>, start: nat)
    requires IsRunCover(runs, values, start) && runs != []
    ensures forall k, k' :: 0 <= k < |runs[1..]| && k' == k + 1 < |runs[1..]| ==>
      runs[1..][k].end == runs[1..][k'].start && runs[1..][k].value != runs[1..][k'].value
  {
    var rest := runs[1..];
    forall k, k' | 0 <= k < |rest| && k' == k + 1 < |rest|
      ensures rest[k].end == rest[k'].start && rest[k].value != rest[k'].value
    {
      assert rest[k] == runs[k + 1] && rest[k'] == runs[k' + 1];
    }
  }

  lemma TailInside<T>(runs: seq<Run<T>>, values: seq<T>, start: nat)
    requires IsRunCover(runs, values, start) && runs != []
    ensures forall k :: 0 <= k < |runs[1..]| ==> runs[1..][k].start < runs[1..][k].end <= |values|
    ensures forall k, j :: 0 <= k < |runs[1..]| && runs[1..][k].start <= j < runs[1..][k].end ==>
      j < |values| && values[j] == runs[1..][k].value
  {
    var rest := runs[1..];
    forall k | 0 <= k < |rest|
      ensures rest[k].start < rest[k].end <= |values|
      ensures forall j :: rest[k].start <= j < rest[k].end ==> values[j] == rest[k].value
    {
      assert rest[k] == runs[k + 1];
    }
  }

  /** The runs tile `values[start..]`, hold one value each and are maximal. */
  lemma {:induction false} RunsFromCover<T>(values: seq<T>, start: nat)
    requires start <= |values|
    ensures IsRunCover(RunsFrom(values, start), values, start)
    decreases |values| - start
  {
    if start < |values| {
      var e := RunEnd(values, start);
      RunsFromCover(values, e);
      if e < |values| {
        assert RunsFrom(values, e)[0].value == values[e];
      }
      ConsCover(Run(values[start], start, e), RunsFrom(values, e), values);
    }
  }

  function ValueRuns<T(==)>(values: seq<T>): seq<Run<T>>
  {
    RunsFrom(values, 0)
  }

  /** A run cover is unique: any cover of `values[start..]` is `RunsFrom(values, start)`. */
  lemma {:induction false} RunCoverUnique<T>(runs: seq<Run<T>>, values: seq<T>, start: nat)
    requires IsRunCover(runs, values, start)
    ensures runs == RunsFrom(values, start)
    decreases |values| - start
  {
    if start < |values| {
      var e := RunEnd(values, start);
      var first := runs[0];
      assert first.start == start;
      assert first.value == values[start];
      assert first.end < |values| ==> values[first.end] != values[start] by {
        if first.end < |values| {
          assert runs[0].end == runs[1].start;
          assert values[runs[1].start] == runs[1].value;
        }
      }
      RunEndAt(values, start, first.end);
      assert first == Run(values[start], start, e);
      TailCover(runs, values, start);
      RunCoverUnique(runs[1..], values, e);
      assert runs == [first] + runs[1..];
    }
  }

  /** The inverse of run grouping: each run repeated over its range. */
  function Expand<T>(runs: seq<Run<T>>): seq<T>
  {
    if runs == [] then []
    else
      var n := if runs[0].start <= runs[0].end then runs[0].end - runs[0].start else 0;
      Repeat(runs[0].value, n) + Expand(runs[1..])
  }

  lemma {:induction false} ExpandRunsFrom<T>(values: seq<T>, start: nat)
    requires start <= |values|
    ensures Expand(RunsFrom(values, start)) == values[start..]
    decreases |values| - start
  {
    if start < |values| {
      var e := RunEnd(values, start);
      var runs := RunsFrom(values, start);
      ExpandRunsFrom(values, e);
      assert runs[0] == Run(values[start], start, e) && runs[1..] == RunsFrom(values, e);
      assert Repeat(values[start], e - start) == values[start..e];
      assert Expand(runs) == values[start..e] + values[e..];
      assert values[start..] == values[start..e] + values[e..];
    }
  }

  /** Expanding the runs gives back the values. */
  lemma ValueRunsExpand<T>(values: seq<T>)
    ensures Expand(ValueRuns(values)) == values
  {
    ExpandRunsFrom(values, 0);
  }

  /** `same_value_ranges`: the (value, start, end) triples it yields, in order.
      An empty input fails on `values[0]` before anything is yielded. */
  method SameValueRanges<T(==)>(values: seq<T>) returns (r: Result<seq<Run<T>>>)
    ensures values == [] <==> r.Err?
    ensures r.Err? ==> r.error == IndexError
    ensures r.Ok? ==> r.value == ValueRuns(values) && IsRunCover(r.value, values, 0)
  {
    if |values| == 0 {
      return Err(IndexError);
    }
    var start := 0;
    var value := values[start];
    var runs: seq<Run<T>> := [];
    for i := 0 to |values|
      invariant start < |values| && start <= i
      invariant value == values[start]
      invariant forall j :: start <= j < i ==> values[j] == value
      invariant runs + RunsFrom(values, start) == ValueRuns(values)
    {
      if values[i] == value {
        continue;
      }
      CloseRun(values, runs, start, i);
      runs := runs + [Run(value, start, i)];
      start := i;
      value := values[start];
    }
    CloseRun(values, runs, start, |values|);
    runs := runs + [Run(value, start, |values|)];
    assert runs == ValueRuns(values);
    RunsFromCover(values, 0);
    r := Ok(runs);
  }

  /** Closing the current run at `i` keeps the runs so far a prefix of
      `ValueRuns`. */
  lemma CloseRun<T>(values: seq<T>, runs: seq<Run<T>>, start: nat, i: nat)
    requires start < i <= |values|
    requires forall j :: start <= j < i ==> values[j] == values[start]
    requires i < |values| ==> values[i] != values[start]
    requires runs + RunsFrom(values, start) == ValueRuns(values)
    ensures runs + [Run(values[start], start, i)] + RunsFrom(values, i) == ValueRuns(values)
  {
    RunEndAt(values, start, i);
    RunsFromStep(values, start);
    assert runs + [Run(values[start], start, i)] + RunsFrom(values, i) == runs + RunsFrom(values, start);
  }

  /** A run ends at the first position holding a different value. */
  lemma {:induction false} RunEndAt<T>(values: seq<T>, start: nat, i: nat)
    requires start < i <= |values|
    requires forall j :: start <= j < i ==> values[j] == values[start]
    requires i < |values| ==> values[i] != values[start]
    ensures RunEnd(values, start) == i
    decreases i - start
  {
    if start + 1 < i {
      RunEndAt(values, start + 1, i);
    }
  }

  lemma RunsFromStep<T>(values: seq<T>, start: nat)
    requires start < |values|
    ensures RunsFrom(values, start) == [Run(values[start], start, RunEnd(values, start))] + RunsFrom(values, RunEnd(values, start))
  {
  }

  // ---------------------------------------------------------------------------
  // store_features / load_features

  function IdPieces(features: seq<VideoFeature>): seq<seq<int>>
  {
    seq(|features|, k requires 0 <= k < |features| => Repeat(features[k].videoId, Len(features[k])))
  }

  function FeaturePieces(features: seq<VideoFeature>): seq<seq<Row>>
  {
    seq(|features|, k requires 0 <= k < |features| => features[k].feature)
  }

  function TimestampPieces(features: seq<VideoFeature>): seq<seq<Row>>
  {
    seq(|features|, k requires 0 <= k < |features| => features[k].timestamps)
  }

  /** The arrays `store_features` writes: each video id repeated `len(feature)`
      times, and the feature and timestamp rows concatenated in order. */
  function Stored(features: seq<VideoFeature>): Arrays
  {
    Arrays(Concat(IdPieces(features)), Concat(FeaturePieces(features)), Concat(TimestampPieces(features)))
  }

  /** All rows have one width. A single video's rows are one 2-D array, so
      this is the condition `np.concatenate` puts on the videos' arrays. */
  predicate SameWidth(rows: seq<Row>)
  {
    forall i, j :: 0 <= i < |rows| && 0 <= j < |rows| ==> |rows[i]| == |rows[j]|
  }

  method StoreFeatures(features: seq<VideoFeature>) returns (r: Result<Arrays>)
    ensures features == [] ==> r == Err(ValueError)
    ensures features != [] && !(SameWidth(Stored(features).features) && SameWidth(Stored(features).timestamps))
      ==> r == Err(ValueError)
    ensures features != [] && SameWidth(Stored(features).features) && SameWidth(Stored(features).timestamps)
      ==> r == Ok(Stored(features))
  {
    var videoIds: seq<seq<int>> := [];
    var feats: seq<seq<Row>> := [];
    var timestamps: seq<seq<Row>> := [];
    for k := 0 to |features|
      invariant videoIds == IdPieces(features)[..k]
      invariant feats == FeaturePieces(features)[..k]
      invariant timestamps == TimestampPieces(features)[..k]
    {
      videoIds := videoIds + [Repeat(features[k].videoId, Len(features[k]))];
      feats := feats + [features[k].feature];
      timestamps := timestamps + [features[k].timestamps];
    }
    if |features| == 0 {
      return Err(ValueError);
    }
    assert IdPieces(features)[..|features|] == IdPieces(features);
    assert FeaturePieces(features)[..|features|] == FeaturePieces(features);
    assert TimestampPieces(features)[..|features|] == TimestampPieces(features);
    if !SameWidth(Concat(feats)) || !SameWidth(Concat(timestamps)) {
      return Err(ValueError);
    }
    r := Ok(Arrays(Concat(videoIds), Concat(feats), Concat(timestamps)));
  }

  /** Python's `s[start:end]`, which clips to the length of `s`. */
  function Slice<T>(s: seq<T>, start: nat, end: nat): (r: seq<T>)
    ensures end <= |s| && start <= end ==> r == s[start..end]
  {
    var e := Min(end, |s|);
    var b := Min(start, e);
    s[b..e]
  }

  /** The `VideoFeature` `load_features` builds for one run of equal ids. */
  function Group(data: Arrays, run: Run<int>): VideoFeature
  {
    VideoFeature(run.value, Slice(data.timestamps, run.start, run.end), Slice(data.features, run.start, run.end))
  }

  function GroupsOf(data: Arrays, runs: seq<Run<int>>): seq<VideoFeature>
  {
    seq(|runs|, k requires 0 <= k < |runs| => Group(data, runs[k]))
  }

  /** The list `load_features` builds: one `VideoFeature` per run of equal video ids. */
  function Regroup(data: Arrays): seq<VideoFeature>
  {
    GroupsOf(data, ValueRuns(data.videoIds))
  }

  method LoadFeatures(data: Arrays) returns (r: Result<seq<VideoFeature>>)
    ensures data.videoIds == [] ==> r == Err(IndexError)
    ensures data.videoIds != [] ==> r == Ok(Regroup(data))
  {
    var ranges := SameValueRanges(data.videoIds);
    if ranges.Err? {
      return Err(ranges.error);
    }
    var runs := ranges.value;
    var results: seq<VideoFeature> := [];
    for k := 0 to |runs|
      invariant results == Regroup(data)[..k]
    {
      results := results + [VideoFeature(runs[k].value,
                                         Slice(data.timestamps, runs[k].start, runs[k].end),
                                         Slice(data.features, runs[k].start, runs[k].end))];
    }
    assert Regroup(data)[..|runs|] == Regroup(data);
    r := Ok(results);
  }

  /** The runs a stored list of features must regroup into. */
  function StoredRuns(features: seq<VideoFeature>): seq<Run<int>>
  {
    var ss := IdPieces(features);
    seq(|features|, k requires 0 <= k < |features| => Run(features[k].videoId, Offset(ss, k), Offset(ss, k + 1)))
  }

  /** Features that survive the round trip: every video has at least one row,
      as many timestamp rows as feature rows, and a video id unlike its neighbour's. */
  ghost predicate Regroupable(features: seq<VideoFeature>)
  {
    && (forall k :: 0 <= k < |features| ==> 1 <= Len(features[k]) == |features[k].feature|)
    && (forall k, k' :: 0 <= k < |features| && k' == k + 1 < |features| ==> features[k].videoId != features[k'].videoId)
  }

  /** The `k`-th stored video occupies `[Offset(k), Offset(k + 1))` of the id column. */
  lemma StoredRunAt(features: seq<VideoFeature>, k: nat)
    requires Regroupable(features) && k < |features|
    ensures Offset(IdPieces(features), k) < Offset(IdPieces(features), k + 1) <= |Stored(features).videoIds|
    ensures forall j :: Offset(IdPieces(features), k) <= j < Offset(IdPieces(features), k + 1) ==>
      Stored(features).videoIds[j] == features[k].videoId
  {
    var ss := IdPieces(features);
    var lo, hi := Offset(ss, k), Offset(ss, k + 1);
    ConcatSliceAt(ss, k);
    assert ss[k] == Repeat(features[k].videoId, Len(features[k]));
    forall j | lo <= j < hi
      ensures Concat(ss)[j] == features[k].videoId
    {
      assert Concat(ss)[j] == Concat(ss)[lo..hi][j - lo];
    }
  }

  lemma StoredRunsCover(features: seq<VideoFeature>)
    requires Regroupable(features)
    ensures IsRunCover(StoredRuns(features), Stored(features).videoIds, 0)
  {
    StoredRunsInside(features);
    StoredRunsAdjacent(features);
    if features != [] {
      StoredRunsEnds(features);
    }
  }

  lemma StoredRunsInside(features: seq<VideoFeature>)
    requires Regroupable(features)
    ensures var runs, ids := StoredRuns(features), Stored(features).videoIds;
      && (forall k :: 0 <= k < |runs| ==> runs[k].start < runs[k].end <= |ids|)
      && (forall k, j :: 0 <= k < |runs| && runs[k].start <= j < runs[k].end ==> j < |ids| && ids[j] == runs[k].value)
  {
    var ids := Stored(features).videoIds;
    var runs := StoredRuns(features);
    forall k | 0 <= k < |runs|
      ensures runs[k].start < runs[k].end <= |ids|
      ensures forall j :: runs[k].start <= j < runs[k].end ==> ids[j] == runs[k].value
    {
      StoredRunAt(features, k);
    }
  }

  lemma StoredRunsAdjacent(features: seq<VideoFeature>)
    requires Regroupable(features)
    ensures var runs := StoredRuns(features);
      && (forall k, k' :: 0 <= k < |runs| && k' == k + 1 < |runs| ==> runs[k].end == runs[k'].start)
      && (forall k, k' :: 0 <= k < |runs| && k' == k + 1 < |runs| ==> runs[k].value != runs[k'].value)
  {
  }

  lemma StoredRunsEnds(features: seq<VideoFeature>)
    requires features != []
    ensures var runs := StoredRuns(features);
      runs[0].start == 0 && runs[|runs| - 1].end == |Stored(features).videoIds|
  {
    var ss := IdPieces(features);
    assert ss[..0] == [];
    assert ss[..|ss|] == ss;
  }

  /** The rows stored for the `k`-th video are its feature and timestamp rows. */
  lemma StoredSlicesAt(features: seq<VideoFeature>, k: nat)
    requires Regroupable(features) && k < |features|
    ensures var ss := IdPieces(features);
      && Slice(Stored(features).features, Offset(ss, k), Offset(ss, k + 1)) == features[k].feature
      && Slice(Stored(features).timestamps, Offset(ss, k), Offset(ss, k + 1)) == features[k].timestamps
  {
    var ss, fs, ts := IdPieces(features), FeaturePieces(features), TimestampPieces(features);
    OffsetsAgree(ss, fs, k);
    OffsetsAgree(ss, fs, k + 1);
    OffsetsAgree(ss, ts, k);
    OffsetsAgree(ss, ts, k + 1);
    ConcatSliceAt(fs, k);
    ConcatSliceAt(ts, k);
  }

  /** The stored id column groups exactly into the runs of the stored videos. */
  lemma StoredValueRuns(features: seq<VideoFeature>)
    requires Regroupable(features)
    ensures ValueRuns(Stored(features).videoIds) == StoredRuns(features)
  {
    StoredRunsCover(features);
    RunCoverUnique(StoredRuns(features), Stored(features).videoIds, 0);
  }

  lemma RegroupAt(data: Arrays, k: nat)
    requires k < |ValueRuns(data.videoIds)|
    ensures |Regroup(data)| == |ValueRuns(data.videoIds)|
    ensures var run := ValueRuns(data.videoIds)[k];
      Regroup(data)[k] == VideoFeature(run.value, Slice(data.timestamps, run.start, run.end),
                                       Slice(data.features, run.start, run.end))
  {
  }

  lemma StoredRegroupAt(features: seq<VideoFeature>, k: nat)
    requires Regroupable(features) && k < |features|
    requires ValueRuns(Stored(features).videoIds) == StoredRuns(features)
    ensures |Regroup(Stored(features))| == |features|
    ensures Regroup(Stored(features))[k] == features[k]
  {
    var ss := IdPieces(features);
    RegroupAt(Stored(features), k);
    StoredSlicesAt(features, k);
    assert StoredRuns(features)[k] == Run(features[k].videoId, Offset(ss, k), Offset(ss, k + 1));
  }

  /** Store-then-load gives back the features (the video ids, timestamps and
      feature rows of every video, in order). */
  lemma StoreLoadRoundTrip(features: seq<VideoFeature>)
    requires Regroupable(features)
    ensures Regroup(Stored(features)) == features
  {
    StoredValueRuns(features);
    var back := Regroup(Stored(features));
    assert |back| == |StoredRuns(features)| == |features|;
    forall k | 0 <= k < |features|
      ensures back[k] == features[k]
    {
      StoredRegroupAt(features, k);
    }
  }

  lemma PiecesCons(f: VideoFeature, rest: seq<VideoFeature>)
    ensures IdPieces([f] + rest) == [Repeat(f.videoId, Len(f))] + IdPieces(rest)
    ensures FeaturePieces([f] + rest) == [f.feature] + FeaturePieces(rest)
    ensures TimestampPieces([f] + rest) == [f.timestamps] + TimestampPieces(rest)
  {
  }

  lemma StoredCons(f: VideoFeature, rest: seq<VideoFeature>)
    ensures Stored([f] + rest) == Arrays(Repeat(f.videoId, Len(f)) + Stored(rest).videoIds,
                                         f.feature + Stored(rest).features,
                                         f.timestamps + Stored(rest).timestamps)
  {
    PiecesCons(f, rest);
    ConcatCons(Repeat(f.videoId, Len(f)), IdPieces(rest));
    ConcatCons(f.feature, FeaturePieces(rest));
    ConcatCons(f.timestamps, TimestampPieces(rest));
  }

  lemma RunsFromUnfold<T>(values: seq<T>, start: nat)
    requires start < |values|
    ensures var runs := RunsFrom(values, start);
      && runs != []
      && runs[0] == Run(values[start], start, RunEnd(values, start))
      && runs[1..] == RunsFrom(values, RunEnd(values, start))
  {
    var runs := RunsFrom(values, start);
    assert runs == [Run(values[start], start, RunEnd(values, start))] + RunsFrom(values, RunEnd(values, start));
  }

  lemma GroupsOfCons(data: Arrays, runs: seq<Run<int>>)
    requires runs != []
    ensures GroupsOf(data, runs) == [Group(data, runs[0])] + GroupsOf(data, runs[1..])
  {
    var g := GroupsOf(data, runs);
    var h := [Group(data, runs[0])] + GroupsOf(data, runs[1..]);
    assert |g| == |h|;
    forall k | 0 <= k < |g|
      ensures g[k] == h[k]
    {
      if k > 0 {
        assert h[k] == GroupsOf(data, runs[1..])[k - 1];
        assert runs[1..][k - 1] == runs[k];
      }
    }
  }

  lemma RunIsRepeat<T>(values: seq<T>, start: nat)
    requires start < |values|
    ensures values[start..RunEnd(values, start)] == Repeat(values[start], RunEnd(values, start) - start)
  {
  }

  lemma GroupOfRun(data: Arrays, start: nat)
    requires |data.features| == |data.videoIds| == |data.timestamps|
    requires start < |data.videoIds|
    ensures var e := RunEnd(data.videoIds, start);
      var g := Group(data, Run(data.videoIds[start], start, e));
      && Repeat(g.videoId, Len(g)) == data.videoIds[start..e]
      && g.feature == data.features[start..e]
      && g.timestamps == data.timestamps[start..e]
  {
    RunIsRepeat(data.videoIds, start);
  }

  /** Storing the groups of `data[start..]` puts the first run's rows in
      front of what storing the later groups gives. */
  lemma RegroupStep(data: Arrays, start: nat)
    requires |data.features| == |data.videoIds| == |data.timestamps|
    requires start < |data.videoIds|
    ensures var ids := data.videoIds;
      var e := RunEnd(ids, start);
      var tail := Stored(GroupsOf(data, RunsFrom(ids, e)));
      Stored(GroupsOf(data, RunsFrom(ids, start)))
        == Arrays(ids[start..e] + tail.videoIds, data.features[start..e] + tail.features,
                  data.timestamps[start..e] + tail.timestamps)
  {
    var runs := RunsFrom(data.videoIds, start);
    RunsFromUnfold(data.videoIds, start);
    GroupsOfCons(data, runs);
    StoredCons(Group(data, runs[0]), GroupsOf(data, runs[1..]));
    GroupOfRun(data, start);
  }

  lemma SplitAt(data: Arrays, start: nat, e: nat)
    requires |data.features| == |data.videoIds| == |data.timestamps|
    requires start <= e <= |data.videoIds|
    ensures data.videoIds[start..] == data.videoIds[start..e] + data.videoIds[e..]
    ensures data.features[start..] == data.features[start..e] + data.features[e..]
    ensures data.timestamps[start..] == data.timestamps[start..e] + data.timestamps[e..]
  {
  }

  /** Storing the groups of `data[start..]` gives back `data[start..]`. */
  lemma {:induction false} RegroupFrom(data: Arrays, start: nat)
    requires |data.features| == |data.videoIds| == |data.timestamps|
    requires start <= |data.videoIds|
    ensures Stored(GroupsOf(data, RunsFrom(data.videoIds, start)))
         == Arrays(data.videoIds[start..], data.features[start..], data.timestamps[start..])
    decreases |data.videoIds| - start
  {
    var ids := data.videoIds;
    var runs := RunsFrom(ids, start);
    if start < |ids| {
      var e := RunEnd(ids, start);
      RegroupStep(data, start);
      RegroupFrom(data, e);
      SplitAt(data, start, e);
    } else {
      assert GroupsOf(data, runs) == [];
      assert Stored([]) == Arrays([], [], []);
    }
  }

  lemma LoadStoreRoundTrip(data: Arrays)
    requires |data.features| == |data.videoIds| == |data.timestamps|
    ensures Stored(Regroup(data)) == data
  {
    RegroupFrom(data, 0);
  }

  // ---------------------------------------------------------------------------
  // format_list_truncated

  function Join(items: seq<string>, sep: string): string
  {
    if items == [] then "" else if |items| == 1 then items[0] else items[0] + sep + Join(items[1..], sep)
  }

  /** `str(list)`, given the `repr` of each element. */
  function ListStr(items: seq<string>): string
  {
    "[" + Join(items, ", ") + "]"
  }

  /** `s.rstrip(c)`: every trailing `c` removed. */
  function RStrip(s: string, c: char): (r: string)
    ensures |r| <= |s| && r == s[..|r|]
    ensures forall i :: |r| <= i < |s| ==> s[i] == c
    ensures r == [] || r[|r| - 1] != c
  {
    if s != [] && s[|s| - 1] == c then RStrip(s[..|s| - 1], c) else s
  }

  /** `format_list_truncated`: the list in brackets, cut after three items. */
  function FormatListTruncated(items: seq<string>): (r: string)
    ensures |r| >= 2 && r[0] == '[' && r[|r| - 1] == ']'
    ensures |items| > 3 ==> |r| >= 7 && r[|r| - 6..] == ", ...]"
  {
    if |items| <= 3 then ListStr(items)
    else
      var head := RStrip(ListStr(items[..3]), ']');
      assert ListStr(items[..3])[0] == '[';
      assert (head + ", ...]")[|head|..] == ", ...]";
      head + ", ...]"
  }

  /** Up to three items are rendered in full; beyond that the first three are
      shown followed by `, ...]`, with exactly one bracket dropped whenever the
      third rendering does not itself end in `]` (as with integer ids). */
  lemma FormatListTruncatedShape(items: seq<string>)
    ensures |items| <= 3 ==> FormatListTruncated(items) == "[" + Join(items, ", ") + "]"
    ensures |items| > 3 && (items[2] == [] || items[2][|items[2]| - 1] != ']') ==>
      FormatListTruncated(items) == "[" + Join(items[..3], ", ") + ", ...]"
  {
    if |items| > 3 && (items[2] == [] || items[2][|items[2]| - 1] != ']') {
      var body := "[" + Join(items[..3], ", ");
      assert items[..3] == [items[0], items[1], items[2]];
      assert [items[0], items[1], items[2]][1..] == [items[1], items[2]];
      assert [items[1], items[2]][1..] == [items[2]];
      assert Join([items[2]], ", ") == items[2];
      assert Join([items[1], items[2]], ", ") == items[1] + ", " + items[2];
      assert Join(items[..3], ", ") == items[0] + ", " + (items[1] + ", " + items[2]);
      assert body[|body| - 1] != ']';
      assert ListStr(items[..3]) == body + "]";
      assert ListStr(items[..3])[..|ListStr(items[..3])| - 1] == body;
    }
  }

  // ---------------------------------------------------------------------------
  // DescriptorSubmission

  /** `DescriptorSubmission.MAX_DIM` */
  const MaxDim: nat := 512

  predicate HasNaN(rows: seq<Row>)
  {
    exists i, j :: 0 <= i < |rows| && 0 <= j < |rows[i]| && rows[i][j].NaN?
  }

  /** The submitted ids that are not valid ids. */
  function InvalidIdSet(videoIds: seq<int>, validIds: set<int>): (r: set<int>)
    ensures forall id :: id in r <==> id in videoIds && id !in validIds
  {
    (set id | id in videoIds) - validIds
  }

  /** `_validate_descriptors`: fewer rows than `maxRows` (strictly), at most
      `MaxDim` columns (`ndims` is `features.shape[1]`), no NaN, and every
      submitted id valid; checked in that order. */
  function ValidateDescriptors(data: Arrays, ndims: nat, validIds: set<int>, maxRows: real): (r: Outcome)
    ensures r.Fail? <==>
      (|data.features| as real >= maxRows || ndims > MaxDim || HasNaN(data.features)
       || InvalidIdSet(data.videoIds, validIds) != {})
    ensures r.Fail? ==> r.error.DataValidationError?
    ensures r.Fail? && r.error.failure.TooManyRows? <==> |data.features| as real >= maxRows
    ensures r.Fail? && r.error.failure.TooManyDims? <==> |data.features| as real < maxRows && ndims > MaxDim
    ensures r.Fail? && r.error.failure.NullValue? <==>
      |data.features| as real < maxRows && ndims <= MaxDim && HasNaN(data.features)
    ensures r.Fail? && r.error.failure.InvalidIds? <==>
      |data.features| as real < maxRows && ndims <= MaxDim && !HasNaN(data.features)
      && InvalidIdSet(data.videoIds, validIds) != {}
    ensures r.Fail? && r.error.failure.InvalidIds? ==> r.error.failure.ids == InvalidIdSet(data.videoIds, validIds)
  {
    var nrows := |data.features|;
    if !(nrows as real < maxRows) then Fail(DataValidationError(TooManyRows(maxRows, nrows)))
    else if !(ndims <= MaxDim) then Fail(DataValidationError(TooManyDims(ndims)))
    else if HasNaN(data.features) then Fail(DataValidationError(NullValue))
    else
      var invalid := InvalidIdSet(data.videoIds, validIds);
      if invalid != {} then Fail(DataValidationError(InvalidIds(invalid)))
      else Pass
  }

  /** The length check of `_load_datset`. */
  function LoadDataset(data: Arrays): (r: Result<Arrays>)
    ensures r.Ok? <==> |data.features| == |data.videoIds| == |data.timestamps|
    ensures r.Ok? ==> r.value == data
    ensures r.Err? ==> r.error == DataValidationError(LengthMismatch)
  {
    if |data.features| == |data.videoIds| && |data.features| == |data.timestamps| then Ok(data)
    else Err(DataValidationError(LengthMismatch))
  }

  datatype DescriptorSubmission = DescriptorSubmission(query: Arrays, reference: Arrays)

  /** `DescriptorSubmission.__init__`, from the already loaded metadata (valid
      ids and row caps): load both files, then validate query and reference. */
  function NewDescriptorSubmission(query: Arrays, queryDims: nat, reference: Arrays, referenceDims: nat,
                                   validQueryIds: set<int>, maxQueryRows: real,
                                   validReferenceIds: set<int>, maxReferenceRows: real): (r: Result<DescriptorSubmission>)
    ensures r.Ok? <==>
      && LoadDataset(query).Ok? && LoadDataset(reference).Ok?
      && ValidateDescriptors(query, queryDims, validQueryIds, maxQueryRows).Pass?
      && ValidateDescriptors(reference, referenceDims, validReferenceIds, maxReferenceRows).Pass?
    ensures r.Ok? ==> r.value == DescriptorSubmission(query, reference)
    ensures r.Err? ==> r.error.DataValidationError?
  {
    var q := LoadDataset(query);
    if q.Err? then Err(q.error)
    else
      var ref := LoadDataset(reference);
      if ref.Err? then Err(ref.error)
      else
        var vq := ValidateDescriptors(q.value, queryDims, validQueryIds, maxQueryRows);
        if vq.Fail? then Err(vq.error)
        else
          var vr := ValidateDescriptors(ref.value, referenceDims, validReferenceIds, maxReferenceRows);
          if vr.Fail? then Err(vr.error)
          else Ok(DescriptorSubmission(q.value, ref.value))
  }
}
