/** Model of `MicroAveragePrecision.score` in runtime/scoring/metric.py: reject
    non-finite scores, sort the predictions by score, label each one by a
    left merge with the ground truth, compute the average precision
    `sum_k (R_k - R_{k-1}) P_k` over the distinct score thresholds, and
    rescale it from the predicted positives to all ground-truth positives.
    Also the ground-truth subset filter of the command line entry point. */
module Metric {
  import opened Seqs
  import Utils

  datatype Option<T> = None | Some(value: T)

  /** Video ids as they appear in the CSV files (`Q0001`, `R00002`, ...). */
  type Id = string

  /** A row of the submission: a candidate pair and its score. A blank
      reference cell is read as a missing value. */
  datatype Prediction = Prediction(queryId: Id, referenceId: Option<Id>, score: Utils.Float)

  /** A row of the ground truth; a query with no copy has no reference id. */
  datatype GroundTruth = GroundTruth(queryId: Id, referenceId: Option<Id>)

  /** A row of the merged frame: its score and its `actual` label (1.0 or 0.0). */
  datatype Labelled = Labelled(score: real, actual: bool)

  predicate AllFinite(preds: seq<Prediction>)
  {
    forall i :: 0 <= i < |preds| ==> preds[i].score.Finite?
  }

  /** The score of a prediction once all scores are known to be finite. */
  function ScoreOf(p: Prediction): real
  {
    if p.score.Finite? then p.score.value else 0.0
  }

  // ---------------------------------------------------------------------------
  // Sorting the submission by score, highest first

  ghost predicate SortedDesc<T>(s: seq<T>, key: T -> real)
  {
    forall i, j :: 0 <= i < j < |s| ==> key(s[i]) >= key(s[j])
  }

  function Insert<T(==)>(x: T, s: seq<T>, key: T -> real): (r: seq<T>)
    ensures multiset(r) == multiset(s) + multiset{x}
  {
    if s == [] then [x]
    else if key(x) >= key(s[0]) then [x] + s
    else
      assert s == [s[0]] + s[1..];
      [s[0]] + Insert(x, s[1..], key)
  }

  lemma {:induction false} InsertSorted<T>(x: T, s: seq<T>, key: T -> real)
    requires SortedDesc(s, key)
    ensures SortedDesc(Insert(x, s, key), key)
  {
    if s == [] {
    } else if key(x) >= key(s[0]) {
      ConsSorted(x, s, key);
    } else {
      var rest := Insert(x, s[1..], key);
      InsertSorted(x, s[1..], key);
      InsertBounded(x, s[1..], key, key(s[0]));
      ConsSorted(s[0], rest, key);
    }
  }

  /** Inserting below a bound keeps every key below it. */
  lemma {:induction false} InsertBounded<T>(x: T, s: seq<T>, key: T -> real, bound: real)
    requires key(x) <= bound && forall k :: 0 <= k < |s| ==> key(s[k]) <= bound
    ensures forall k :: 0 <= k < |Insert(x, s, key)| ==> key(Insert(x, s, key)[k]) <= bound
  {
    if s != [] && key(x) < key(s[0]) {
      InsertBounded(x, s[1..], key, bound);
    }
  }

  lemma ConsSorted<T>(y: T, s: seq<T>, key: T -> real)
    requires SortedDesc(s, key) && forall k :: 0 <= k < |s| ==> key(s[k]) <= key(y)
    ensures SortedDesc([y] + s, key)
  {
    var r := [y] + s;
    forall i, j | 0 <= i < j < |r|
      ensures key(r[i]) >= key(r[j])
    {
      assert r[j] == s[j - 1];
      if i > 0 {
        assert r[i] == s[i - 1];
      }
    }
  }

  /** `s` ordered by `key`, largest first; how ties are ordered is left open
      in the source, and nothing below depends on it. */
  function SortDesc<T(==)>(s: seq<T>, key: T -> real): (r: seq<T>)
    ensures SortedDesc(r, key)
    ensures multiset(r) == multiset(s)
  {
    if s == [] then []
    else
      assert s == [s[0]] + s[1..];
      InsertSorted(s[0], SortDesc(s[1..], key), key);
      Insert(s[0], SortDesc(s[1..], key), key)
  }

  lemma SortDescSameElements<T>(s: seq<T>, key: T -> real, x: T)
    ensures x in SortDesc(s, key) <==> x in s
  {
    assert x in SortDesc(s, key) <==> x in multiset(SortDesc(s, key));
    assert x in s <==> x in multiset(s);
  }

  predicate Descending(s: seq<real>)
  {
    forall i, j :: 0 <= i < j < |s| ==> s[i] >= s[j]
  }

  /** Two descending sequences with the same elements are equal. */
  lemma {:induction false} SortedUnique(a: seq<real>, b: seq<real>)
    requires Descending(a) && Descending(b)
    requires multiset(a) == multiset(b)
    ensures a == b
  {
    if a == [] {
      assert |b| == |multiset(b)| == 0;
    } else {
      assert |b| == |multiset(b)| == |multiset(a)| > 0;
      assert a[0] <= b[0] by {
        assert a[0] in multiset(b);
        var i :| 0 <= i < |b| && b[i] == a[0];
        assert i == 0 || b[0] >= b[i];
      }
      assert b[0] <= a[0] by {
        assert b[0] in multiset(a);
        var j :| 0 <= j < |a| && a[j] == b[0];
        assert j == 0 || a[0] >= a[j];
      }
      MultisetTail(a, b);
      SortedUnique(a[1..], b[1..]);
    }
  }

  lemma MultisetTail<T>(a: seq<T>, b: seq<T>)
    requires a != [] && b != [] && a[0] == b[0] && multiset(a) == multiset(b)
    ensures multiset(a[1..]) == multiset(b[1..])
  {
    var x := a[0];
    assert a == [x] + a[1..];
    assert b == [x] + b[1..];
    calc {
      multiset(a[1..]);
      multiset{x} + multiset(a[1..]) - multiset{x};
      multiset(a) - multiset{x};
      multiset(b) - multiset{x};
      multiset{x} + multiset(b[1..]) - multiset{x};
      multiset(b[1..]);
    }
  }

  // ---------------------------------------------------------------------------
  // The left merge with the ground truth, missing labels set to 0

  /** The merge keys agree. A missing reference id on both sides counts as
      agreement, as in a pandas merge. */
  predicate IsMatch(p: Prediction, g: GroundTruth)
  {
    g.queryId == p.queryId && g.referenceId == p.referenceId
  }

  function Matches(p: Prediction): GroundTruth -> bool
  {
    g => IsMatch(p, g)
  }

  /** How many ground-truth rows carry the prediction's pair. */
  function MatchCount(p: Prediction, gt: seq<GroundTruth>): nat
  {
    |Filter(Matches(p), gt)|
  }

  /** The merged rows of one prediction: one labelled 1.0 per matching
      ground-truth row, or a single row labelled 0.0 when none matches. */
  function RowsFor(p: Prediction, gt: seq<GroundTruth>): (rows: seq<Labelled>)
    ensures |rows| == Max(1, MatchCount(p, gt))
    ensures forall i :: 0 <= i < |rows| ==> rows[i].score == ScoreOf(p) && (rows[i].actual <==> MatchCount(p, gt) > 0)
  {
    var k := MatchCount(p, gt);
    if k == 0 then [Labelled(ScoreOf(p), false)] else Repeat(Labelled(ScoreOf(p), true), k)
  }

  /** The left merge, in the order of the predictions. */
  function MergeRows(gt: seq<GroundTruth>): Prediction -> seq<Labelled>
  {
    p => RowsFor(p, gt)
  }

  /** The left merge of the predictions with the ground truth. Every
      prediction keeps at least one row; with duplicate-free ground truth the
      merged rows are the predictions, one for one and in order, each labelled
      by whether its pair is in the ground truth. */
  function LeftMerge(preds: seq<Prediction>, gt: seq<GroundTruth>): (r: seq<Labelled>)
    ensures |r| >= |preds|
    ensures UniquePairs(gt) ==> |r| == |preds|
    ensures UniquePairs(gt) ==> forall i :: 0 <= i < |preds| ==>
      r[i] == Labelled(ScoreOf(preds[i]), exists j :: 0 <= j < |gt| && IsMatch(preds[i], gt[j]))
  {
    var f := MergeRows(gt);
    assert forall i :: 0 <= i < |preds| ==> |f(preds[i])| >= 1;
    FlatMapAtLeastOne(f, preds);
    assert UniquePairs(gt) ==> |FlatMap(f, preds)| == |preds| && forall i :: 0 <= i < |preds| ==>
      FlatMap(f, preds)[i] == Labelled(ScoreOf(preds[i]), exists j :: 0 <= j < |gt| && IsMatch(preds[i], gt[j])) by {
      if UniquePairs(gt) {
        forall i | 0 <= i < |preds|
          ensures |f(preds[i])| == 1
          ensures f(preds[i])[0] == Labelled(ScoreOf(preds[i]), exists j :: 0 <= j < |gt| && IsMatch(preds[i], gt[j]))
        {
          UniqueMatchCount(preds[i], gt);
          MatchCountPositive(preds[i], gt);
        }
        FlatMapSingletons(f, preds);
      }
    }
    FlatMap(f, preds)
  }

  /** No ground-truth row appears twice. */
  ghost predicate UniquePairs(gt: seq<GroundTruth>)
  {
    forall i, j :: 0 <= i < j < |gt| ==> gt[i] != gt[j]
  }

  lemma {:induction false} UniqueMatchCount(p: Prediction, gt: seq<GroundTruth>)
    requires UniquePairs(gt)
    ensures MatchCount(p, gt) <= 1
  {
    if gt != [] {
      var rest := gt[1..];
      assert UniquePairs(rest) by {
        forall i, j | 0 <= i < j < |rest|
          ensures rest[i] != rest[j]
        {
          assert rest[i] == gt[i + 1] && rest[j] == gt[j + 1];
        }
      }
      UniqueMatchCount(p, rest);
      if IsMatch(p, gt[0]) {
        forall i | 0 <= i < |rest|
          ensures !IsMatch(p, rest[i])
        {
          assert rest[i] == gt[i + 1];
        }
        FilterNone(Matches(p), rest);
      }
    }
  }

  /** A prediction is labelled 1.0 exactly when its pair is in the ground truth. */
  lemma MatchCountPositive(p: Prediction, gt: seq<GroundTruth>)
    ensures MatchCount(p, gt) > 0 <==> exists j :: 0 <= j < |gt| && IsMatch(p, gt[j])
  {
    FilterMembers(Matches(p), gt);
    if MatchCount(p, gt) > 0 {
      var x := Filter(Matches(p), gt)[0];
      assert x in Filter(Matches(p), gt);
      assert x in gt;
      var j :| 0 <= j < |gt| && gt[j] == x;
      assert IsMatch(p, gt[j]);
    }
    forall j | 0 <= j < |gt| && IsMatch(p, gt[j])
      ensures MatchCount(p, gt) > 0
    {
      assert gt[j] in Filter(Matches(p), gt);
    }
  }

  // ---------------------------------------------------------------------------
  // average_precision_score

  function ScoreCell(x: Labelled): seq<real>
  {
    [x.score]
  }

  /** The scores of the rows, in row order. */
  function Scores(rows: seq<Labelled>): (r: seq<real>)
    ensures |r| == |rows| && forall i :: 0 <= i < |rows| ==> r[i] == rows[i].score
  {
    FlatMapSingletons(ScoreCell, rows);
    FlatMap(ScoreCell, rows)
  }

  function LabelScore(x: Labelled): real
  {
    x.score
  }

  /** The values of a sorted sequence, each once. */
  function Dedup(s: seq<real>): (r: seq<real>)
    requires Descending(s)
    ensures forall x :: x in r <==> x in s
    ensures forall i, j :: 0 <= i < j < |r| ==> r[i] > r[j]
  {
    if |s| <= 1 then s
    else if s[0] == s[1] then Dedup(s[1..])
    else
      var rest := Dedup(s[1..]);
      assert forall k :: 0 <= k < |rest| ==> rest[k] < s[0] by {
        forall k | 0 <= k < |rest|
          ensures rest[k] < s[0]
        {
          assert rest[k] in s[1..];
          var m :| 0 <= m < |s| - 1 && s[1..][m] == rest[k];
          assert s[1] >= s[m + 1];
        }
      }
      [s[0]] + rest
  }

  /** The scores of a sorted copy of `rows` fall from the highest down, and
      are exactly the scores of `rows`. */
  lemma SortedScores(rows: seq<Labelled>)
    ensures Descending(Scores(SortDesc(rows, LabelScore)))
    ensures forall t :: t in Scores(SortDesc(rows, LabelScore)) <==> exists i :: 0 <= i < |rows| && rows[i].score == t
  {
    var sorted := SortDesc(rows, LabelScore);
    var ss := Scores(sorted);
    forall i, j | 0 <= i < j < |sorted|
      ensures ss[i] >= ss[j]
    {
      assert LabelScore(sorted[i]) >= LabelScore(sorted[j]);
    }
    forall t
      ensures t in ss <==> exists i :: 0 <= i < |rows| && rows[i].score == t
    {
      if t in ss {
        SortedScoreFromRow(rows, t);
      }
      if exists i :: 0 <= i < |rows| && rows[i].score == t {
        var i :| 0 <= i < |rows| && rows[i].score == t;
        RowScoreSorted(rows, i);
      }
    }
  }

  lemma SortedScoreFromRow(rows: seq<Labelled>, t: real)
    requires t in Scores(SortDesc(rows, LabelScore))
    ensures exists i :: 0 <= i < |rows| && rows[i].score == t
  {
    var sorted := SortDesc(rows, LabelScore);
    var ss := Scores(sorted);
    var k :| 0 <= k < |ss| && ss[k] == t;
    var x := sorted[k];
    assert x.score == t;
    SortDescSameElements(rows, LabelScore, x);
    var i :| 0 <= i < |rows| && rows[i] == x;
  }

  lemma RowScoreSorted(rows: seq<Labelled>, i: nat)
    requires i < |rows|
    ensures rows[i].score in Scores(SortDesc(rows, LabelScore))
  {
    var sorted := SortDesc(rows, LabelScore);
    SortDescSameElements(rows, LabelScore, rows[i]);
    var k :| 0 <= k < |sorted| && sorted[k] == rows[i];
    assert Scores(sorted)[k] == rows[i].score;
  }

  /** The score thresholds: every distinct score, from the highest down. */
  function Thresholds(rows: seq<Labelled>): (r: seq<real>)
    ensures forall i, j :: 0 <= i < j < |r| ==> r[i] > r[j]
    ensures forall t :: t in r <==> exists i :: 0 <= i < |rows| && rows[i].score == t
  {
    SortedScores(rows);
    Dedup(Scores(SortDesc(rows, LabelScore)))
  }

  function AtLeast(t: real): Labelled -> bool
  {
    (x: Labelled) => x.score >= t
  }

  function PositiveAtLeast(t: real): Labelled -> bool
  {
    (x: Labelled) => x.actual && x.score >= t
  }

  predicate IsPositive(x: Labelled)
  {
    x.actual
  }

  /** The rows predicted positive at threshold `t`. */
  function CountAtLeast(rows: seq<Labelled>, t: real): nat
  {
    |Filter(AtLeast(t), rows)|
  }

  /** The true positives at threshold `t`. */
  function PosAtLeast(rows: seq<Labelled>, t: real): nat
  {
    |Filter(PositiveAtLeast(t), rows)|
  }

  /** The number of merged rows labelled 1. */
  function NumPos(rows: seq<Labelled>): nat
  {
    |Filter(IsPositive, rows)|
  }

  /** Precision at threshold `t`: the share of positives among the rows
      scored `t` or more. When no row reaches `t` there are no true
      positives either, and dividing by 1 makes that 0. */
  function Precision(rows: seq<Labelled>, t: real): real
  {
    PosAtLeast(rows, t) as real / Max(1, CountAtLeast(rows, t)) as real
  }

  /** One point of the precision-recall curve: recall and precision at a
      threshold. */
  datatype CurvePoint = CurvePoint(recall: real, precision: real)

  /** The curve at each threshold of `ts`, with recall measured against
      `positives` positives. */
  function Curve(rows: seq<Labelled>, ts: seq<real>, positives: real): seq<CurvePoint>
    requires positives > 0.0
  {
    seq(|ts|, k requires 0 <= k < |ts| => CurvePoint(PosAtLeast(rows, ts[k]) as real / positives, Precision(rows, ts[k])))
  }

  /** `sum_k (R_k - R_{k-1}) P_k` over the curve points, where `previous` is
      the recall before the first point. */
  function CurveSum(points: seq<CurvePoint>, previous: real): real
  {
    if points == [] then 0.0
    else (points[0].recall - previous) * points[0].precision + CurveSum(points[1..], points[0].recall)
  }

  /** The average precision of the labelled rows: the sum over the distinct
      score thresholds, from the highest down, with `R_0 = 0` and recall
      measured against the positives among the rows. */
  function AveragePrecision(rows: seq<Labelled>): (r: real)
    requires NumPos(rows) > 0
    ensures 0.0 <= r <= 1.0
  {
    var ts := Thresholds(rows);
    var a := NumPos(rows) as real;
    assert Descending(ts) by {
      forall i, j | 0 <= i < j < |ts|
        ensures ts[i] >= ts[j]
      {
      }
    }
    CurveShape(rows, ts, a);
    OneDivSelf(a);
    CurveSumBounds(Curve(rows, ts, a), 0.0, 1.0);
    CurveSum(Curve(rows, ts, a), 0.0)
  }

  /** The ground-truth rows with a reference id. */
  function ActualPositives(gt: seq<GroundTruth>): nat
  {
    |Filter(HasReference, gt)|
  }

  predicate HasReference(g: GroundTruth)
  {
    g.referenceId.Some?
  }

  /** The merged frame `score` builds from finite predictions: the
      predictions sorted by score, highest first, then merged. With
      duplicate-free ground truth it has one row per prediction and its scores
      descend. */
  function Merged(preds: seq<Prediction>, gt: seq<GroundTruth>): (r: seq<Labelled>)
    ensures |r| >= |preds|
    ensures UniquePairs(gt) ==> |r| == |preds|
    ensures UniquePairs(gt) ==> forall i, j :: 0 <= i < j < |r| ==> r[i].score >= r[j].score
  {
    var sorted := SortDesc(preds, ScoreOf);
    assert |sorted| == |preds| by {
      assert |multiset(sorted)| == |multiset(preds)|;
    }
    LeftMerge(sorted, gt)
  }

  /** The average precision, or 0.0 when no row is labelled 1. */
  function Unadjusted(merged: seq<Labelled>): (r: real)
    ensures 0.0 <= r <= 1.0
    ensures NumPos(merged) == 0 ==> r == 0.0
  {
    if NumPos(merged) > 0 then AveragePrecision(merged) else 0.0
  }

  /** The adjustment of the average precision by the share of ground-truth
      positives that were predicted at all. */
  function Adjust(unadjusted: real, predicted: nat, actual: nat): (r: real)
    requires actual > 0
    ensures 0.0 <= unadjusted ==> 0.0 <= r
    ensures 0.0 < unadjusted ==> (r <= unadjusted <==> predicted <= actual)
  {
    AdjustScales(unadjusted, predicted as real, actual as real);
    unadjusted * (predicted as real / actual as real)
  }

  lemma AdjustScales(u: real, p: real, a: real)
    requires a > 0.0 && p >= 0.0
    ensures 0.0 <= u ==> 0.0 <= u * (p / a)
    ensures 0.0 < u ==> (u * (p / a) <= u <==> p <= a)
  {
    assert 0.0 <= p / a;
    assert p / a <= 1.0 <==> p <= a;
    if 0.0 < u {
      assert u * (p / a) <= u * 1.0 <==> p / a <= 1.0;
    }
  }

  /** The score of a submission (`MicroAveragePrecision.score`): a rejection
      of non-finite scores, the average precision of the merged rows, rescaled
      by the share of ground-truth positives that were predicted. */
  function Score(preds: seq<Prediction>, gt: seq<GroundTruth>): (r: Utils.Result<real>)
    ensures r == Utils.Err(Utils.DataValidationError(Utils.ScoresNotFinite)) <==> !AllFinite(preds)
    ensures AllFinite(preds) ==> (r.Err? <==> ActualPositives(gt) == 0)
    ensures AllFinite(preds) && r.Err? ==> r.error == Utils.ZeroDivisionError
  {
    if !AllFinite(preds) then Utils.Err(Utils.DataValidationError(Utils.ScoresNotFinite))
    else
      var merged := Merged(preds, gt);
      var unadjusted := Unadjusted(merged);
      var predictedNPos := NumPos(merged);
      var actualNPos := ActualPositives(gt);
      if actualNPos == 0 then Utils.Err(Utils.ZeroDivisionError)
      else Utils.Ok(Adjust(unadjusted, predictedNPos, actualNPos))
  }

  // ---------------------------------------------------------------------------
  // Precision and recall

  /** Raising the threshold never adds predicted or true positives, and the
      true positives at any threshold are among the predicted ones and among
      all positives. */
  lemma CountsMonotone(rows: seq<Labelled>, t: real, u: real)
    requires t >= u
    ensures PosAtLeast(rows, t) <= PosAtLeast(rows, u)
    ensures CountAtLeast(rows, t) <= CountAtLeast(rows, u)
    ensures PosAtLeast(rows, t) <= CountAtLeast(rows, t)
    ensures PosAtLeast(rows, t) <= NumPos(rows)
  {
    FilterWeaker(PositiveAtLeast(t), PositiveAtLeast(u), rows);
    FilterWeaker(AtLeast(t), AtLeast(u), rows);
    FilterWeaker(PositiveAtLeast(t), AtLeast(t), rows);
    FilterWeaker(PositiveAtLeast(t), IsPositive, rows);
  }

  lemma DivBounds(x: real, y: real, d: real)
    requires d > 0.0 && 0.0 <= x <= y
    ensures 0.0 <= x / d <= y / d
  {
    assert x / d * d == x && y / d * d == y;
  }

  lemma PrecisionBounds(rows: seq<Labelled>, t: real)
    ensures 0.0 <= Precision(rows, t) <= 1.0
  {
    CountsMonotone(rows, t, t);
    var n := CountAtLeast(rows, t);
    if n > 0 {
      assert Precision(rows, t) == PosAtLeast(rows, t) as real / n as real;
      DivBounds(PosAtLeast(rows, t) as real, n as real, n as real);
      OneDivSelf(n as real);
    } else {
      assert PosAtLeast(rows, t) == 0;
    }
  }

  /** A curve whose precisions lie in [0, 1] and whose recall grows from
      point to point and stays within `0..top`. */
  ghost predicate IsCurve(points: seq<CurvePoint>, top: real)
  {
    && (forall k :: 0 <= k < |points| ==> 0.0 <= points[k].precision <= 1.0)
    && (forall k :: 0 <= k < |points| ==> 0.0 <= points[k].recall <= top)
    && (forall k, k' :: 0 <= k < k' < |points| ==> points[k].recall <= points[k'].recall)
  }

  /** Over falling thresholds recall grows, up to all positives among the
      rows. */
  lemma CurveShape(rows: seq<Labelled>, ts: seq<real>, positives: real)
    requires positives > 0.0 && Descending(ts)
    ensures IsCurve(Curve(rows, ts, positives), NumPos(rows) as real / positives)
  {
    var points := Curve(rows, ts, positives);
    forall k | 0 <= k < |points|
      ensures 0.0 <= points[k].precision <= 1.0
      ensures 0.0 <= points[k].recall <= NumPos(rows) as real / positives
    {
      PrecisionBounds(rows, ts[k]);
      CountsMonotone(rows, ts[k], ts[k]);
      DivBounds(PosAtLeast(rows, ts[k]) as real, NumPos(rows) as real, positives);
    }
    forall k, k' | 0 <= k < k' < |points|
      ensures points[k].recall <= points[k'].recall
    {
      CountsMonotone(rows, ts[k], ts[k']);
      DivBounds(PosAtLeast(rows, ts[k]) as real, PosAtLeast(rows, ts[k']) as real, positives);
    }
  }

  lemma StepBounds(recall: real, previous: real, precision: real)
    requires previous <= recall && 0.0 <= precision <= 1.0
    ensures 0.0 <= (recall - previous) * precision <= recall - previous
  {
    var d := recall - previous;
    assert d * precision + d * (1.0 - precision) == d;
    MulNonNegative(d, precision);
    MulNonNegative(d, 1.0 - precision);
  }

  lemma CurveTail(points: seq<CurvePoint>, top: real)
    requires points != [] && IsCurve(points, top)
    ensures IsCurve(points[1..], top)
  {
    var rest := points[1..];
    forall k, k' | 0 <= k < k' < |rest|
      ensures rest[k].recall <= rest[k'].recall
    {
      assert rest[k] == points[k + 1] && rest[k'] == points[k' + 1];
    }
  }

  /** Each term of the sum is a recall increase weighted by a precision in
      [0, 1], so the sum lies between 0 and the total increase in recall. */
  lemma {:induction false} CurveSumBounds(points: seq<CurvePoint>, previous: real, top: real)
    requires IsCurve(points, top)
    requires points != [] ==> previous <= points[0].recall
    requires previous <= top
    ensures 0.0 <= CurveSum(points, previous) <= top - previous
  {
    if points != [] {
      StepBounds(points[0].recall, previous, points[0].precision);
      if |points| > 1 {
        assert points[0].recall <= points[1].recall;
      }
      CurveTail(points, top);
      CurveSumBounds(points[1..], points[0].recall, top);
    }
  }

  lemma MulNonNegative(x: real, y: real)
    requires x >= 0.0 && y >= 0.0
    ensures x * y >= 0.0
  {
  }

  lemma OneDivSelf(a: real)
    requires a > 0.0
    ensures a / a == 1.0
  {
  }

  // ---------------------------------------------------------------------------
  // The rescale

  /** The curve with every recall multiplied by `c`. */
  function ScaleRecall(points: seq<CurvePoint>, c: real): (r: seq<CurvePoint>)
    ensures |r| == |points|
  {
    seq(|points|, k requires 0 <= k < |points| => CurvePoint(points[k].recall * c, points[k].precision))
  }

  lemma StepScale(recall: real, previous: real, precision: real, rest: real, rest': real, c: real)
    requires rest * c == rest'
    ensures ((recall - previous) * precision + rest) * c == (recall * c - previous * c) * precision + rest'
  {
    assert ((recall - previous) * precision + rest) * c == (recall - previous) * precision * c + rest * c;
    assert (recall - previous) * precision * c == (recall * c - previous * c) * precision;
  }

  /** Scaling every recall, and the starting recall, by `c` scales the sum by `c`. */
  lemma {:induction false} CurveSumScale(points: seq<CurvePoint>, previous: real, c: real)
    ensures CurveSum(points, previous) * c == CurveSum(ScaleRecall(points, c), previous * c)
  {
    if points != [] {
      var scaled := ScaleRecall(points, c);
      ScaleRecallTail(points, c);
      var rest := CurveSum(points[1..], points[0].recall);
      var rest' := CurveSum(scaled[1..], points[0].recall * c);
      CurveSumScale(points[1..], points[0].recall, c);
      assert rest * c == rest';
      StepScale(points[0].recall, previous, points[0].precision, rest, rest', c);
      assert CurveSum(scaled, previous * c)
          == (points[0].recall * c - previous * c) * points[0].precision + rest';
    }
  }

  lemma ScaleRecallTail(points: seq<CurvePoint>, c: real)
    requires points != []
    ensures ScaleRecall(points, c)[0] == CurvePoint(points[0].recall * c, points[0].precision)
    ensures ScaleRecall(points, c)[1..] == ScaleRecall(points[1..], c)
  {
    var scaled := ScaleRecall(points, c);
    forall k | 0 <= k < |points| - 1
      ensures scaled[1..][k] == ScaleRecall(points[1..], c)[k]
    {
      assert points[1..][k] == points[k + 1];
    }
  }

  lemma CurveSumScaleFromZero(points: seq<CurvePoint>, c: real)
    ensures CurveSum(points, 0.0) * c == CurveSum(ScaleRecall(points, c), 0.0)
  {
    CurveSumScale(points, 0.0, c);
    assert 0.0 * c == 0.0;
  }

  lemma RatioChain(g: real, n: real, b: real)
    requires n > 0.0 && b > 0.0
    ensures (g / n) * (n / b) == g / b
  {
    assert (g / n) * n == g;
    assert (n / b) * b == n;
    assert (g / n) * (n / b) * b == g;
  }

  /** Recall against `n` positives, scaled by `n / b`, is recall against `b`. */
  lemma CurveRescale(rows: seq<Labelled>, ts: seq<real>, n: real, b: real)
    requires n > 0.0 && b > 0.0
    ensures ScaleRecall(Curve(rows, ts, n), n / b) == Curve(rows, ts, b)
  {
    forall k | 0 <= k < |ts|
      ensures ScaleRecall(Curve(rows, ts, n), n / b)[k] == Curve(rows, ts, b)[k]
    {
      RatioChain(PosAtLeast(rows, ts[k]) as real, n, b);
    }
  }

  /** The sum with recall against `n` positives, adjusted by `n / b`, is the
      sum with recall against `b` positives. */
  lemma CurveSumRescale(rows: seq<Labelled>, ts: seq<real>, n: nat, b: nat)
    requires n > 0 && b > 0
    ensures Adjust(CurveSum(Curve(rows, ts, n as real), 0.0), n, b) == CurveSum(Curve(rows, ts, b as real), 0.0)
  {
    var c := n as real / b as real;
    var points := Curve(rows, ts, n as real);
    assert Adjust(CurveSum(points, 0.0), n, b) == CurveSum(points, 0.0) * c;
    CurveSumScaleFromZero(points, c);
    CurveRescale(rows, ts, n as real, b as real);
    assert ScaleRecall(points, c) == Curve(rows, ts, b as real);
  }

  /** With no recall at any point the sum is 0. */
  lemma {:induction false} CurveSumNoRecall(points: seq<CurvePoint>)
    requires forall k :: 0 <= k < |points| ==> points[k].recall == 0.0
    ensures CurveSum(points, 0.0) == 0.0
  {
    if points != [] {
      assert forall k :: 0 <= k < |points| - 1 ==> points[1..][k] == points[k + 1];
      CurveSumNoRecall(points[1..]);
    }
  }

  lemma ScoreOk(preds: seq<Prediction>, gt: seq<GroundTruth>)
    requires AllFinite(preds) && ActualPositives(gt) > 0
    ensures Score(preds, gt) == Utils.Ok(Adjust(Unadjusted(Merged(preds, gt)), NumPos(Merged(preds, gt)), ActualPositives(gt)))
  {
  }

  /** With no row labelled 1 no point has any recall. */
  lemma CurveNoPositives(merged: seq<Labelled>, ts: seq<real>, b: real)
    requires NumPos(merged) == 0 && b > 0.0
    ensures forall k :: 0 <= k < |ts| ==> Curve(merged, ts, b)[k].recall == 0.0
  {
    forall k | 0 <= k < |ts|
      ensures Curve(merged, ts, b)[k].recall == 0.0
    {
      CountsMonotone(merged, ts[k], ts[k]);
    }
  }

  // ---------------------------------------------------------------------------
  // The ground-truth subset filter of the command line entry point

  /** The ids of the subset file that are also query ids of the ground truth. */
  function SubsetIndex(subset: seq<Id>, gt: seq<GroundTruth>): set<Id>
  {
    (set v | v in subset) * (set g | g in gt :: g.queryId)
  }

  function InIndex(index: set<Id>): GroundTruth -> bool
  {
    (g: GroundTruth) => g.queryId in index
  }

  function InSubset(subset: seq<Id>): GroundTruth -> bool
  {
    (g: GroundTruth) => g.queryId in subset
  }

  /** The ground-truth rows whose query id is in that index, in their order. */
  function SubsetGroundTruth(gt: seq<GroundTruth>, subset: seq<Id>): (r: seq<GroundTruth>)
    ensures forall g :: g in r <==> g in gt && g.queryId in subset
  {
    FilterMembers(InIndex(SubsetIndex(subset, gt)), gt);
    Filter(InIndex(SubsetIndex(subset, gt)), gt)
  }

  /** Intersecting with the ground truth's own query ids changes nothing: the
      filter keeps the same rows as testing the subset alone. */
  lemma SubsetIndexRedundant(gt: seq<GroundTruth>, subset: seq<Id>)
    ensures SubsetGroundTruth(gt, subset) == Filter(InSubset(subset), gt)
  {
    var index := SubsetIndex(subset, gt);
    forall i | 0 <= i < |gt|
      ensures InIndex(index)(gt[i]) == InSubset(subset)(gt[i])
    {
      assert gt[i] in gt;
    }
    FilterSame(InIndex(index), InSubset(subset), gt);
  }
}
