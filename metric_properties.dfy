// Properties of the rescaled micro-average precision that relate the score
// to the precision-recall curve as a whole.
module MetricProperties {
  import Utils
  import opened Seqs
  import opened Metric

  /** The sum with recall against the matched positives, adjusted by the
      share of ground-truth positives matched, is the sum with recall against
      all ground-truth positives. */
  lemma ThresholdCurveRescale(merged: seq<Labelled>, gt: seq<GroundTruth>)
    requires NumPos(merged) > 0 && ActualPositives(gt) > 0
    ensures Adjust(CurveSum(Curve(merged, Thresholds(merged), NumPos(merged) as real), 0.0), NumPos(merged), ActualPositives(gt))
         == CurveSum(Curve(merged, Thresholds(merged), ActualPositives(gt) as real), 0.0)
  {
    CurveSumRescale(merged, Thresholds(merged), NumPos(merged), ActualPositives(gt));
  }

  /** Adjusting the average precision of the rows measures recall against all
      ground-truth positives instead of the positives among the rows. */
  lemma RescaleIsRecallAgainst(merged: seq<Labelled>, gt: seq<GroundTruth>)
    requires NumPos(merged) > 0 && ActualPositives(gt) > 0
    ensures Adjust(AveragePrecision(merged), NumPos(merged), ActualPositives(gt))
         == CurveSum(Curve(merged, Thresholds(merged), ActualPositives(gt) as real), 0.0)
  {
    ThresholdCurveRescale(merged, gt);
    assert AveragePrecision(merged) == CurveSum(Curve(merged, Thresholds(merged), NumPos(merged) as real), 0.0);
  }

  /** The adjusted average precision is the sum over the curve whose recall
      is measured against all ground-truth positives. With no match both
      sides are 0. */
  lemma UnadjustedRescaled(merged: seq<Labelled>, gt: seq<GroundTruth>)
    requires ActualPositives(gt) > 0
    ensures Adjust(Unadjusted(merged), NumPos(merged), ActualPositives(gt))
         == CurveSum(Curve(merged, Thresholds(merged), ActualPositives(gt) as real), 0.0)
  {
    if NumPos(merged) == 0 {
      CurveNoPositives(merged, Thresholds(merged), ActualPositives(gt) as real);
      CurveSumNoRecall(Curve(merged, Thresholds(merged), ActualPositives(gt) as real));
    } else {
      assert Unadjusted(merged) == AveragePrecision(merged);
      RescaleIsRecallAgainst(merged, gt);
    }
  }

  /** The rescaled score is the same sum with recall measured against every
      ground-truth positive. */
  lemma ScoreIsFullRecall(preds: seq<Prediction>, gt: seq<GroundTruth>)
    requires AllFinite(preds) && ActualPositives(gt) > 0
    ensures Score(preds, gt).Ok?
    ensures Score(preds, gt).value
         == CurveSum(Curve(Merged(preds, gt), Thresholds(Merged(preds, gt)), ActualPositives(gt) as real), 0.0)
  {
    UnadjustedRescaled(Merged(preds, gt), gt);
    ScoreOk(preds, gt);
  }

  /** The curve against all ground-truth positives stays below the share of
      them that was matched. */
  lemma FullRecallBounds(merged: seq<Labelled>, gt: seq<GroundTruth>)
    requires ActualPositives(gt) > 0
    ensures 0.0 <= CurveSum(Curve(merged, Thresholds(merged), ActualPositives(gt) as real), 0.0)
                <= NumPos(merged) as real / ActualPositives(gt) as real
  {
    var ts := Thresholds(merged);
    var b := ActualPositives(gt) as real;
    assert Descending(ts) by {
      forall i, j | 0 <= i < j < |ts|
        ensures ts[i] >= ts[j]
      {
      }
    }
    CurveShape(merged, ts, b);
    DivBounds(0.0, NumPos(merged) as real, b);
    CurveSumBounds(Curve(merged, ts, b), 0.0, NumPos(merged) as real / b);
  }

  /** The score is never negative and never more than the number of merged
      rows labelled 1 divided by the number of ground-truth positives. */
  lemma ScoreBounds(preds: seq<Prediction>, gt: seq<GroundTruth>)
    requires AllFinite(preds) && ActualPositives(gt) > 0
    ensures Score(preds, gt).Ok?
    ensures 0.0 <= Score(preds, gt).value <= NumPos(Merged(preds, gt)) as real / ActualPositives(gt) as real
  {
    ScoreIsFullRecall(preds, gt);
    FullRecallBounds(Merged(preds, gt), gt);
  }

  /** When no prediction matches a ground-truth pair the score is 0.0. */
  lemma NoMatchScoreZero(preds: seq<Prediction>, gt: seq<GroundTruth>)
    requires AllFinite(preds) && ActualPositives(gt) > 0
    requires NumPos(Merged(preds, gt)) == 0
    ensures Score(preds, gt) == Utils.Ok(0.0)
  {
    ScoreOk(preds, gt);
    AdjustNothingPredicted(Unadjusted(Merged(preds, gt)), ActualPositives(gt));
  }

  lemma AdjustNothingPredicted(unadjusted: real, actual: nat)
    requires actual > 0
    ensures Adjust(unadjusted, 0, actual) == 0.0
  {
  }

  // ---------------------------------------------------------------------------
  // A perfect submission

  /** When every row is labelled 1, the true positives at a threshold are
      all the rows that reach it. */
  lemma AllPositiveCounts(rows: seq<Labelled>, t: real)
    requires forall i :: 0 <= i < |rows| ==> rows[i].actual
    ensures PosAtLeast(rows, t) == CountAtLeast(rows, t)
  {
    FilterSame(PositiveAtLeast(t), AtLeast(t), rows);
  }

  /** Some row reaches each threshold: the one whose score it is. */
  lemma ThresholdReached(rows: seq<Labelled>, t: real)
    requires t in Thresholds(rows)
    ensures CountAtLeast(rows, t) > 0
  {
    var i :| 0 <= i < |rows| && rows[i].score == t;
    FilterMembers(AtLeast(t), rows);
    assert rows[i] in Filter(AtLeast(t), rows);
  }

  /** Every row reaches the lowest threshold. */
  lemma LowestThresholdReachedByAll(rows: seq<Labelled>)
    requires rows != []
    ensures Thresholds(rows) != []
    ensures CountAtLeast(rows, Thresholds(rows)[|Thresholds(rows)| - 1]) == |rows|
  {
    ScoresAreThresholds(rows);
    ReachedByAll(rows, Thresholds(rows));
  }

  lemma ScoresAreThresholds(rows: seq<Labelled>)
    ensures forall i :: 0 <= i < |rows| ==> rows[i].score in Thresholds(rows)
  {
    forall i | 0 <= i < |rows|
      ensures rows[i].score in Thresholds(rows)
    {
    }
  }

  /** When every score is among strictly descending thresholds, every row
      reaches the last of them. */
  lemma ReachedByAll(rows: seq<Labelled>, ts: seq<real>)
    requires forall i, j :: 0 <= i < j < |ts| ==> ts[i] > ts[j]
    requires forall i :: 0 <= i < |rows| ==> rows[i].score in ts
    requires rows != []
    ensures ts != []
    ensures CountAtLeast(rows, ts[|ts| - 1]) == |rows|
  {
    assert rows[0].score in ts;
    var lowest := ts[|ts| - 1];
    forall i | 0 <= i < |rows|
      ensures AtLeast(lowest)(rows[i])
    {
      LastIsLeast(ts, rows[i].score);
    }
    FilterAll(AtLeast(lowest), rows);
  }

  /** The last element of a strictly descending sequence is its least. */
  lemma LastIsLeast(ts: seq<real>, x: real)
    requires forall i, j :: 0 <= i < j < |ts| ==> ts[i] > ts[j]
    requires x in ts
    ensures x >= ts[|ts| - 1]
  {
    var k :| 0 <= k < |ts| && ts[k] == x;
    if k < |ts| - 1 {
      assert ts[k] > ts[|ts| - 1];
    }
  }

  /** With precision 1 at every point the sum telescopes to the rise in recall. */
  lemma {:induction false} CurveSumTelescopes(points: seq<CurvePoint>, previous: real)
    requires points != []
    requires forall k :: 0 <= k < |points| ==> points[k].precision == 1.0
    ensures CurveSum(points, previous) == points[|points| - 1].recall - previous
  {
    if |points| > 1 {
      CurveSumTelescopes(points[1..], points[0].recall);
    }
  }

  /** Rows that are all labelled 1 have an average precision of 1. */
  lemma AllPositiveAveragePrecision(rows: seq<Labelled>)
    requires rows != [] && forall i :: 0 <= i < |rows| ==> rows[i].actual
    ensures NumPos(rows) == |rows|
    ensures AveragePrecision(rows) == 1.0
  {
    var ts := Thresholds(rows);
    var n := NumPos(rows) as real;
    var points := Curve(rows, ts, n);
    assert NumPos(rows) == |rows| by {
      FilterAll(IsPositive, rows);
    }
    assert ts != [] && CountAtLeast(rows, ts[|ts| - 1]) == |rows| by {
      LowestThresholdReachedByAll(rows);
    }
    assert CurveSum(points, 0.0) == 1.0 by {
      ThresholdsReached(rows);
      CurveAllPrecise(rows, ts, n);
      LastRecallOne(rows, ts, n);
      CurveSumTelescopes(points, 0.0);
    }
  }

  lemma ThresholdsReached(rows: seq<Labelled>)
    ensures forall k :: 0 <= k < |Thresholds(rows)| ==> CountAtLeast(rows, Thresholds(rows)[k]) > 0
  {
    forall k | 0 <= k < |Thresholds(rows)|
      ensures CountAtLeast(rows, Thresholds(rows)[k]) > 0
    {
      ThresholdReached(rows, Thresholds(rows)[k]);
    }
  }

  /** With every row labelled 1, precision is 1 at every threshold some row
      reaches. */
  lemma CurveAllPrecise(rows: seq<Labelled>, ts: seq<real>, n: real)
    requires n > 0.0 && forall i :: 0 <= i < |rows| ==> rows[i].actual
    requires forall k :: 0 <= k < |ts| ==> CountAtLeast(rows, ts[k]) > 0
    ensures forall k :: 0 <= k < |ts| ==> Curve(rows, ts, n)[k].precision == 1.0
  {
    forall k | 0 <= k < |ts|
      ensures Curve(rows, ts, n)[k].precision == 1.0
    {
      AllPositiveCounts(rows, ts[k]);
      OneDivSelf(CountAtLeast(rows, ts[k]) as real);
    }
  }

  /** With every row labelled 1 and reaching the last threshold, recall there
      is 1. */
  lemma LastRecallOne(rows: seq<Labelled>, ts: seq<real>, n: real)
    requires forall i :: 0 <= i < |rows| ==> rows[i].actual
    requires ts != [] && CountAtLeast(rows, ts[|ts| - 1]) == |rows|
    requires n == |rows| as real && n > 0.0
    ensures Curve(rows, ts, n)[|ts| - 1].recall == 1.0
  {
    AllPositiveCounts(rows, ts[|ts| - 1]);
    OneDivSelf(n);
  }

  lemma AdjustAllPredicted(unadjusted: real, n: nat)
    requires n > 0
    ensures Adjust(unadjusted, n, n) == unadjusted
  {
    OneDivSelf(n as real);
  }

  /** A submission that lists exactly the ground-truth pairs, each once, scores
      1.0 whatever its scores are, provided every ground-truth row names a
      reference video. */
  lemma PerfectScore(preds: seq<Prediction>, gt: seq<GroundTruth>)
    requires UniquePairs(gt) && gt != []
    requires forall j :: 0 <= j < |gt| ==> gt[j].referenceId.Some?
    requires |preds| == |gt|
    requires forall i :: 0 <= i < |preds| ==> preds[i].queryId == gt[i].queryId && preds[i].referenceId == gt[i].referenceId
    requires AllFinite(preds)
    ensures Score(preds, gt) == Utils.Ok(1.0)
  {
    var sorted := SortDesc(preds, ScoreOf);
    var merged := Merged(preds, gt);
    assert merged == LeftMerge(sorted, gt);
    assert |sorted| == |preds| by {
      assert |multiset(sorted)| == |multiset(preds)|;
    }
    forall i | 0 <= i < |merged|
      ensures merged[i].actual
    {
      assert sorted[i] in multiset(preds);
      var k :| 0 <= k < |preds| && preds[k] == sorted[i];
      assert IsMatch(sorted[i], gt[k]);
    }
    AllPositiveAveragePrecision(merged);
    FilterAll(HasReference, gt);
    ScoreOk(preds, gt);
    AdjustAllPredicted(1.0, |gt|);
  }

  // ---------------------------------------------------------------------------
  // Blank reference ids

  /** A submission whose first row has a blank reference id. */
  function BlankPreds(): seq<Prediction>
  {
    [Prediction("Q2", None, Utils.Finite(1.0)), Prediction("Q1", Some("R1"), Utils.Finite(0.9))]
  }

  /** A ground truth with one positive and one query without a copy. */
  function BlankTruth(): seq<GroundTruth>
  {
    [GroundTruth("Q1", Some("R1")), GroundTruth("Q2", None)]
  }

  function BlankMerged(): seq<Labelled>
  {
    [Labelled(1.0, true), Labelled(0.9, true)]
  }

  lemma BlankSorted()
    ensures SortDesc(BlankPreds(), ScoreOf) == BlankPreds()
  {
    var preds := BlankPreds();
    assert preds[1..] == [preds[1]] && [preds[1]][1..] == [];
  }

  lemma BlankLabels()
    ensures MatchCount(BlankPreds()[0], BlankTruth()) == 1
    ensures MatchCount(BlankPreds()[1], BlankTruth()) == 1
    ensures ActualPositives(BlankTruth()) == 1
    ensures AllFinite(BlankPreds())
  {
    var gt := BlankTruth();
    assert "Q1" != "Q2" by { assert "Q1"[1] != "Q2"[1]; }
    assert gt[1..] == [gt[1]] && [gt[1]][1..] == [];
    assert Filter(Matches(BlankPreds()[0]), gt) == [gt[1]];
    assert Filter(Matches(BlankPreds()[1]), gt) == [gt[0]];
    assert Filter(HasReference, gt) == [gt[0]];
  }

  lemma BlankRows()
    ensures MergeRows(BlankTruth())(BlankPreds()[0]) == [BlankMerged()[0]]
    ensures MergeRows(BlankTruth())(BlankPreds()[1]) == [BlankMerged()[1]]
  {
    BlankLabels();
    assert Repeat(Labelled(1.0, true), 1) == [Labelled(1.0, true)];
    assert Repeat(Labelled(0.9, true), 1) == [Labelled(0.9, true)];
  }

  lemma BlankMerge()
    ensures Merged(BlankPreds(), BlankTruth()) == BlankMerged()
  {
    var preds, gt := BlankPreds(), BlankTruth();
    BlankSorted();
    BlankRows();
    FlatMapPair(MergeRows(gt), preds[0], preds[1]);
    assert preds == [preds[0], preds[1]];
  }

  lemma BlankRowsSorted()
    ensures SortDesc(BlankMerged(), LabelScore) == BlankMerged()
  {
    var merged := BlankMerged();
    assert merged[1..] == [merged[1]] && [merged[1]][1..] == [];
  }

  lemma BlankDedup()
    ensures Dedup([1.0, 0.9]) == [1.0, 0.9]
  {
    assert [1.0, 0.9][1..] == [0.9];
  }

  lemma BlankThresholds()
    ensures Thresholds(BlankMerged()) == [1.0, 0.9]
  {
    var merged := BlankMerged();
    BlankRowsSorted();
    assert Scores(merged) == [1.0, 0.9];
    BlankDedup();
  }

  lemma BlankNumPos()
    ensures NumPos(BlankMerged()) == 2
  {
    var merged := BlankMerged();
    assert merged[1..] == [merged[1]] && [merged[1]][1..] == [];
    assert Filter(IsPositive, merged) == merged;
  }

  lemma BlankCurve()
    ensures Curve(BlankMerged(), [1.0, 0.9], 2.0) == [CurvePoint(0.5, 1.0), CurvePoint(1.0, 1.0)]
  {
    var merged := BlankMerged();
    assert merged[1..] == [merged[1]] && [merged[1]][1..] == [];
    assert Filter(PositiveAtLeast(1.0), merged) == [merged[0]] == Filter(AtLeast(1.0), merged);
    assert Filter(PositiveAtLeast(0.9), merged) == merged == Filter(AtLeast(0.9), merged);
  }

  lemma BlankCurveSum()
    ensures CurveSum([CurvePoint(0.5, 1.0), CurvePoint(1.0, 1.0)], 0.0) == 1.0
  {
    var points := [CurvePoint(0.5, 1.0), CurvePoint(1.0, 1.0)];
    assert points[1..] == [points[1]] && [points[1]][1..] == [];
  }

  /** A submission row with a blank reference id matches a ground-truth row
      of the same query with a blank reference id and is counted among the
      predicted positives, while `actual_n_pos` leaves that ground-truth row
      out. Here both submission rows are labelled 1 against a single
      ground-truth positive, so the score is 2.0. */
  lemma BlankReferenceScore()
    ensures Score(BlankPreds(), BlankTruth()) == Utils.Ok(2.0)
  {
    BlankLabels();
    ScoreOk(BlankPreds(), BlankTruth());
    BlankMerge();
    BlankUnadjusted();
    BlankNumPos();
    AdjustDoubles();
  }

  lemma AdjustDoubles()
    ensures Adjust(1.0, 2, 1) == 2.0
  {
  }

  lemma BlankUnadjusted()
    ensures Unadjusted(BlankMerged()) == 1.0
  {
    BlankThresholds();
    BlankNumPos();
    BlankCurve();
    BlankCurveSum();
    assert AveragePrecision(BlankMerged()) == CurveSum(Curve(BlankMerged(), [1.0, 0.9], 2.0), 0.0);
  }
}
