// The score only depends on which predictions are submitted and which pairs
// the ground truth holds, not on the order of the rows of either: `score`
// sorts the predictions first, and every quantity after the sort counts rows.
module MetricOrder {
  import opened Seqs
  import opened Metric
  import Utils

  /** Reordering the predictions reorders the merged rows. */
  lemma MergedPerm(preds: seq<Prediction>, preds': seq<Prediction>, gt: seq<GroundTruth>)
    requires multiset(preds) == multiset(preds')
    ensures multiset(Merged(preds, gt)) == multiset(Merged(preds', gt))
  {
    var sorted, sorted' := SortDesc(preds, ScoreOf), SortDesc(preds', ScoreOf);
    assert multiset(sorted) == multiset(sorted');
    FlatMapPerm(MergeRows(gt), sorted, sorted');
  }

  /** The thresholds only depend on the multiset of rows. */
  lemma ThresholdsPerm(rows: seq<Labelled>, rows': seq<Labelled>)
    requires multiset(rows) == multiset(rows')
    ensures Thresholds(rows) == Thresholds(rows')
  {
    var sorted, sorted' := SortDesc(rows, LabelScore), SortDesc(rows', LabelScore);
    assert multiset(sorted) == multiset(sorted');
    FlatMapPerm(ScoreCell, sorted, sorted');
    SortedScores(rows);
    SortedScores(rows');
    SortedUnique(Scores(sorted), Scores(sorted'));
  }

  /** Every count at a threshold only depends on the multiset of rows. */
  lemma CountsPerm(rows: seq<Labelled>, rows': seq<Labelled>, t: real)
    requires multiset(rows) == multiset(rows')
    ensures CountAtLeast(rows, t) == CountAtLeast(rows', t)
    ensures PosAtLeast(rows, t) == PosAtLeast(rows', t)
    ensures NumPos(rows) == NumPos(rows')
  {
    FilterPerm(AtLeast(t), rows, rows');
    FilterPerm(PositiveAtLeast(t), rows, rows');
    FilterPerm(IsPositive, rows, rows');
  }

  lemma CurvePerm(rows: seq<Labelled>, rows': seq<Labelled>, ts: seq<real>, b: real)
    requires multiset(rows) == multiset(rows') && b > 0.0
    ensures Curve(rows, ts, b) == Curve(rows', ts, b)
  {
    forall k | 0 <= k < |ts|
      ensures Curve(rows, ts, b)[k] == Curve(rows', ts, b)[k]
    {
      CountsPerm(rows, rows', ts[k]);
    }
  }

  /** The unadjusted average precision only depends on the multiset of rows. */
  lemma UnadjustedPerm(rows: seq<Labelled>, rows': seq<Labelled>)
    requires multiset(rows) == multiset(rows')
    ensures NumPos(rows) == NumPos(rows')
    ensures Unadjusted(rows) == Unadjusted(rows')
  {
    CountsPerm(rows, rows', 0.0);
    if NumPos(rows) > 0 {
      ThresholdsPerm(rows, rows');
      CurvePerm(rows, rows', Thresholds(rows), NumPos(rows) as real);
    }
  }

  lemma AllFinitePerm(preds: seq<Prediction>, preds': seq<Prediction>)
    requires multiset(preds) == multiset(preds')
    requires AllFinite(preds)
    ensures AllFinite(preds')
  {
    forall i | 0 <= i < |preds'|
      ensures preds'[i].score.Finite?
    {
      assert preds'[i] in multiset(preds');
      assert preds'[i] in preds;
    }
  }

  /** Shuffling the rows of the submission does not change the score, nor
      whether it is an error. */
  lemma ScoreIndependentOfOrder(preds: seq<Prediction>, preds': seq<Prediction>, gt: seq<GroundTruth>)
    requires multiset(preds) == multiset(preds')
    ensures Score(preds, gt) == Score(preds', gt)
  {
    if AllFinite(preds) {
      AllFinitePerm(preds, preds');
      if ActualPositives(gt) > 0 {
        MergedPerm(preds, preds', gt);
        UnadjustedPerm(Merged(preds, gt), Merged(preds', gt));
        ScoreOk(preds, gt);
        ScoreOk(preds', gt);
      }
    } else if AllFinite(preds') {
      AllFinitePerm(preds', preds);
    }
  }

  // ---------------------------------------------------------------------------
  // Reordering the ground truth

  /** A prediction's merged rows only depend on how many ground-truth rows
      carry its pair, not on where they are. */
  lemma RowsForTruthPerm(p: Prediction, gt: seq<GroundTruth>, gt': seq<GroundTruth>)
    requires multiset(gt) == multiset(gt')
    ensures RowsFor(p, gt) == RowsFor(p, gt')
  {
    FilterPerm(Matches(p), gt, gt');
  }

  /** Reordering the ground truth leaves the merged rows as they are. */
  lemma {:induction false} LeftMergeTruthPerm(preds: seq<Prediction>, gt: seq<GroundTruth>, gt': seq<GroundTruth>)
    requires multiset(gt) == multiset(gt')
    ensures LeftMerge(preds, gt) == LeftMerge(preds, gt')
  {
    if preds != [] {
      LeftMergeTruthPerm(preds[1..], gt, gt');
      RowsForTruthPerm(preds[0], gt, gt');
      assert MergeRows(gt)(preds[0]) == MergeRows(gt')(preds[0]);
    }
  }

  /** Shuffling the rows of the ground truth does not change the score, nor
      whether it is an error. */
  lemma ScoreIndependentOfTruthOrder(preds: seq<Prediction>, gt: seq<GroundTruth>, gt': seq<GroundTruth>)
    requires multiset(gt) == multiset(gt')
    ensures Score(preds, gt) == Score(preds, gt')
  {
    FilterPerm(HasReference, gt, gt');
    LeftMergeTruthPerm(SortDesc(preds, ScoreOf), gt, gt');
    if AllFinite(preds) && ActualPositives(gt) > 0 {
      ScoreOk(preds, gt);
      ScoreOk(preds, gt');
    }
  }
}
