/** Model of runtime/scoring/generate_rankings.py: the growing query batches
    fed to the range search, the crop of the search output to an exact number
    of results, the flattening of that output into scored (query, reference)
    rows with one maximum per pair, and the formatting of video ids. */
module GenerateRankings {
  import opened Seqs
  import Utils

  // ---------------------------------------------------------------------------
  // query_iterator

  /** The size requested for the `k`-th batch: 32, doubled after every batch
      while it is still below 20 000. */
  function BatchSize(k: nat): (r: nat)
    ensures r >= 32
  {
    if k == 0 then 32
    else
      var previous := BatchSize(k - 1);
      if previous < 20_000 then 2 * previous else previous
  }

  function Pow2(k: nat): (r: nat)
    ensures r >= 1
  {
    if k == 0 then 1 else 2 * Pow2(k - 1)
  }

  /** The requested sizes double from 32 up to 32 768 and stay there: the cap
      test runs before doubling, so 16 384 still doubles. */
  lemma {:induction false} BatchSizeClosedForm(k: nat)
    ensures BatchSize(k) == Min(32 * Pow2(k), 32_768)
  {
    if k > 0 {
      BatchSizeClosedForm(k - 1);
      var p := Pow2(k - 1);
      assert Pow2(k) == 2 * p;
      Pow2UpToTen();
      if k - 1 < 10 {
        Pow2AtLeast(9, k - 1);
      } else {
        Pow2AtLeast(k - 1, 10);
      }
    }
  }

  lemma Pow2UpToTen()
    ensures Pow2(9) == 512 && Pow2(10) == 1024
  {
    assert Pow2(1) == 2;
    assert Pow2(2) == 4;
    assert Pow2(3) == 8;
    assert Pow2(4) == 16;
    assert Pow2(5) == 32;
    assert Pow2(6) == 64;
    assert Pow2(7) == 128;
    assert Pow2(8) == 256;
  }

  lemma {:induction false} Pow2AtLeast(k: nat, m: nat)
    requires m <= k
    ensures Pow2(k) >= Pow2(m)
    decreases k
  {
    if m < k {
      Pow2AtLeast(k - 1, m);
    }
  }

  /** The index where the `k`-th batch starts when no batch is short. */
  function Requested(k: nat): nat
  {
    if k == 0 then 0 else Requested(k - 1) + BatchSize(k - 1)
  }

  /** `batch` is the `k`-th batch `query_iterator(xq)` yields: it starts
      inside `xq` and is `xq[Requested(k) : Requested(k) + BatchSize(k)]`. */
  ghost predicate IsBatch<T>(xq: seq<T>, k: nat, batch: seq<T>)
  {
    Requested(k) < |xq| && batch == xq[Requested(k)..Min(Requested(k) + BatchSize(k), |xq|)]
  }

  /** `batches` is everything `query_iterator(xq)` yields: its batches in
      order, stopping once the requested slices reach the end of `xq`. */
  ghost predicate IsBatching<T>(xq: seq<T>, batches: seq<seq<T>>)
  {
    && (forall k :: 0 <= k < |batches| ==> IsBatch(xq, k, batches[k]))
    && Requested(|batches|) >= |xq|
  }

  lemma SliceClips<T>(s: seq<T>, start: nat, end: nat)
    requires start <= |s| && start <= end
    ensures Utils.Slice(s, start, end) == s[start..Min(end, |s|)]
  {
  }

  /** The first `|batches|` batches have been yielded, and the next one starts
      at `i`. */
  ghost predicate BatchedUpTo<T>(xq: seq<T>, batches: seq<seq<T>>, i: nat)
  {
    && i == Min(Requested(|batches|), |xq|)
    && (forall k :: 0 <= k < |batches| ==> IsBatch(xq, k, batches[k]))
  }

  lemma AppendBatch<T>(xq: seq<T>, batches: seq<seq<T>>, batch: seq<T>)
    requires forall k :: 0 <= k < |batches| ==> IsBatch(xq, k, batches[k])
    requires IsBatch(xq, |batches|, batch)
    ensures forall k :: 0 <= k < |batches + [batch]| ==> IsBatch(xq, k, (batches + [batch])[k])
  {
    forall k | 0 <= k < |batches + [batch]|
      ensures IsBatch(xq, k, (batches + [batch])[k])
    {
      if k < |batches| {
        assert (batches + [batch])[k] == batches[k];
      }
    }
  }

  /** Yielding the next batch keeps `BatchedUpTo`, and moves past `i`. */
  lemma BatchStep<T>(xq: seq<T>, batches: seq<seq<T>>, i: nat, batch: seq<T>)
    requires BatchedUpTo(xq, batches, i) && i < |xq|
    requires batch == xq[i..Min(i + BatchSize(|batches|), |xq|)]
    ensures |batch| > 0
    ensures BatchedUpTo(xq, batches + [batch], i + |batch|)
  {
    var b := |batches|;
    assert i == Requested(b);
    assert IsBatch(xq, b, batch);
    AppendBatch(xq, batches, batch);
    assert |batches + [batch]| == b + 1;
    assert Requested(b + 1) == i + BatchSize(b);
    assert i + |batch| == Min(Requested(b + 1), |xq|);
  }

  method QueryIterator<T>(xq: seq<T>) returns (batches: seq<seq<T>>)
    ensures IsBatching(xq, batches)
    ensures Concat(batches) == xq
  {
    var nq := |xq|;
    var bs := 32;
    var i := 0;
    batches := [];
    while i < nq
      invariant BatchedUpTo(xq, batches, i)
      invariant bs == BatchSize(|batches|)
      decreases nq - i
    {
      var xqi := Utils.Slice(xq, i, i + bs);
      SliceClips(xq, i, i + bs);
      BatchStep(xq, batches, i, xqi);
      batches := batches + [xqi];
      if bs < 20_000 {
        bs := bs * 2;
      }
      i := i + |xqi|;
    }
    BatchesTile(xq, batches);
  }

  /** Every batch is non-empty and at most its requested size, and only the
      last one can be shorter. */
  lemma BatchSizes<T>(xq: seq<T>, batches: seq<seq<T>>)
    requires IsBatching(xq, batches)
    ensures forall k :: 0 <= k < |batches| ==> 1 <= |batches[k]| <= BatchSize(k)
    ensures forall k :: 0 <= k < |batches| - 1 ==> |batches[k]| == BatchSize(k)
  {
    forall k | 0 <= k < |batches|
      ensures 1 <= |batches[k]| <= BatchSize(k)
    {
      assert IsBatch(xq, k, batches[k]);
    }
    forall k | 0 <= k < |batches| - 1
      ensures |batches[k]| == BatchSize(k)
    {
      assert IsBatch(xq, k, batches[k]);
      assert IsBatch(xq, k + 1, batches[k + 1]);
    }
  }

  /** Each batch starts where it was requested to. */
  lemma BatchStarts<T>(xq: seq<T>, batches: seq<seq<T>>)
    requires IsBatching(xq, batches)
    ensures forall k :: 0 <= k < |batches| ==> Offset(batches, k) == Requested(k)
  {
    forall k | 0 <= k < |batches|
      ensures Offset(batches, k) == Requested(k)
    {
      BatchingOffsets(xq, batches, k);
      assert IsBatch(xq, k, batches[k]);
    }
  }

  /** The batches tile `xq` in order, and there is none exactly when `xq` is
      empty. */
  lemma BatchesTile<T>(xq: seq<T>, batches: seq<seq<T>>)
    requires IsBatching(xq, batches)
    ensures xq == [] <==> batches == []
    ensures Concat(batches) == xq
  {
    if batches != [] {
      assert IsBatch(xq, 0, batches[0]);
    }
    BatchingOffsets(xq, batches, |batches|);
    assert batches[..|batches|] == batches;
  }

  /** Everything `query_iterator` promises about its batches, together. */
  lemma BatchingShape<T>(xq: seq<T>, batches: seq<seq<T>>)
    requires IsBatching(xq, batches)
    ensures xq == [] <==> batches == []
    ensures forall k :: 0 <= k < |batches| ==> 1 <= |batches[k]| <= BatchSize(k)
    ensures forall k :: 0 <= k < |batches| - 1 ==> |batches[k]| == BatchSize(k)
    ensures forall k :: 0 <= k < |batches| ==> Offset(batches, k) == Requested(k)
    ensures Concat(batches) == xq
  {
    BatchSizes(xq, batches);
    BatchStarts(xq, batches);
    BatchesTile(xq, batches);
  }

  lemma {:induction false} BatchingOffsets<T>(xq: seq<T>, batches: seq<seq<T>>, n: nat)
    requires IsBatching(xq, batches) && n <= |batches|
    ensures Offset(batches, n) == Min(Requested(n), |xq|)
    ensures Concat(batches[..n]) == xq[..Min(Requested(n), |xq|)]
  {
    if n > 0 {
      BatchingOffsets(xq, batches, n - 1);
      var a := Requested(n - 1);
      var m := Min(Requested(n), |xq|);
      assert Requested(n) == a + BatchSize(n - 1);
      assert IsBatch(xq, n - 1, batches[n - 1]);
      assert Min(a, |xq|) == a;
      assert batches[n - 1] == xq[a..m];
      ConcatPrefixStep(batches, n);
      PrefixJoin(xq, a, m);
      assert Concat(batches[..n]) == xq[..m];
    }
  }

  // ---------------------------------------------------------------------------
  // search_with_capped_res

  /** The output of a range search over `nq` queries: the results of query `i`
      are `dis[lims[i]:lims[i+1]]` and `ids[lims[i]:lims[i+1]]`. */
  datatype SearchResult = SearchResult(lims: seq<nat>, dis: seq<real>, ids: seq<nat>)

  predicate WellFormed(res: SearchResult, nq: nat)
  {
    && |res.lims| == nq + 1
    && res.lims[0] == 0
    && (forall i, j :: 0 <= i <= j <= nq ==> res.lims[i] <= res.lims[j])
    && res.lims[nq] == |res.dis| == |res.ids|
  }

  /** `o` is a valid result of the partial sort that picks the `k` nearest
      results: `k` distinct positions of `dis` whose distances are no larger
      than any distance left out. */
  predicate IsArgPartition(dis: seq<real>, k: nat, o: seq<nat>)
  {
    && |o| == k
    && (forall t :: 0 <= t < k ==> o[t] < |dis|)
    && (forall s, t :: 0 <= s < t < k ==> o[s] != o[t])
    && (forall t, j :: 0 <= t < k && 0 <= j < |dis| && j !in o ==> dis[o[t]] <= dis[j])
  }

  /** One way to compute `argpartition`: take the smallest remaining distance
      `k` times. */
  method ArgPartition(dis: seq<real>, k: nat) returns (o: seq<nat>)
    requires k < |dis|
    ensures IsArgPartition(dis, k, o)
  {
    var n := |dis|;
    var taken := new bool[n](_ => false);
    assert taken[..] == Repeat(false, n);
    CountTrueNone(n);
    o := [];
    for t := 0 to k
      invariant |o| == t && PartialArgPartition(dis, o, taken[..])
    {
      ghost var free := CountTrueHasFalse(taken[..]);
      var best := SmallestFree(dis, taken[..], free);
      TakeStep(dis, o, taken[..], best);
      taken[best] := true;
      o := o + [best];
    }
  }

  /** The loop state of `ArgPartition`: `o` holds distinct positions, `taken`
      marks exactly them, and none of them is farther than a free position. */
  ghost predicate PartialArgPartition(dis: seq<real>, o: seq<nat>, taken: seq<bool>)
  {
    && |taken| == |dis|
    && (forall s :: 0 <= s < |o| ==> o[s] < |dis|)
    && (forall s, s' :: 0 <= s < s' < |o| ==> o[s] != o[s'])
    && (forall j :: 0 <= j < |dis| ==> (taken[j] <==> j in o))
    && CountTrue(taken) == |o|
    && (forall s, j :: 0 <= s < |o| && 0 <= j < |dis| && j !in o ==> dis[o[s]] <= dis[j])
  }

  lemma TakeStep(dis: seq<real>, o: seq<nat>, taken: seq<bool>, best: nat)
    requires PartialArgPartition(dis, o, taken)
    requires best < |dis| && !taken[best]
    requires forall j :: 0 <= j < |dis| && !taken[j] ==> dis[best] <= dis[j]
    ensures PartialArgPartition(dis, o + [best], taken[best := true])
  {
    CountTrueSet(taken, best);
    var o' := o + [best];
    forall s, j | 0 <= s < |o'| && 0 <= j < |dis| && j !in o'
      ensures dis[o'[s]] <= dis[j]
    {
      if s < |o| {
        assert o'[s] == o[s];
        assert j !in o;
      }
    }
  }

  /** The position of the smallest distance not taken yet (the first such
      position on ties). */
  method SmallestFree(dis: seq<real>, taken: seq<bool>, ghost free: nat) returns (best: nat)
    requires |taken| == |dis| && free < |dis| && !taken[free]
    ensures best < |dis| && !taken[best]
    ensures forall j :: 0 <= j < |dis| && !taken[j] ==> dis[best] <= dis[j]
  {
    var n := |dis|;
    best := n;
    for j := 0 to n
      invariant best == n || (best < n && !taken[best])
      invariant best < n ==> forall j' :: 0 <= j' < j && !taken[j'] ==> dis[best] <= dis[j']
      invariant best == n ==> forall j' :: 0 <= j' < j ==> taken[j']
    {
      if !taken[j] && (best == n || dis[j] < dis[best]) {
        best := j;
      }
    }
    assert best < n by {
      assert !taken[free];
    }
  }

  lemma CountTrueNone(n: nat)
    ensures CountTrue(Repeat(false, n)) == 0
  {
    if n > 0 {
      assert Repeat(false, n)[..n - 1] == Repeat(false, n - 1);
      CountTrueNone(n - 1);
    }
  }

  /** A mask of length `n` that is set exactly at the positions in `o`. */
  function KeepMask(n: nat, o: seq<nat>): (m: seq<bool>)
    ensures |m| == n && forall j :: 0 <= j < n ==> (m[j] <==> j in o)
  {
    seq(n, j => j in o)
  }

  /** The crop: keep the entries the mask selects, in their order, and
      recount each query's boundary as the number of kept entries before it. */
  function Cropped(res: SearchResult, nq: nat, m: seq<bool>): SearchResult
    requires WellFormed(res, nq) && |m| == |res.dis|
  {
    SearchResult(seq(nq + 1, i requires 0 <= i <= nq => CountTrue(m[..res.lims[i]])),
                 Select(res.dis, m), Select(res.ids, m))
  }

  /** The crop branch of `search_with_capped_res`, given the positions `o`
      returned by `argpartition`. */
  method CropToNumResults(res: SearchResult, nq: nat, numResults: nat, o: seq<nat>) returns (r: SearchResult)
    requires WellFormed(res, nq) && |res.dis| > numResults
    requires IsArgPartition(res.dis, numResults, o)
    ensures r == Cropped(res, nq, KeepMask(|res.dis|, o))
  {
    var m := BuildMask(|res.dis|, o);
    var newDis := Select(res.dis, m);
    var newIds := Select(res.ids, m);
    var nres := PerQueryCounts(res, nq, m);
    var newLims := CumulativeCounts(res, nq, m, nres);
    r := SearchResult(newLims, newDis, newIds);
  }

  /** Start from an all-false mask and set each chosen position in turn. */
  method BuildMask(n: nat, o: seq<nat>) returns (m: seq<bool>)
    requires forall t :: 0 <= t < |o| ==> o[t] < n
    ensures m == KeepMask(n, o)
  {
    var mask := new bool[n](_ => false);
    for t := 0 to |o|
      invariant mask[..] == KeepMask(n, o[..t])
    {
      assert o[..t + 1] == o[..t] + [o[t]];
      mask[o[t]] := true;
    }
    assert o[..|o|] == o;
    m := mask[..];
  }

  /** A leading 0, then for each query the number of its results the mask keeps. */
  method PerQueryCounts(res: SearchResult, nq: nat, m: seq<bool>) returns (nres: seq<nat>)
    requires WellFormed(res, nq) && |m| == |res.dis|
    ensures |nres| == nq + 1 && nres[0] == 0
    ensures forall q :: 0 <= q < nq ==> nres[q + 1] == CountTrue(m[res.lims[q]..res.lims[q + 1]])
  {
    nres := [0];
    for i := 0 to nq
      invariant |nres| == i + 1 && nres[0] == 0
      invariant forall q :: 0 <= q < i ==> nres[q + 1] == CountTrue(m[res.lims[q]..res.lims[q + 1]])
    {
      nres := nres + [CountTrue(m[res.lims[i]..res.lims[i + 1]])];
    }
  }

  /** The running totals of the per-query counts: each new boundary is the
      number of kept entries before the old one. */
  method CumulativeCounts(res: SearchResult, nq: nat, m: seq<bool>, nres: seq<nat>) returns (newLims: seq<nat>)
    requires WellFormed(res, nq) && |m| == |res.dis|
    requires |nres| == nq + 1 && nres[0] == 0
    requires forall q :: 0 <= q < nq ==> nres[q + 1] == CountTrue(m[res.lims[q]..res.lims[q + 1]])
    ensures newLims == seq(nq + 1, i requires 0 <= i <= nq => CountTrue(m[..res.lims[i]]))
  {
    var lims := new nat[nq + 1];
    var acc := 0;
    for i := 0 to nq + 1
      invariant acc == if i == 0 then 0 else CountTrue(m[..res.lims[i - 1]])
      invariant forall q :: 0 <= q < i ==> lims[q] == CountTrue(m[..res.lims[q]])
    {
      if i > 0 {
        CountTrueSplit(m, res.lims[i - 1], res.lims[i]);
      }
      acc := acc + nres[i];
      lims[i] := acc;
    }
    newLims := lims[..];
  }

  lemma CountTrueSplit(m: seq<bool>, a: nat, b: nat)
    requires a <= b <= |m|
    ensures CountTrue(m[..b]) == CountTrue(m[..a]) + CountTrue(m[a..b])
  {
    assert m[..b] == m[..a] + m[a..b];
    CountTrueAppend(m[..a], m[a..b]);
  }

  /** The mask of `k` distinct in-range positions has exactly `k` entries set. */
  lemma {:induction false} KeepMaskCount(n: nat, o: seq<nat>)
    requires forall t :: 0 <= t < |o| ==> o[t] < n
    requires forall s, t :: 0 <= s < t < |o| ==> o[s] != o[t]
    ensures CountTrue(KeepMask(n, o)) == |o|
  {
    if o == [] {
      assert KeepMask(n, o) == Repeat(false, n);
      CountTrueNone(n);
    } else {
      var init := o[..|o| - 1];
      var last := o[|o| - 1];
      KeepMaskCount(n, init);
      assert last !in init;
      assert KeepMask(n, o) == KeepMask(n, init)[last := true];
      CountTrueSet(KeepMask(n, init), last);
    }
  }

  /** Whatever the mask, the crop is again a well-formed search result whose
      `i`-th query keeps as many entries as the mask selects in its range. */
  lemma CroppedWellFormed(res: SearchResult, nq: nat, m: seq<bool>)
    requires WellFormed(res, nq) && |m| == |res.dis|
    ensures WellFormed(Cropped(res, nq, m), nq)
    ensures Cropped(res, nq, m).lims[nq] == |Cropped(res, nq, m).dis| == CountTrue(m)
    ensures forall i :: 0 <= i < nq ==>
      Cropped(res, nq, m).lims[i + 1] - Cropped(res, nq, m).lims[i] == CountTrue(m[res.lims[i]..res.lims[i + 1]])
  {
    var r := Cropped(res, nq, m);
    assert m[..0] == [];
    assert m[..res.lims[nq]] == m;
    forall i, j | 0 <= i <= j <= nq
      ensures r.lims[i] <= r.lims[j]
    {
      CountTrueSplit(m, res.lims[i], res.lims[j]);
    }
    forall i | 0 <= i < nq
      ensures r.lims[i + 1] - r.lims[i] == CountTrue(m[res.lims[i]..res.lims[i + 1]])
    {
      CountTrueSplit(m, res.lims[i], res.lims[i + 1]);
    }
  }

  /** When `n > num_results`, the crop keeps exactly `num_results` entries. */
  lemma CroppedExactCount(res: SearchResult, nq: nat, numResults: nat, o: seq<nat>)
    requires WellFormed(res, nq) && IsArgPartition(res.dis, numResults, o)
    ensures var r := Cropped(res, nq, KeepMask(|res.dis|, o));
      && WellFormed(r, nq)
      && r.lims[0] == 0 && r.lims[nq] == numResults
      && |r.dis| == |r.ids| == numResults
  {
    CroppedWellFormed(res, nq, KeepMask(|res.dis|, o));
    KeepMaskCount(|res.dis|, o);
  }

  /** The kept entries of query `i` are that query's masked entries, in their
      original order, with distances and ids still side by side. */
  lemma CroppedPerQuery(res: SearchResult, nq: nat, m: seq<bool>, i: nat)
    requires WellFormed(res, nq) && |m| == |res.dis| && i < nq
    ensures var r := Cropped(res, nq, m);
      var a, b := res.lims[i], res.lims[i + 1];
      && r.lims[i] <= r.lims[i + 1] <= |r.dis|
      && r.dis[r.lims[i]..r.lims[i + 1]] == Select(res.dis[a..b], m[a..b])
      && r.ids[r.lims[i]..r.lims[i + 1]] == Select(res.ids[a..b], m[a..b])
  {
    CroppedWellFormed(res, nq, m);
    var r := Cropped(res, nq, m);
    var a, b := res.lims[i], res.lims[i + 1];
    var lo := CountTrue(m[..a]);
    CountTrueSplit(m, a, b);
    assert r.lims[i] == lo && r.lims[i + 1] == lo + CountTrue(m[a..b]);
    SelectSplit(res.dis, m, a, b);
    SelectSplit(res.ids, m, a, b);
  }

  lemma SelectSplit<T>(xs: seq<T>, m: seq<bool>, a: nat, b: nat)
    requires |xs| == |m| && a <= b <= |xs|
    ensures var lo := CountTrue(m[..a]);
      && lo + CountTrue(m[a..b]) <= |Select(xs, m)|
      && Select(xs, m)[lo..lo + CountTrue(m[a..b])] == Select(xs[a..b], m[a..b])
  {
    assert xs == xs[..a] + xs[a..b] + xs[b..];
    assert m == m[..a] + m[a..b] + m[b..];
    SelectAppend(xs[..a] + xs[a..b], m[..a] + m[a..b], xs[b..], m[b..]);
    SelectAppend(xs[..a], m[..a], xs[a..b], m[a..b]);
  }

  /** Every kept entry is one of the positions `argpartition` chose, with its
      distance and id; kept entries keep their order; and no kept distance is
      larger than a dropped one. */
  lemma CroppedKeepsSmallest(res: SearchResult, nq: nat, numResults: nat, o: seq<nat>)
    requires WellFormed(res, nq) && IsArgPartition(res.dis, numResults, o)
    ensures var m := KeepMask(|res.dis|, o);
      var r := Cropped(res, nq, m);
      && (forall t :: 0 <= t < |r.dis| ==>
            var j := TrueIndices(m)[t];
            j in o && r.dis[t] == res.dis[j] && r.ids[t] == res.ids[j])
      && (forall t, j :: 0 <= t < |r.dis| && 0 <= j < |res.dis| && j !in o ==> r.dis[t] <= res.dis[j])
  {
    var m := KeepMask(|res.dis|, o);
    var r := Cropped(res, nq, m);
    SelectAt(res.dis, m);
    SelectAt(res.ids, m);
    forall t, j | 0 <= t < |r.dis| && 0 <= j < |res.dis| && j !in o
      ensures r.dis[t] <= res.dis[j]
    {
      var p := TrueIndices(m)[t];
      assert p in o;
      var s :| 0 <= s < |o| && o[s] == p;
    }
  }

  /** `search_with_capped_res` after the range search: crop when there are more
      than `num_results` results, otherwise return them unchanged. */
  method SearchWithCappedRes(res: SearchResult, nq: nat, numResults: nat) returns (r: SearchResult)
    requires WellFormed(res, nq)
    ensures |res.dis| <= numResults ==> r == res
    ensures |res.dis| > numResults ==>
      exists o :: IsArgPartition(res.dis, numResults, o) && r == Cropped(res, nq, KeepMask(|res.dis|, o))
    ensures WellFormed(r, nq) && |r.dis| == Min(|res.dis|, numResults)
  {
    r := res;
    if |res.dis| > numResults {
      var o := ArgPartition(res.dis, numResults);
      r := CropToNumResults(res, nq, numResults, o);
      CroppedExactCount(res, nq, numResults, o);
    }
  }

  // ---------------------------------------------------------------------------
  // evaluate_similarity

  /** One row of `score_df`. */
  datatype ScoreRow<Q, R> = ScoreRow(queryId: Q, referenceId: R, score: real)

  /** The ids of every query row and every reference row, and search results
      whose ids all name a reference row. */
  predicate Scorable<Q, R>(res: SearchResult, queryIds: seq<Q>, referenceIds: seq<R>)
  {
    && WellFormed(res, |queryIds|)
    && forall j :: 0 <= j < |res.ids| ==> res.ids[j] < |referenceIds|
  }

  function QueryRows<Q, R>(res: SearchResult, queryIds: seq<Q>, referenceIds: seq<R>, i: nat): seq<ScoreRow<Q, R>>
    requires Scorable(res, queryIds, referenceIds) && i < |queryIds|
  {
    var a, b := res.lims[i], res.lims[i + 1];
    seq(b - a, t requires 0 <= t < b - a =>
      ScoreRow(queryIds[i], referenceIds[res.ids[a + t]], -res.dis[a + t]))
  }

  /** The rows of each query, in query order. */
  function RowsPerQuery<Q, R>(res: SearchResult, queryIds: seq<Q>, referenceIds: seq<R>): (pieces: seq<seq<ScoreRow<Q, R>>>)
    requires Scorable(res, queryIds, referenceIds)
    ensures |pieces| == |queryIds|
    ensures forall i :: 0 <= i < |queryIds| ==> pieces[i] == QueryRows(res, queryIds, referenceIds, i)
  {
    seq(|queryIds|, i requires 0 <= i < |queryIds| => QueryRows(res, queryIds, referenceIds, i))
  }

  /** The rows of the scored frame, query by query and, within a query, in
      result order: each pairs the query's id with the id of the reference row
      the result names, scored by the negated distance. */
  function ScoreRows<Q, R>(res: SearchResult, queryIds: seq<Q>, referenceIds: seq<R>): seq<ScoreRow<Q, R>>
    requires Scorable(res, queryIds, referenceIds)
  {
    Concat(RowsPerQuery(res, queryIds, referenceIds))
  }

  lemma {:induction false} PiecesOffsets<Q, R>(res: SearchResult, queryIds: seq<Q>, referenceIds: seq<R>, k: nat)
    requires Scorable(res, queryIds, referenceIds) && k <= |queryIds|
    ensures Offset(RowsPerQuery(res, queryIds, referenceIds), k) == res.lims[k]
  {
    var pieces := RowsPerQuery(res, queryIds, referenceIds);
    if k == 0 {
      assert pieces[..0] == [];
    } else {
      PiecesOffsets(res, queryIds, referenceIds, k - 1);
      OffsetStep(pieces, k - 1);
      assert res.lims[k - 1] <= res.lims[k];
    }
  }

  lemma ScoreRowAt<Q, R>(res: SearchResult, queryIds: seq<Q>, referenceIds: seq<R>, i: nat, j: nat)
    requires Scorable(res, queryIds, referenceIds)
    requires i < |queryIds| && res.lims[i] <= j < res.lims[i + 1]
    ensures j < |ScoreRows(res, queryIds, referenceIds)|
    ensures ScoreRows(res, queryIds, referenceIds)[j] == ScoreRow(queryIds[i], referenceIds[res.ids[j]], -res.dis[j])
  {
    var pieces := RowsPerQuery(res, queryIds, referenceIds);
    var a := res.lims[i];
    PiecesOffsets(res, queryIds, referenceIds, i);
    assert pieces[i] == QueryRows(res, queryIds, referenceIds, i);
    ConcatAt(pieces, i, j - a);
  }

  /** Row `j` of `score_df` is result `j`: it belongs to the query whose range
      holds `j`, names the reference row `ids[j]` and scores `-dis[j]`. */
  lemma ScoreRowsAt<Q, R>(res: SearchResult, queryIds: seq<Q>, referenceIds: seq<R>)
    requires Scorable(res, queryIds, referenceIds)
    ensures |ScoreRows(res, queryIds, referenceIds)| == |res.dis|
    ensures forall i, j :: 0 <= i < |queryIds| && res.lims[i] <= j < res.lims[i + 1] ==>
      ScoreRows(res, queryIds, referenceIds)[j] == ScoreRow(queryIds[i], referenceIds[res.ids[j]], -res.dis[j])
  {
    var pieces := RowsPerQuery(res, queryIds, referenceIds);
    PiecesOffsets(res, queryIds, referenceIds, |queryIds|);
    assert pieces[..|queryIds|] == pieces;
    forall i, j | 0 <= i < |queryIds| && res.lims[i] <= j < res.lims[i + 1]
      ensures ScoreRows(res, queryIds, referenceIds)[j] == ScoreRow(queryIds[i], referenceIds[res.ids[j]], -res.dis[j])
    {
      ScoreRowAt(res, queryIds, referenceIds, i, j);
    }
  }

  function Key<Q, R>(row: ScoreRow<Q, R>): (Q, R)
  {
    (row.queryId, row.referenceId)
  }

  /** The (query id, reference id) pairs that occur in `rows`. */
  function Pairs<Q(==, !new), R(==, !new)>(rows: seq<ScoreRow<Q, R>>): (ps: set<(Q, R)>)
    ensures forall j :: 0 <= j < |rows| ==> Key(rows[j]) in ps
  {
    set j | 0 <= j < |rows| :: Key(rows[j])
  }

  /** The largest score among the rows of pair `p`. */
  function MaxScore<Q(==, !new), R(==, !new)>(rows: seq<ScoreRow<Q, R>>, p: (Q, R)): (m: real)
    requires p in Pairs(rows)
    ensures forall j :: 0 <= j < |rows| && Key(rows[j]) == p ==> rows[j].score <= m
    ensures exists j :: 0 <= j < |rows| && Key(rows[j]) == p && rows[j].score == m
  {
    var init := rows[..|rows| - 1];
    var last := rows[|rows| - 1];
    assert forall j :: 0 <= j < |init| ==> init[j] == rows[j];
    if p !in Pairs(init) then
      assert Key(last) == p;
      last.score
    else if Key(last) == p && last.score > MaxScore(init, p) then last.score
    else MaxScore(init, p)
  }

  /** Grouping the scored rows by (query id, reference id) and keeping the
      largest score: one score per pair that occurs. */
  function GroupMax<Q(==, !new), R(==, !new)>(rows: seq<ScoreRow<Q, R>>): (g: map<(Q, R), real>)
    ensures g.Keys == Pairs(rows)
    ensures forall j :: 0 <= j < |rows| ==> Key(rows[j]) in g && rows[j].score <= g[Key(rows[j])]
    ensures forall p :: p in g ==> exists j :: 0 <= j < |rows| && Key(rows[j]) == p && rows[j].score == g[p]
  {
    map p | p in Pairs(rows) :: MaxScore(rows, p)
  }

  /** Building `score_df` reads the query id of every query that has a
      result and the reference id of every result; unless all of these exist
      it raises `IndexError`. */
  predicate IdsInRange<Q, R>(res: SearchResult, nq: nat, queryIds: seq<Q>, referenceIds: seq<R>)
    requires WellFormed(res, nq)
  {
    && (forall i :: |queryIds| <= i < nq ==> res.lims[i] == res.lims[i + 1])
    && (forall j :: 0 <= j < |res.ids| ==> res.ids[j] < |referenceIds|)
  }

  /** The first `m` queries of a search result. */
  function Restrict(res: SearchResult, m: nat): SearchResult
    requires m < |res.lims|
  {
    SearchResult(res.lims[..m + 1], res.dis, res.ids)
  }

  lemma {:induction false} EmptyQueries(res: SearchResult, nq: nat, m: nat)
    requires WellFormed(res, nq) && m <= nq
    requires forall i :: m <= i < nq ==> res.lims[i] == res.lims[i + 1]
    ensures res.lims[m] == res.lims[nq]
    decreases nq - m
  {
    if m < nq {
      EmptyQueries(res, nq, m + 1);
    }
  }

  /** Restricted to the queries that have ids, the search result is scorable. */
  lemma RestrictScorable<Q, R>(res: SearchResult, nq: nat, queryIds: seq<Q>, referenceIds: seq<R>)
    requires WellFormed(res, nq) && IdsInRange(res, nq, queryIds, referenceIds)
    ensures var m := Min(nq, |queryIds|);
      Scorable(Restrict(res, m), queryIds[..m], referenceIds)
  {
    var m := Min(nq, |queryIds|);
    EmptyQueries(res, nq, m);
  }

  /** The rows of `score_df` when every id it reads exists. */
  function FrameRows<Q, R>(res: SearchResult, nq: nat, queryIds: seq<Q>, referenceIds: seq<R>): seq<ScoreRow<Q, R>>
    requires WellFormed(res, nq) && IdsInRange(res, nq, queryIds, referenceIds)
  {
    RestrictScorable(res, nq, queryIds, referenceIds);
    var m := Min(nq, |queryIds|);
    ScoreRows(Restrict(res, m), queryIds[..m], referenceIds)
  }

  /** `score_df` has one row per result: row `j` of query `i` pairs that
      query's id with the id of reference row `ids[j]` and scores `-dis[j]`. */
  lemma FrameRowsAt<Q, R>(res: SearchResult, nq: nat, queryIds: seq<Q>, referenceIds: seq<R>)
    requires WellFormed(res, nq) && IdsInRange(res, nq, queryIds, referenceIds)
    ensures |FrameRows(res, nq, queryIds, referenceIds)| == |res.dis|
    ensures forall i :: 0 <= i < nq && res.lims[i] < res.lims[i + 1] ==> i < |queryIds|
    ensures forall i, j :: 0 <= i < nq && res.lims[i] <= j < res.lims[i + 1] ==>
      FrameRows(res, nq, queryIds, referenceIds)[j] == ScoreRow(queryIds[i], referenceIds[res.ids[j]], -res.dis[j])
  {
    var m := Min(nq, |queryIds|);
    RestrictScorable(res, nq, queryIds, referenceIds);
    var small := Restrict(res, m);
    ScoreRowsAt(small, queryIds[..m], referenceIds);
    forall i, j | 0 <= i < nq && res.lims[i] <= j < res.lims[i + 1]
      ensures FrameRows(res, nq, queryIds, referenceIds)[j] == ScoreRow(queryIds[i], referenceIds[res.ids[j]], -res.dis[j])
    {
      assert i < m;
      assert small.lims[i] == res.lims[i] && small.lims[i + 1] == res.lims[i + 1];
    }
  }

  /** `evaluate_similarity` from the range search output `raw` over
      `queryRows` query rows: crop to 30 results per reference row, build the
      frame of scored rows, keep each pair's maximum. The cropped search
      result is returned beside the outcome. */
  method EvaluateSimilarity<Q(==, !new), R(==, !new)>(raw: SearchResult, queryRows: nat, referenceRows: nat,
                                                        queryIds: seq<Q>, referenceIds: seq<R>)
    returns (cropped: SearchResult, r: Utils.Result<map<(Q, R), real>>)
    requires WellFormed(raw, queryRows)
    ensures |raw.dis| <= 30 * referenceRows ==> cropped == raw
    ensures |raw.dis| > 30 * referenceRows ==>
      exists o :: IsArgPartition(raw.dis, 30 * referenceRows, o) && cropped == Cropped(raw, queryRows, KeepMask(|raw.dis|, o))
    ensures WellFormed(cropped, queryRows) && |cropped.dis| == Min(|raw.dis|, 30 * referenceRows)
    ensures !IdsInRange(cropped, queryRows, queryIds, referenceIds) ==> r == Utils.Err(Utils.IndexError)
    ensures IdsInRange(cropped, queryRows, queryIds, referenceIds) && cropped.dis == [] ==> r == Utils.Err(Utils.KeyError)
    ensures IdsInRange(cropped, queryRows, queryIds, referenceIds) && cropped.dis != [] ==>
      r == Utils.Ok(GroupMax(FrameRows(cropped, queryRows, queryIds, referenceIds)))
  {
    cropped := SearchWithCappedRes(raw, queryRows, 30 * referenceRows);
    if !IdsInRange(cropped, queryRows, queryIds, referenceIds) {
      return cropped, Utils.Err(Utils.IndexError);
    }
    if cropped.dis == [] {
      return cropped, Utils.Err(Utils.KeyError);
    }
    r := Utils.Ok(GroupMax(FrameRows(cropped, queryRows, queryIds, referenceIds)));
  }

  // ---------------------------------------------------------------------------
  // video ids in `main`

  predicate IsDigit(c: char)
  {
    '0' <= c <= '9'
  }

  function DigitChar(d: nat): (c: char)
    requires d < 10
    ensures IsDigit(c)
  {
    ('0' as int + d) as char
  }

  function DigitValue(c: char): nat
  {
    if IsDigit(c) then c as int - '0' as int else 0
  }

  /** The decimal digits of `n`, without leading zeros. */
  function Digits(n: nat): (s: string)
    ensures |s| >= 1 && forall i :: 0 <= i < |s| ==> IsDigit(s[i])
  {
    if n < 10 then [DigitChar(n)] else Digits(n / 10) + [DigitChar(n % 10)]
  }

  /** The decimal text of an integer, with a minus sign when negative. */
  function DecimalString(n: int): string
  {
    if n < 0 then "-" + Digits(-n) else Digits(n)
  }

  /** Left-pad with zeros to `width`, keeping a leading sign in front; a
      longer string is returned unchanged. */
  function ZFill(s: string, width: nat): (r: string)
    ensures |r| == Max(|s|, width)
    ensures |s| >= width ==> r == s
  {
    if |s| >= width then s
    else if s != [] && (s[0] == '+' || s[0] == '-') then [s[0]] + Repeat('0', width - |s|) + s[1..]
    else Repeat('0', width - |s|) + s
  }

  /** The query id written to the scored frame: `Q`, then the decimal id
      zero-padded to 4 characters. */
  function QueryId(n: int): (r: string)
    ensures |r| >= 5 && r[0] == 'Q'
  {
    "Q" + ZFill(DecimalString(n), 4)
  }

  /** The reference id written to the scored frame: `R`, then the decimal id
      zero-padded to 5 characters. */
  function ReferenceId(n: int): (r: string)
    ensures |r| >= 6 && r[0] == 'R'
  {
    "R" + ZFill(DecimalString(n), 5)
  }

  /** The value of a string of digits, leading zeros allowed. */
  function DigitsValue(s: string): nat
  {
    if s == [] then 0 else 10 * DigitsValue(s[..|s| - 1]) + DigitValue(s[|s| - 1])
  }

  /** The integer an optionally negative string of digits denotes. */
  function ParseDecimal(s: string): int
  {
    if s != [] && s[0] == '-' then -(DigitsValue(s[1..]) as int) else DigitsValue(s)
  }

  lemma {:induction false} DigitsRoundTrip(n: nat)
    ensures DigitsValue(Digits(n)) == n
  {
    if n >= 10 {
      DigitsRoundTrip(n / 10);
      var s := Digits(n);
      assert s[..|s| - 1] == Digits(n / 10);
    }
  }

  lemma {:induction false} LeadingZeros(k: nat, s: string)
    ensures DigitsValue(Repeat('0', k) + s) == DigitsValue(s)
    decreases |s|, k
  {
    var z := Repeat('0', k);
    if s == [] {
      assert z + s == z;
      if k > 0 {
        assert z[..k - 1] == Repeat('0', k - 1);
        LeadingZeros(k - 1, []);
        assert Repeat('0', k - 1) + [] == Repeat('0', k - 1);
      }
    } else {
      assert (z + s)[..|z + s| - 1] == z + s[..|s| - 1];
      LeadingZeros(k, s[..|s| - 1]);
    }
  }

  lemma ZFillDigits(n: nat, width: nat)
    ensures ParseDecimal(ZFill(Digits(n), width)) == n
  {
    var s := Digits(n);
    DigitsRoundTrip(n);
    assert IsDigit(s[0]);
    if |s| < width {
      LeadingZeros(width - |s|, s);
    }
  }

  lemma ZFillNegative(n: nat, width: nat)
    requires n > 0
    ensures ParseDecimal(ZFill("-" + Digits(n), width)) == -(n as int)
  {
    var digits := Digits(n);
    DigitsRoundTrip(n);
    var padded := NegativePadded(digits, width);
    assert DigitsValue(padded) == n by {
      if |digits| + 1 < width {
        LeadingZeros(width - |digits| - 1, digits);
      }
    }
    ParseNegative(padded);
  }

  /** Padding a negative number puts the zeros between the sign and the digits. */
  lemma NegativePadded(digits: string, width: nat) returns (padded: string)
    ensures ZFill("-" + digits, width) == "-" + padded
    ensures padded == if |digits| + 1 < width then Repeat('0', width - |digits| - 1) + digits else digits
  {
    var s := "-" + digits;
    assert s[0] == '-' && s[1..] == digits;
    if |s| < width {
      padded := Repeat('0', width - |s|) + digits;
      assert ZFill(s, width) == [s[0]] + Repeat('0', width - |s|) + s[1..];
    } else {
      padded := digits;
    }
  }

  lemma ParseNegative(t: string)
    ensures ParseDecimal("-" + t) == -(DigitsValue(t) as int)
  {
    assert ("-" + t)[1..] == t;
  }

  /** Zero padding keeps the number: parsing the padded string gives `n` back,
      for every integer `n`, negative ones included. */
  lemma ZFillRoundTrip(n: int, width: nat)
    ensures ParseDecimal(ZFill(DecimalString(n), width)) == n
  {
    if n < 0 {
      var m: nat := -n;
      assert DecimalString(n) == "-" + Digits(m);
      ZFillNegative(m, width);
    } else {
      ZFillDigits(n, width);
    }
  }

  /** Ids are read back from their text, so distinct videos get distinct ids. */
  lemma IdsRoundTrip(n: int)
    ensures QueryId(n)[0] == 'Q' && ParseDecimal(QueryId(n)[1..]) == n
    ensures ReferenceId(n)[0] == 'R' && ParseDecimal(ReferenceId(n)[1..]) == n
  {
    ZFillRoundTrip(n, 4);
    ZFillRoundTrip(n, 5);
    assert QueryId(n)[1..] == ZFill(DecimalString(n), 4);
    assert ReferenceId(n)[1..] == ZFill(DecimalString(n), 5);
  }

  lemma IdsInjective(a: int, b: int)
    ensures QueryId(a) == QueryId(b) <==> a == b
    ensures ReferenceId(a) == ReferenceId(b) <==> a == b
  {
    IdsRoundTrip(a);
    IdsRoundTrip(b);
  }

  /** A non-negative id is padded to exactly the width, and a longer number
      is kept whole. */
  lemma IdsShape(n: nat)
    ensures |Digits(n)| < 4 ==> QueryId(n) == "Q" + Repeat('0', 4 - |Digits(n)|) + Digits(n)
    ensures |Digits(n)| >= 4 ==> QueryId(n) == "Q" + Digits(n)
    ensures |Digits(n)| < 5 ==> ReferenceId(n) == "R" + Repeat('0', 5 - |Digits(n)|) + Digits(n)
    ensures |Digits(n)| >= 5 ==> ReferenceId(n) == "R" + Digits(n)
  {
    assert DecimalString(n) == Digits(n);
    assert IsDigit(Digits(n)[0]);
  }
}
