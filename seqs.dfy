/** Sequence helpers shared by the models of the scoring runtime: flattening
    a list of arrays (numpy's `concatenate`), boolean masks (numpy's
    `mask.sum()` and `xs[mask]`) and a step used by permutation proofs. */
module Seqs {

  function Min(a: int, b: int): int { if a <= b then a else b }

  function Max(a: int, b: int): int { if a >= b then a else b }

  /** `n` copies of `x` (numpy's `np.full(n, x)`). */
  function Repeat<T>(x: T, n: nat): (r: seq<T>)
    ensures |r| == n && forall i :: 0 <= i < n ==> r[i] == x
  {
    seq(n, _ => x)
  }

  /** The concatenation of a list of sequences, in order. */
  function Concat<T>(ss: seq<seq<T>>): seq<T>
  {
    if ss == [] then [] else Concat(ss[..|ss| - 1]) + ss[|ss| - 1]
  }

  lemma {:induction false} ConcatAppend<T>(a: seq<seq<T>>, b: seq<seq<T>>)
    ensures Concat(a + b) == Concat(a) + Concat(b)
    decreases |b|
  {
    if b == [] {
      assert a + b == a;
    } else {
      var b', last := b[..|b| - 1], b[|b| - 1];
      assert (a + b)[..|a + b| - 1] == a + b' && (a + b)[|a + b| - 1] == last;
      assert Concat(a + b) == Concat(a + b') + last;
      ConcatAppend(a, b');
    }
  }

  lemma ConcatCons<T>(x: seq<T>, rest: seq<seq<T>>)
    ensures Concat([x] + rest) == x + Concat(rest)
  {
    ConcatAppend([x], rest);
    assert [x][..0] == [];
  }

  /** Where the `k`-th piece starts inside `Concat(ss)`. */
  function Offset<T>(ss: seq<seq<T>>, k: nat): nat
    requires k <= |ss|
  {
    |Concat(ss[..k])|
  }

  lemma OffsetStep<T>(ss: seq<seq<T>>, k: nat)
    requires k < |ss|
    ensures Offset(ss, k + 1) == Offset(ss, k) + |ss[k]|
  {
    assert ss[..k + 1][..k] == ss[..k];
  }

  lemma OffsetMonotone<T>(ss: seq<seq<T>>, k: nat, k': nat)
    requires k <= k' <= |ss|
    ensures Offset(ss, k) <= Offset(ss, k') <= |Concat(ss)|
    decreases k' - k
  {
    if k < k' {
      OffsetStep(ss, k);
      OffsetMonotone(ss, k + 1, k');
    } else {
      assert ss == ss[..k'] + ss[k'..];
      ConcatAppend(ss[..k'], ss[k'..]);
    }
  }

  /** The `k`-th piece is the slice of the concatenation between its offsets. */
  /** Element `t` of piece `k` sits at `Offset(ss, k) + t` of the concatenation. */
  lemma ConcatAt<T>(ss: seq<seq<T>>, k: nat, t: nat)
    requires k < |ss| && t < |ss[k]|
    ensures Offset(ss, k) + t < |Concat(ss)|
    ensures Concat(ss)[Offset(ss, k) + t] == ss[k][t]
  {
    ConcatSliceAt(ss, k);
    assert Concat(ss)[Offset(ss, k)..Offset(ss, k + 1)][t] == ss[k][t];
  }

  lemma ConcatSliceAt<T>(ss: seq<seq<T>>, k: nat)
    requires k < |ss|
    ensures Offset(ss, k) + |ss[k]| == Offset(ss, k + 1) <= |Concat(ss)|
    ensures Concat(ss)[Offset(ss, k)..Offset(ss, k + 1)] == ss[k]
  {
    assert ss == ss[..k + 1] + ss[k + 1..];
    ConcatAppend(ss[..k + 1], ss[k + 1..]);
    OffsetStep(ss, k);
    assert ss[..k + 1][..k] == ss[..k];
  }

  lemma ConcatSnoc<T>(ss: seq<seq<T>>, x: seq<T>)
    ensures Concat(ss + [x]) == Concat(ss) + x
  {
    assert (ss + [x])[..|ss|] == ss;
  }

  lemma ConcatPrefixStep<T>(ss: seq<seq<T>>, n: nat)
    requires 0 < n <= |ss|
    ensures Concat(ss[..n]) == Concat(ss[..n - 1]) + ss[n - 1]
  {
    assert ss[..n][..n - 1] == ss[..n - 1];
  }

  lemma PrefixJoin<T>(s: seq<T>, a: nat, m: nat)
    requires a <= m <= |s|
    ensures s[..a] + s[a..m] == s[..m]
  {
  }

  /** Pieces of equal lengths give equal offsets. */
  lemma OffsetsAgree<T, U>(ss: seq<seq<T>>, tt: seq<seq<U>>, k: nat)
    requires |ss| == |tt| && k <= |ss|
    requires forall i :: 0 <= i < |ss| ==> |ss[i]| == |tt[i]|
    ensures Offset(ss, k) == Offset(tt, k)
  {
    if k > 0 {
      OffsetsAgree(ss, tt, k - 1);
      OffsetStep(ss, k - 1);
      OffsetStep(tt, k - 1);
    }
  }

  /** The number of `true` entries of a mask (numpy's `mask.sum()`). */
  function CountTrue(m: seq<bool>): (r: nat)
    ensures r <= |m|
  {
    if m == [] then 0 else CountTrue(m[..|m| - 1]) + (if m[|m| - 1] then 1 else 0)
  }

  lemma {:induction false} CountTrueAppend(a: seq<bool>, b: seq<bool>)
    ensures CountTrue(a + b) == CountTrue(a) + CountTrue(b)
    decreases |b|
  {
    if b == [] {
      assert a + b == a;
    } else {
      assert (a + b)[..|a + b| - 1] == a + b[..|b| - 1];
      CountTrueAppend(a, b[..|b| - 1]);
    }
  }

  /** Setting one `false` entry to `true` adds one to the count. */
  lemma CountTrueSet(m: seq<bool>, j: nat)
    requires j < |m| && !m[j]
    ensures CountTrue(m[j := true]) == CountTrue(m) + 1
  {
    var m' := m[j := true];
    assert m == m[..j] + [m[j]] + m[j + 1..];
    assert m' == m[..j] + [true] + m[j + 1..];
    CountTrueAppend(m[..j] + [m[j]], m[j + 1..]);
    CountTrueAppend(m[..j], [m[j]]);
    CountTrueAppend(m[..j] + [true], m[j + 1..]);
    CountTrueAppend(m[..j], [true]);
  }

  /** A mask with fewer `true` entries than its length has a `false` entry. */
  lemma {:induction false} CountTrueHasFalse(m: seq<bool>) returns (j: nat)
    requires CountTrue(m) < |m|
    ensures j < |m| && !m[j]
  {
    if m[|m| - 1] {
      j := CountTrueHasFalse(m[..|m| - 1]);
    } else {
      j := |m| - 1;
    }
  }

  /** The entries of `xs` whose mask entry is `true`, in order (numpy's `xs[mask]`). */
  function Select<T>(xs: seq<T>, m: seq<bool>): (r: seq<T>)
    requires |xs| == |m|
    ensures |r| == CountTrue(m)
  {
    if xs == [] then []
    else Select(xs[..|xs| - 1], m[..|m| - 1]) + (if m[|m| - 1] then [xs[|xs| - 1]] else [])
  }

  lemma {:induction false} SelectAppend<T>(xs: seq<T>, mx: seq<bool>, ys: seq<T>, my: seq<bool>)
    requires |xs| == |mx| && |ys| == |my|
    ensures Select(xs + ys, mx + my) == Select(xs, mx) + Select(ys, my)
    decreases |ys|
  {
    if ys == [] {
      assert xs + ys == xs && mx + my == mx;
    } else {
      assert (xs + ys)[..|xs + ys| - 1] == xs + ys[..|ys| - 1];
      assert (mx + my)[..|mx + my| - 1] == mx + my[..|my| - 1];
      SelectAppend(xs, mx, ys[..|ys| - 1], my[..|my| - 1]);
    }
  }

  /** The positions of the `true` entries of a mask, in increasing order. */
  function TrueIndices(m: seq<bool>): (r: seq<nat>)
    ensures |r| == CountTrue(m)
    ensures forall t :: 0 <= t < |r| ==> r[t] < |m| && m[r[t]]
    ensures forall s, t :: 0 <= s < t < |r| ==> r[s] < r[t]
    ensures forall j :: 0 <= j < |m| && m[j] ==> j in r
  {
    if m == [] then []
    else
      var front := TrueIndices(m[..|m| - 1]);
      TrueIndicesSnoc(m, front);
      front + (if m[|m| - 1] then [|m| - 1] else [])
  }

  /** The true positions of `m` are those of all of `m` but its last entry,
      followed by the last position when that entry is true. */
  lemma TrueIndicesSnoc(m: seq<bool>, front: seq<nat>)
    requires m != []
    requires |front| == CountTrue(m[..|m| - 1])
    requires forall t :: 0 <= t < |front| ==> front[t] < |m| - 1 && m[..|m| - 1][front[t]]
    requires forall s, t :: 0 <= s < t < |front| ==> front[s] < front[t]
    requires forall j :: 0 <= j < |m| - 1 && m[..|m| - 1][j] ==> j in front
    ensures var r := front + (if m[|m| - 1] then [|m| - 1] else []);
      && |r| == CountTrue(m)
      && (forall t :: 0 <= t < |r| ==> r[t] < |m| && m[r[t]])
      && (forall s, t :: 0 <= s < t < |r| ==> r[s] < r[t])
      && (forall j :: 0 <= j < |m| && m[j] ==> j in r)
  {
    var r := front + (if m[|m| - 1] then [|m| - 1] else []);
    SnocSound(m, front, r);
    SnocComplete(m, front, r);
  }

  lemma SnocSound(m: seq<bool>, front: seq<nat>, r: seq<nat>)
    requires m != [] && r == front + (if m[|m| - 1] then [|m| - 1] else [])
    requires forall t :: 0 <= t < |front| ==> front[t] < |m| - 1 && m[..|m| - 1][front[t]]
    ensures forall t :: 0 <= t < |r| ==> r[t] < |m| && m[r[t]]
  {
    var n := |m| - 1;
    forall t | 0 <= t < |r|
      ensures r[t] < |m| && m[r[t]]
    {
      if t < |front| {
        assert r[t] == front[t] && m[..n][front[t]] == m[front[t]];
      }
    }
  }

  lemma SnocComplete(m: seq<bool>, front: seq<nat>, r: seq<nat>)
    requires m != [] && r == front + (if m[|m| - 1] then [|m| - 1] else [])
    requires forall j :: 0 <= j < |m| - 1 && m[..|m| - 1][j] ==> j in front
    ensures forall j :: 0 <= j < |m| && m[j] ==> j in r
  {
    var n := |m| - 1;
    forall j | 0 <= j < |m| && m[j]
      ensures j in r
    {
      if j < n {
        assert m[..n][j] == m[j];
        assert j in front;
      } else {
        assert r[|r| - 1] == n;
      }
    }
  }

  /** The `t`-th selected entry is the entry at the `t`-th true position. */
  lemma {:induction false} SelectAt<T>(xs: seq<T>, m: seq<bool>)
    requires |xs| == |m|
    ensures forall t :: 0 <= t < CountTrue(m) ==> Select(xs, m)[t] == xs[TrueIndices(m)[t]]
  {
    if xs != [] {
      SelectAt(xs[..|xs| - 1], m[..|m| - 1]);
    }
  }

  /** One step of a proof that a function of a sequence only depends on its
      multiset: the head of `a` sits somewhere in `b`, and the rests agree. */
  lemma PermHead<T>(a: seq<T>, b: seq<T>) returns (i: nat)
    requires a != [] && multiset(a) == multiset(b)
    ensures i < |b| && b[i] == a[0]
    ensures multiset(a[1..]) == multiset(b[..i] + b[i + 1..])
  {
    assert a[0] in multiset(b);
    i :| 0 <= i < |b| && b[i] == a[0];
    var x := a[0];
    var front, back := b[..i], b[i + 1..];
    assert a == [x] + a[1..];
    assert b == front + ([x] + back);
    assert multiset(b) == multiset(front) + (multiset{x} + multiset(back));
    assert multiset(front + back) == multiset(front) + multiset(back);
    CancelOne(multiset(a[1..]), multiset(front + back), x);
  }

  lemma CancelOne<T>(m: multiset<T>, m': multiset<T>, x: T)
    requires multiset{x} + m == multiset{x} + m'
    ensures m == m'
  {
    calc {
      m;
      multiset{x} + m - multiset{x};
      multiset{x} + m' - multiset{x};
      m';
    }
  }

  /** `f` applied to every element, the results concatenated in order. */
  function FlatMap<T, U>(f: T -> seq<U>, s: seq<T>): seq<U>
  {
    if s == [] then [] else f(s[0]) + FlatMap(f, s[1..])
  }

  lemma FlatMapPair<T, U>(f: T -> seq<U>, a: T, b: T)
    ensures FlatMap(f, [a, b]) == f(a) + f(b)
  {
    assert [a, b][1..] == [b] && [b][1..] == [];
    assert FlatMap(f, [b]) == f(b) + FlatMap(f, []) == f(b);
  }

  lemma {:induction false} FlatMapAppend<T, U>(f: T -> seq<U>, a: seq<T>, b: seq<T>)
    ensures FlatMap(f, a + b) == FlatMap(f, a) + FlatMap(f, b)
  {
    if a != [] {
      assert (a + b)[1..] == a[1..] + b;
      FlatMapAppend(f, a[1..], b);
    } else {
      assert a + b == b;
    }
  }

  /** Reordering the input only reorders the output. */
  lemma {:induction false} FlatMapPerm<T, U>(f: T -> seq<U>, a: seq<T>, b: seq<T>)
    requires multiset(a) == multiset(b)
    ensures multiset(FlatMap(f, a)) == multiset(FlatMap(f, b))
    decreases |a|
  {
    if a == [] {
      assert |b| == |multiset(b)| == 0;
    } else {
      var i := PermHead(a, b);
      var rest := b[..i] + b[i + 1..];
      FlatMapPerm(f, a[1..], rest);
      assert b == b[..i] + [b[i]] + b[i + 1..];
      FlatMapAppend(f, b[..i] + [b[i]], b[i + 1..]);
      FlatMapAppend(f, b[..i], [b[i]]);
      FlatMapAppend(f, b[..i], b[i + 1..]);
      assert FlatMap(f, [b[i]]) == f(b[i]) + FlatMap(f, []);
    }
  }

  /** The elements of `s` that satisfy `p`, in order. */
  function Filter<T>(p: T -> bool, s: seq<T>): (r: seq<T>)
    ensures |r| <= |s|
  {
    if s == [] then [] else (if p(s[0]) then [s[0]] else []) + Filter(p, s[1..])
  }

  lemma {:induction false} FilterMembers<T>(p: T -> bool, s: seq<T>)
    ensures forall x :: x in Filter(p, s) <==> x in s && p(x)
  {
    if s != [] {
      FilterMembers(p, s[1..]);
      assert s == [s[0]] + s[1..];
    }
  }

  lemma {:induction false} FilterAppend<T>(p: T -> bool, a: seq<T>, b: seq<T>)
    ensures Filter(p, a + b) == Filter(p, a) + Filter(p, b)
  {
    if a != [] {
      assert (a + b)[1..] == a[1..] + b;
      FilterAppend(p, a[1..], b);
    } else {
      assert a + b == b;
    }
  }

  /** How many elements satisfy `p` only depends on the multiset of elements. */
  lemma {:induction false} FilterPerm<T>(p: T -> bool, a: seq<T>, b: seq<T>)
    requires multiset(a) == multiset(b)
    ensures |Filter(p, a)| == |Filter(p, b)|
    decreases |a|
  {
    if a == [] {
      assert |b| == |multiset(b)| == 0;
    } else {
      var i := PermHead(a, b);
      FilterPerm(p, a[1..], b[..i] + b[i + 1..]);
      assert b == b[..i] + [b[i]] + b[i + 1..];
      FilterAppend(p, b[..i] + [b[i]], b[i + 1..]);
      FilterAppend(p, b[..i], [b[i]]);
      FilterAppend(p, b[..i], b[i + 1..]);
    }
  }

  /** A weaker test keeps at least as many elements. */
  lemma {:induction false} FilterWeaker<T>(p: T -> bool, q: T -> bool, s: seq<T>)
    requires forall i :: 0 <= i < |s| && p(s[i]) ==> q(s[i])
    ensures |Filter(p, s)| <= |Filter(q, s)|
  {
    if s != [] {
      FilterWeaker(p, q, s[1..]);
    }
  }

  /** A test that holds everywhere keeps everything. */
  lemma {:induction false} FilterAll<T>(p: T -> bool, s: seq<T>)
    requires forall i :: 0 <= i < |s| ==> p(s[i])
    ensures Filter(p, s) == s
  {
    if s != [] {
      FilterAll(p, s[1..]);
    }
  }

  /** Two tests that agree on `s` keep the same elements. */
  lemma {:induction false} FilterSame<T>(p: T -> bool, q: T -> bool, s: seq<T>)
    requires forall i :: 0 <= i < |s| ==> p(s[i]) == q(s[i])
    ensures Filter(p, s) == Filter(q, s)
  {
    if s != [] {
      FilterSame(p, q, s[1..]);
    }
  }

  /** A test that holds nowhere keeps nothing. */
  lemma {:induction false} FilterNone<T>(p: T -> bool, s: seq<T>)
    requires forall i :: 0 <= i < |s| ==> !p(s[i])
    ensures Filter(p, s) == []
  {
    if s != [] {
      FilterNone(p, s[1..]);
    }
  }

  /** When `f` gives at least one element per input, `FlatMap` is at least
      as long as its input. */
  lemma {:induction false} FlatMapAtLeastOne<T, U>(f: T -> seq<U>, s: seq<T>)
    requires forall i :: 0 <= i < |s| ==> |f(s[i])| >= 1
    ensures |FlatMap(f, s)| >= |s|
  {
    if s != [] {
      assert |f(s[0])| >= 1;
      FlatMapAtLeastOne(f, s[1..]);
    }
  }

  /** When `f` gives one element per input, `FlatMap` is an element-wise map. */
  lemma {:induction false} FlatMapSingletons<T, U>(f: T -> seq<U>, s: seq<T>)
    requires forall i :: 0 <= i < |s| ==> |f(s[i])| == 1
    ensures |FlatMap(f, s)| == |s|
    ensures forall i :: 0 <= i < |s| ==> FlatMap(f, s)[i] == f(s[i])[0]
  {
    if s != [] {
      FlatMapSingletons(f, s[1..]);
      forall i | 0 <= i < |s|
        ensures FlatMap(f, s)[i] == f(s[i])[0]
      {
        if i > 0 {
          assert FlatMap(f, s)[i] == FlatMap(f, s[1..])[i - 1];
        }
      }
    }
  }
}
