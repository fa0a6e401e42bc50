/** Order-preserving filtering of sequences (JavaScript's `Array.prototype.filter`)
    and the facts about it that the rest of the model relies on. */
module Seqs {

  /** `r` holds the elements of `s` at the positions `idx`. */
  ghost predicate Picks<T>(s: seq<T>, r: seq<T>, idx: seq<int>) {
    && |idx| == |r|
    && forall k :: 0 <= k < |idx| ==> 0 <= idx[k] < |s| && r[k] == s[idx[k]]
  }

  ghost predicate Increasing(idx: seq<int>) {
    forall k, l :: 0 <= k < l < |idx| ==> idx[k] < idx[l]
  }

  /** `idx` holds exactly the positions of `s` whose elements satisfy `p`. */
  ghost predicate Covers<T>(p: T -> bool, s: seq<T>, idx: seq<int>) {
    forall i :: 0 <= i < |s| ==> (p(s[i]) <==> i in idx)
  }

  /** `idx` lists, in strictly increasing order, exactly the positions of
      `s` whose elements satisfy `p`, and `r` holds the elements at those
      positions: `r` is the subsequence of the `p`-elements of `s`, each
      kept once and in its original order. */
  ghost predicate SelectedAt<T>(p: T -> bool, s: seq<T>, r: seq<T>, idx: seq<int>) {
    Picks(s, r, idx) && Increasing(idx) && Covers(p, s, idx)
  }

  /** `r` is what filtering `s` by `p` must give, stated independently of
      how `Filter` computes it. */
  ghost predicate IsFilterOf<T>(p: T -> bool, s: seq<T>, r: seq<T>) {
    exists idx :: SelectedAt(p, s, r, idx)
  }

  /** Every position of `idx` moved by `d`. */
  function Shift(idx: seq<int>, d: int): (r: seq<int>)
    ensures |r| == |idx|
    ensures forall k :: 0 <= k < |idx| ==> r[k] == idx[k] + d
  {
    seq(|idx|, k requires 0 <= k < |idx| => idx[k] + d)
  }

  /** `i + d` is a position of `Shift(idx, d)` exactly when `i` is one of `idx`. */
  lemma ShiftMember(idx: seq<int>, d: int, i: int)
    ensures i + d in Shift(idx, d) <==> i in idx
  {
    var sh := Shift(idx, d);
    if i in idx {
      var k :| 0 <= k < |idx| && idx[k] == i;
      assert sh[k] == i + d;
    }
    if i + d in sh {
      var k :| 0 <= k < |sh| && sh[k] == i + d;
      assert idx[k] == i;
    }
  }

  /** Nothing is picked from an empty sequence. */
  lemma NoPicksFromEmpty<T>(s: seq<T>, r: seq<T>, idx: seq<int>)
    requires Picks(s, r, idx)
    ensures |s| == 0 ==> r == []
  {
    if |idx| > 0 {
      assert 0 <= idx[0] < |s|;
    }
  }

  /** Positions picked from the tail of `s`, moved up by one and
      optionally preceded by the head, are positions picked from `s`. */
  lemma ConsPicks<T>(s: seq<T>, rest: seq<T>, idx: seq<int>, keep: bool)
    requires |s| > 0 && Picks(s[1..], rest, idx)
    ensures Picks(s, (if keep then [s[0]] else []) + rest, (if keep then [0] else []) + Shift(idx, 1))
  {
    var head := if keep then [s[0]] else [];
    var r := head + rest;
    var sh := Shift(idx, 1);
    var jdx := (if keep then [0] else []) + sh;
    forall k | 0 <= k < |jdx|
      ensures 0 <= jdx[k] < |s| && r[k] == s[jdx[k]]
    {
      if k >= |head| {
        assert jdx[k] == sh[k - |head|] && r[k] == rest[k - |head|];
      }
    }
  }

  /** Moving increasing positions up by one, optionally after a leading
      zero, keeps them increasing. */
  lemma ConsIncreasing(idx: seq<int>, keep: bool)
    requires Increasing(idx)
    requires forall k :: 0 <= k < |idx| ==> idx[k] >= 0
    ensures Increasing((if keep then [0] else []) + Shift(idx, 1))
  {
    var pre := if keep then [0] else [];
    var sh := Shift(idx, 1);
    var jdx := pre + sh;
    forall k, l | 0 <= k < l < |jdx|
      ensures jdx[k] < jdx[l]
    {
      if k >= |pre| {
        assert jdx[k] == sh[k - |pre|] && jdx[l] == sh[l - |pre|];
      } else {
        assert jdx[l] == sh[l - |pre|];
      }
    }
  }

  /** Covering the tail's `p`-positions extends to covering `s`'s, with
      the head position present exactly when the head satisfies `p`. */
  lemma ConsCovers<T>(p: T -> bool, s: seq<T>, idx: seq<int>)
    requires |s| > 0 && Covers(p, s[1..], idx)
    requires forall k :: 0 <= k < |idx| ==> idx[k] >= 0
    ensures Covers(p, s, (if p(s[0]) then [0] else []) + Shift(idx, 1))
  {
    var jdx := (if p(s[0]) then [0] else []) + Shift(idx, 1);
    forall i | 0 <= i < |s|
      ensures p(s[i]) <==> i in jdx
    {
      if i == 0 {
        ShiftMember(idx, 1, -1);
        assert -1 !in idx;
      } else {
        assert s[i] == s[1..][i - 1];
        ShiftMember(idx, 1, i - 1);
      }
    }
  }

  /** A selection from the tail of `s` extends to one from `s`. */
  lemma ConsSelected<T>(p: T -> bool, s: seq<T>, rest: seq<T>, idx: seq<int>)
    requires |s| > 0 && SelectedAt(p, s[1..], rest, idx)
    ensures SelectedAt(p, s, (if p(s[0]) then [s[0]] else []) + rest,
                             (if p(s[0]) then [0] else []) + Shift(idx, 1))
  {
    ConsPicks(s, rest, idx, p(s[0]));
    ConsIncreasing(idx, p(s[0]));
    ConsCovers(p, s, idx);
  }

  /** A selection of positions past the first of `s` is a selection from
      its tail, every position moved down by one. */
  lemma DropHead<T>(p: T -> bool, s: seq<T>, r: seq<T>, idx: seq<int>)
    requires |s| > 0 && Picks(s, r, idx) && Increasing(idx)
    requires forall k :: 0 <= k < |idx| ==> idx[k] >= 1
    requires forall i :: 1 <= i < |s| ==> (p(s[i]) <==> i in idx)
    ensures SelectedAt(p, s[1..], r, Shift(idx, -1))
  {
    var jdx := Shift(idx, -1);
    forall i | 0 <= i < |s[1..]|
      ensures p(s[1..][i]) <==> i in jdx
    {
      assert s[1..][i] == s[i + 1];
      ShiftMember(idx, -1, i + 1);
    }
  }

  /** A selection from `s` that starts at the head yields, past its
      first entry, one from the tail. */
  lemma TailSelectedKept<T>(p: T -> bool, s: seq<T>, r: seq<T>, idx: seq<int>)
    requires |s| > 0 && p(s[0]) && SelectedAt(p, s, r, idx)
    ensures |r| > 0 && r[0] == s[0] && SelectedAt(p, s[1..], r[1..], Shift(idx[1..], -1))
  {
    assert forall k :: 0 < k < |idx| ==> idx[k] > idx[0] >= 0;
    assert 0 in idx;
    assert idx[0] == 0;
    var rest := idx[1..];
    assert Picks(s, r[1..], rest) by {
      forall k | 0 <= k < |rest|
        ensures 0 <= rest[k] < |s| && r[1..][k] == s[rest[k]]
      {
        assert rest[k] == idx[k + 1] && r[1..][k] == r[k + 1];
      }
    }
    assert Increasing(rest) by {
      forall k, l | 0 <= k < l < |rest|
        ensures rest[k] < rest[l]
      {
        assert rest[k] == idx[k + 1] && rest[l] == idx[l + 1];
      }
    }
    forall i | 1 <= i < |s|
      ensures i in idx <==> i in rest
    {
      if i in idx {
        var k :| 0 <= k < |idx| && idx[k] == i;
        assert k > 0 && rest[k - 1] == i;
      }
      if i in rest {
        var k :| 0 <= k < |rest| && rest[k] == i;
        assert idx[k + 1] == i;
      }
    }
    DropHead(p, s, r[1..], rest);
  }

  /** A selection from `s` that skips the head is one from the tail. */
  lemma TailSelectedSkipped<T>(p: T -> bool, s: seq<T>, r: seq<T>, idx: seq<int>)
    requires |s| > 0 && !p(s[0]) && SelectedAt(p, s, r, idx)
    ensures SelectedAt(p, s[1..], r, Shift(idx, -1))
  {
    forall k | 0 <= k < |idx|
      ensures idx[k] >= 1
    {
      assert idx[k] in idx;
    }
    DropHead(p, s, r, idx);
  }

  /** A selection from `s` yields one from its tail. */
  lemma TailSelected<T>(p: T -> bool, s: seq<T>, r: seq<T>, idx: seq<int>)
    requires |s| > 0 && SelectedAt(p, s, r, idx)
    ensures p(s[0]) ==> |r| > 0 && r[0] == s[0] && SelectedAt(p, s[1..], r[1..], Shift(idx[1..], -1))
    ensures !p(s[0]) ==> SelectedAt(p, s[1..], r, Shift(idx, -1))
  {
    if p(s[0]) {
      TailSelectedKept(p, s, r, idx);
    } else {
      TailSelectedSkipped(p, s, r, idx);
    }
  }

  /** The elements of `s` that satisfy `p`, in their original order, each
      as often as in `s`. */
  function Filter<T>(p: T -> bool, s: seq<T>): (r: seq<T>)
    ensures |r| <= |s|
    ensures forall i :: 0 <= i < |r| ==> r[i] in s && p(r[i])
    ensures forall i :: 0 <= i < |s| && p(s[i]) ==> s[i] in r
    decreases |s|
  {
    if |s| == 0 then []
    else (if p(s[0]) then [s[0]] else []) + Filter(p, s[1..])
  }

  /** `Filter` keeps exactly the `p`-elements of `s`, each once, in their
      original order. */
  lemma {:induction false} FilterSelects<T>(p: T -> bool, s: seq<T>)
    ensures IsFilterOf(p, s, Filter(p, s))
    decreases |s|
  {
    if |s| == 0 {
      assert SelectedAt(p, s, [], []);
    } else {
      FilterSelects(p, s[1..]);
      var idx :| SelectedAt(p, s[1..], Filter(p, s[1..]), idx);
      ConsSelected(p, s, Filter(p, s[1..]), idx);
    }
  }

  /** Nothing is selected from an empty sequence. */
  lemma EmptyFilter<T>(p: T -> bool, s: seq<T>, r: seq<T>)
    requires IsFilterOf(p, s, r)
    ensures |s| == 0 ==> r == []
  {
    var idx :| SelectedAt(p, s, r, idx);
    NoPicksFromEmpty(s, r, idx);
  }

  /** The characterization passes from `s` to its tail. */
  lemma TailIsFilter<T>(p: T -> bool, s: seq<T>, r: seq<T>)
    requires |s| > 0 && IsFilterOf(p, s, r)
    ensures p(s[0]) ==> |r| > 0 && r[0] == s[0] && IsFilterOf(p, s[1..], r[1..])
    ensures !p(s[0]) ==> IsFilterOf(p, s[1..], r)
  {
    var idx :| SelectedAt(p, s, r, idx);
    TailSelected(p, s, r, idx);
    if p(s[0]) {
      assert SelectedAt(p, s[1..], r[1..], Shift(idx[1..], -1));
    } else {
      assert SelectedAt(p, s[1..], r, Shift(idx, -1));
    }
  }

  /** A `p`-head followed by the filtered tail is the filtered sequence. */
  lemma FilterKeepsHead<T>(p: T -> bool, s: seq<T>, r: seq<T>)
    requires |s| > 0 && p(s[0]) && |r| > 0 && r[0] == s[0] && r[1..] == Filter(p, s[1..])
    ensures r == Filter(p, s)
  {
    assert r == [s[0]] + r[1..];
  }

  /** The characterization pins the result down: whatever sequence is the
      order-preserving selection of the `p`-elements of `s` is `Filter(p, s)`. */
  lemma {:induction false} FilterUnique<T>(p: T -> bool, s: seq<T>, r: seq<T>)
    requires IsFilterOf(p, s, r)
    ensures r == Filter(p, s)
    decreases |s|
  {
    if |s| == 0 {
      EmptyFilter(p, s, r);
    } else {
      TailIsFilter(p, s, r);
      if p(s[0]) {
        FilterUnique(p, s[1..], r[1..]);
        FilterKeepsHead(p, s, r);
      } else {
        FilterUnique(p, s[1..], r);
      }
    }
  }

  /** Filtering distributes over concatenation, so it keeps relative order. */
  lemma {:induction false} FilterAppend<T>(p: T -> bool, a: seq<T>, b: seq<T>)
    ensures Filter(p, a + b) == Filter(p, a) + Filter(p, b)
    decreases |a|
  {
    if |a| == 0 {
      assert a + b == b;
    } else {
      assert (a + b)[1..] == a[1..] + b;
      FilterAppend(p, a[1..], b);
    }
  }

  /** A filter that rejects nothing returns the sequence itself. */
  lemma {:induction false} FilterKeepsAll<T>(p: T -> bool, s: seq<T>)
    requires forall i :: 0 <= i < |s| ==> p(s[i])
    ensures Filter(p, s) == s
    decreases |s|
  {
    if |s| > 0 {
      FilterKeepsAll(p, s[1..]);
    }
  }

  /** A filter that keeps nothing returns the empty sequence. */
  lemma {:induction false} FilterDropsAll<T>(p: T -> bool, s: seq<T>)
    requires forall i :: 0 <= i < |s| ==> !p(s[i])
    ensures Filter(p, s) == []
    decreases |s|
  {
    if |s| > 0 {
      FilterDropsAll(p, s[1..]);
    }
  }

  /** Filtering by `p` and by its complement `q` splits `s` into two parts
      that together hold every element exactly as often as `s` does. */
  lemma {:induction false} FilterPartition<T>(p: T -> bool, q: T -> bool, s: seq<T>)
    requires forall x :: q(x) == !p(x)
    ensures multiset(Filter(p, s)) + multiset(Filter(q, s)) == multiset(s)
    ensures |Filter(p, s)| + |Filter(q, s)| == |s|
    decreases |s|
  {
    if |s| > 0 {
      FilterPartition(p, q, s[1..]);
      assert s == [s[0]] + s[1..];
    }
  }

  /** Filtering keeps a strictly increasing key strictly increasing. */
  lemma {:induction false} FilterKeepsIncreasing<T>(p: T -> bool, key: T -> int, s: seq<T>)
    requires forall i, j :: 0 <= i < j < |s| ==> key(s[i]) < key(s[j])
    ensures forall i, j :: 0 <= i < j < |Filter(p, s)| ==> key(Filter(p, s)[i]) < key(Filter(p, s)[j])
    decreases |s|
  {
    if |s| > 0 {
      var rest := Filter(p, s[1..]);
      FilterKeepsIncreasing(p, key, s[1..]);
      forall i | 0 <= i < |rest|
        ensures key(s[0]) < key(rest[i])
      {
        var k :| 0 <= k < |s[1..]| && s[1..][k] == rest[i];
        assert s[k + 1] == rest[i];
      }
    }
  }

  /** Filtering keeps an injective key injective. */
  lemma {:induction false} FilterKeepsDistinct<T>(p: T -> bool, key: T -> int, s: seq<T>)
    requires forall i, j :: 0 <= i < j < |s| ==> key(s[i]) != key(s[j])
    ensures forall i, j :: 0 <= i < j < |Filter(p, s)| ==> key(Filter(p, s)[i]) != key(Filter(p, s)[j])
    decreases |s|
  {
    if |s| > 0 {
      var rest := Filter(p, s[1..]);
      FilterKeepsDistinct(p, key, s[1..]);
      forall i | 0 <= i < |rest|
        ensures key(s[0]) != key(rest[i])
      {
        var k :| 0 <= k < |s[1..]| && s[1..][k] == rest[i];
        assert s[k + 1] == rest[i];
      }
    }
  }

  /** Filters by two predicates that agree on every element agree. */
  lemma {:induction false} FilterExtensional<T>(p: T -> bool, q: T -> bool, s: seq<T>)
    requires forall i :: 0 <= i < |s| ==> p(s[i]) == q(s[i])
    ensures Filter(p, s) == Filter(q, s)
    decreases |s|
  {
    if |s| > 0 {
      FilterExtensional(p, q, s[1..]);
    }
  }

  /** Filtering by `p` after filtering by a weaker `q` is filtering by `p`. */
  lemma {:induction false} FilterSubsumed<T>(p: T -> bool, q: T -> bool, s: seq<T>)
    requires forall i :: 0 <= i < |s| && p(s[i]) ==> q(s[i])
    ensures Filter(p, Filter(q, s)) == Filter(p, s)
    decreases |s|
  {
    if |s| > 0 {
      FilterSubsumed(p, q, s[1..]);
      var fq := Filter(q, s);
      assert Filter(p, s) == (if p(s[0]) then [s[0]] else []) + Filter(p, s[1..]);
      if q(s[0]) {
        assert fq == [s[0]] + Filter(q, s[1..]);
        assert fq[0] == s[0] && fq[1..] == Filter(q, s[1..]);
        assert Filter(p, fq) == (if p(fq[0]) then [fq[0]] else []) + Filter(p, fq[1..]);
      } else {
        assert !p(s[0]);
        assert fq == Filter(q, s[1..]);
      }
    }
  }
}
