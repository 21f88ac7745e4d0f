/** Generic selections over table rows: boolean-mask filtering (`df[mask]`)
    and picking rows by position (`df.take(...)`, as used by `sample`). */
module Seqs {

  /** The elements of `s` that satisfy `p`, in their original order. */
  function Filter<T(!new)>(s: seq<T>, p: T -> bool): (r: seq<T>)
    ensures |r| <= |s|
  {
    if s == [] then []
    else
      var rest := Filter(s[..|s| - 1], p);
      if p(s[|s| - 1]) then rest + [s[|s| - 1]] else rest
  }

  /** A filter keeps each element exactly as often as it occurs when it
      passes, and drops it entirely otherwise. */
  lemma {:induction false} FilterCounts<T(!new)>(s: seq<T>, p: T -> bool)
    ensures forall x :: multiset(Filter(s, p))[x] == if p(x) then multiset(s)[x] else 0
    ensures forall x :: x in Filter(s, p) <==> x in s && p(x)
  {
    if s != [] {
      var init, last := s[..|s| - 1], s[|s| - 1];
      assert s == init + [last];
      FilterCounts(init, p);
    }
  }

  /** The positions of `s` whose element satisfies `p`, in increasing order. */
  function KeptIndices<T>(s: seq<T>, p: T -> bool): (r: seq<nat>)
    ensures forall k :: 0 <= k < |r| ==> r[k] < |s| && p(s[r[k]])
    ensures forall k, l :: 0 <= k < l < |r| ==> r[k] < r[l]
    ensures forall i :: 0 <= i < |s| && p(s[i]) ==> i in r
  {
    if s == [] then []
    else
      var rest := KeptIndices(s[..|s| - 1], p);
      if p(s[|s| - 1]) then rest + [|s| - 1] else rest
  }

  /** Filtering is selection at the kept positions: the result is the
      subsequence of `s` at the increasing indices `KeptIndices(s, p)`, so the
      filter preserves the relative order of the rows it keeps. */
  lemma {:induction false} FilterIsSelection<T(!new)>(s: seq<T>, p: T -> bool)
    ensures |Filter(s, p)| == |KeptIndices(s, p)|
    ensures forall k :: 0 <= k < |Filter(s, p)| ==> Filter(s, p)[k] == s[KeptIndices(s, p)[k]]
  {
    if s != [] {
      var init, last := s[..|s| - 1], s[|s| - 1];
      var f, ix := Filter(init, p), KeptIndices(init, p);
      FilterIsSelection(init, p);
      var f', ix' := Filter(s, p), KeptIndices(s, p);
      assert f' == if p(last) then f + [last] else f;
      assert ix' == if p(last) then ix + [|s| - 1] else ix;
      forall k | 0 <= k < |f'| ensures f'[k] == s[ix'[k]] {
        if k < |f| {
          assert f'[k] == f[k] && ix'[k] == ix[k];
          assert f[k] == init[ix[k]];
        }
      }
    }
  }

  /** Filtering distributes over concatenation. */
  lemma {:induction false} FilterAppend<T(!new)>(a: seq<T>, b: seq<T>, p: T -> bool)
    ensures Filter(a + b, p) == Filter(a, p) + Filter(b, p)
    decreases |b|
  {
    if b == [] {
      assert a + b == a;
    } else {
      var b' := b[..|b| - 1];
      assert (a + b)[..|a + b| - 1] == a + b';
      FilterAppend(a, b', p);
    }
  }

  lemma FilterSingleton<T(!new)>(x: T, p: T -> bool)
    ensures Filter([x], p) == if p(x) then [x] else []
  {
    assert [x][..0] == [];
  }

  /** If `s` filters like `init` followed by `x`, and `x` and `last` do not
      both pass, then `s + [last]` filters like `init + [last]` followed by
      `x`: an element may move past one that the filter tells apart from it. */
  lemma FilterPastOther<T(!new)>(s: seq<T>, init: seq<T>, x: T, last: T, p: T -> bool)
    requires Filter(s, p) == Filter(init, p) + Filter([x], p)
    requires !(p(x) && p(last))
    ensures Filter(s + [last], p) == Filter(init + [last], p) + Filter([x], p)
  {
    FilterSingleton(x, p);
    FilterSingleton(last, p);
    FilterAppend(s, [last], p);
    FilterAppend(init, [last], p);
  }

  /** Every element passes `p` or its negation `q`, so the two filters
      split the sequence: their lengths add up to its length. */
  lemma {:induction false} FilterComplement<T(!new)>(s: seq<T>, p: T -> bool, q: T -> bool)
    requires forall x :: q(x) <==> !p(x)
    ensures |Filter(s, p)| + |Filter(s, q)| == |s|
  {
    if s != [] {
      FilterComplement(s[..|s| - 1], p, q);
    }
  }

  /** Every index of `idx` addresses an element of a sequence of length `n`. */
  predicate InRange(idx: seq<nat>, n: nat) {
    forall k :: 0 <= k < |idx| ==> idx[k] < n
  }

  /** No index occurs twice in `idx` (drawing without replacement). */
  predicate Distinct(idx: seq<nat>) {
    forall k, l :: 0 <= k < l < |idx| ==> idx[k] != idx[l]
  }

  /** The elements of `s` at the positions `idx`, in the order of `idx`. */
  function Pick<T>(s: seq<T>, idx: seq<nat>): (r: seq<T>)
    requires InRange(idx, |s|)
    ensures |r| == |idx|
  {
    seq(|idx|, k requires 0 <= k < |idx| => s[idx[k]])
  }

  /** Removing the one occurrence of the last position `n` from a distinct
      draw over `n + 1` elements leaves a distinct draw over `n` elements. */
  lemma RemoveLastPosition(idx: seq<nat>, p: nat, n: nat)
    requires InRange(idx, n + 1) && Distinct(idx)
    requires p < |idx| && idx[p] == n
    ensures InRange(idx[..p] + idx[p + 1..], n) && Distinct(idx[..p] + idx[p + 1..])
  {
    var rest := idx[..p] + idx[p + 1..];
    forall k | 0 <= k < |rest| ensures rest[k] < n {
      if k < p { assert rest[k] == idx[k]; } else { assert rest[k] == idx[k + 1]; }
    }
    forall k, l | 0 <= k < l < |rest| ensures rest[k] != rest[l] {
      var k' := if k < p then k else k + 1;
      var l' := if l < p then l else l + 1;
      assert rest[k] == idx[k'] && rest[l] == idx[l'];
    }
  }

  /** Picking around position `p` of `idx`, whose entry is the last position
      of `s`, is picking the others from all but the last element and
      putting the last element in between. */
  lemma PickAroundLast<T>(s: seq<T>, idx: seq<nat>, p: nat)
    requires |s| > 0 && InRange(idx, |s|) && p < |idx| && idx[p] == |s| - 1
    requires InRange(idx[..p] + idx[p + 1..], |s| - 1)
    ensures multiset(Pick(s, idx)) == multiset(Pick(s[..|s| - 1], idx[..p] + idx[p + 1..])) + multiset{s[|s| - 1]}
  {
    var m := |s| - 1;
    assert Pick(s, idx) == Pick(s, idx[..p]) + [s[m]] + Pick(s, idx[p + 1..]);
    assert Pick(s[..m], idx[..p] + idx[p + 1..]) == Pick(s, idx[..p]) + Pick(s, idx[p + 1..]);
  }

  /** Picking at pairwise distinct positions only ever removes elements:
      the picked rows form a sub-multiset of the original rows. */
  lemma {:induction false} PickDistinctIsSubMultiset<T>(s: seq<T>, idx: seq<nat>)
    requires InRange(idx, |s|) && Distinct(idx)
    ensures multiset(Pick(s, idx)) <= multiset(s)
    decreases |s|
  {
    if idx != [] {
      assert idx[0] < |s|;
      var m := |s| - 1;
      var init := s[..m];
      assert s == init + [s[m]];
      if p :| 0 <= p < |idx| && idx[p] == m {
        RemoveLastPosition(idx, p, m);
        PickDistinctIsSubMultiset(init, idx[..p] + idx[p + 1..]);
        PickAroundLast(s, idx, p);
      } else {
        assert InRange(idx, |init|) by {
          forall k | 0 <= k < |idx| ensures idx[k] < |init| {
            assert idx[k] != m;
          }
        }
        PickDistinctIsSubMultiset(init, idx);
        assert Pick(init, idx) == Pick(s, idx);
      }
    }
  }
}
