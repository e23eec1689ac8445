/**
 * Half-open byte ranges and the merge that keeps a session's `.blocks` sidecar
 * (crates/libfw-server/src/storage.rs, `merge_range`).
 */
module Ranges {
  import opened Bytes

  datatype Range = Range(start: nat, end: nat) {
    predicate Empty() { end <= start }

    predicate Has(x: nat) { start <= x < end }

    /** `end.saturating_sub(start)`. */
    function Len(): nat { if end <= start then 0 else end - start }
  }

  /** The bytes a list of ranges stands for. */
  ghost predicate Covers(rs: seq<Range>, x: nat) {
    exists i :: 0 <= i < |rs| && rs[i].Has(x)
  }

  /** Sorted, non-empty, with at least one uncovered byte between neighbours. */
  predicate Canonical(rs: seq<Range>) {
    && (forall i :: 0 <= i < |rs| ==> rs[i].start < rs[i].end)
    && (forall i, j :: 0 <= i < j < |rs| ==> rs[i].end < rs[j].start)
  }

  predicate Within(rs: seq<Range>, n: nat) {
    forall i :: 0 <= i < |rs| ==> rs[i].end <= n
  }

  function Total(rs: seq<Range>): nat {
    if rs == [] then 0 else rs[0].Len() + Total(rs[1..])
  }

  lemma CoversCons(r: Range, rs: seq<Range>, x: nat)
    ensures Covers([r] + rs, x) <==> r.Has(x) || Covers(rs, x)
  {
    if Covers(rs, x) {
      var i :| 0 <= i < |rs| && rs[i].Has(x);
      assert ([r] + rs)[i + 1].Has(x);
    }
    if r.Has(x) {
      assert ([r] + rs)[0].Has(x);
    }
    if Covers([r] + rs, x) {
      var i :| 0 <= i < |[r] + rs| && ([r] + rs)[i].Has(x);
      if i > 0 { assert rs[i - 1].Has(x); }
    }
  }

  lemma CoversSplit(a: seq<Range>, b: seq<Range>, x: nat)
    ensures Covers(a + b, x) <==> Covers(a, x) || Covers(b, x)
  {
    if Covers(a, x) {
      var i :| 0 <= i < |a| && a[i].Has(x);
      assert (a + b)[i].Has(x);
    }
    if Covers(b, x) {
      var i :| 0 <= i < |b| && b[i].Has(x);
      assert (a + b)[|a| + i].Has(x);
    }
    if Covers(a + b, x) {
      var i :| 0 <= i < |a + b| && (a + b)[i].Has(x);
      if i < |a| { assert a[i].Has(x); } else { assert b[i - |a|].Has(x); }
    }
  }

  lemma CoversSlice(rs: seq<Range>, i: nat, x: nat)
    requires i < |rs|
    ensures Covers(rs[..i + 1], x) <==> Covers(rs[..i], x) || rs[i].Has(x)
  {
    assert rs[..i + 1] == rs[..i] + [rs[i]];
    CoversSplit(rs[..i], [rs[i]], x);
    CoversCons(rs[i], [], x);
    assert [rs[i]] + [] == [rs[i]];
  }

  // ---------------------------------------------------------------------------
  // Canonical lists are unique, and their total length is the size of the set
  // ---------------------------------------------------------------------------

  lemma CanonicalTail(rs: seq<Range>)
    requires Canonical(rs) && rs != []
    ensures Canonical(rs[1..])
    ensures forall x: nat :: Covers(rs[1..], x) <==> Covers(rs, x) && rs[0].end <= x
    ensures forall x: nat :: Covers(rs[1..], x) ==> rs[0].end < x
  {
    assert rs == [rs[0]] + rs[1..];
    forall x: nat
      ensures Covers(rs[1..], x) <==> Covers(rs, x) && rs[0].end <= x
      ensures Covers(rs[1..], x) ==> rs[0].end < x
    {
      CoversCons(rs[0], rs[1..], x);
    }
  }

  lemma CanonicalCons(h: Range, t: seq<Range>)
    requires Canonical(t) && h.start < h.end && (t != [] ==> h.end < t[0].start)
    ensures Canonical([h] + t)
  {
    var r := [h] + t;
    forall i, j | 0 <= i < j < |r|
      ensures r[i].end < r[j].start
    {
      assert r[j] == t[j - 1];
      if i == 0 {
        assert t[0].start <= t[j - 1].start;
      } else {
        assert r[i] == t[i - 1];
      }
    }
  }

  lemma HeadCovered(rs: seq<Range>)
    requires Canonical(rs) && rs != []
    ensures forall x: nat :: rs[0].Has(x) ==> Covers(rs, x)
    ensures forall x: nat :: x < rs[0].start || x == rs[0].end ==> !Covers(rs, x)
  {
  }

  /** Two canonical lists that cover the same bytes are the same list. */
  lemma {:induction false} CanonicalUnique(a: seq<Range>, b: seq<Range>)
    requires Canonical(a) && Canonical(b)
    requires forall x: nat :: Covers(a, x) <==> Covers(b, x)
    ensures a == b
  {
    if a != [] { HeadCovered(a); assert a[0].Has(a[0].start); }
    if b != [] { HeadCovered(b); assert b[0].Has(b[0].start); }
    if a != [] && b != [] {
      HeadsAgree(a, b);
      CanonicalTail(a);
      CanonicalTail(b);
      CanonicalUnique(a[1..], b[1..]);
      assert a == [a[0]] + a[1..] && b == [b[0]] + b[1..];
    }
  }

  lemma HeadsAgree(a: seq<Range>, b: seq<Range>)
    requires Canonical(a) && Canonical(b) && a != [] && b != []
    requires forall x: nat :: Covers(a, x) <==> Covers(b, x)
    ensures a[0] == b[0]
  {
    HeadCovered(a);
    HeadCovered(b);
    var p, q := a[0], b[0];
    assert p.Has(p.start) && q.Has(q.start);
    assert p.start == q.start;
    assert q.end < p.end ==> p.Has(q.end);
    assert p.end < q.end ==> q.Has(p.end);
  }

  ghost function CoveredSet(rs: seq<Range>, n: nat): set<nat> {
    set x: nat | x < n && Covers(rs, x)
  }

  ghost function Span(lo: nat, hi: nat): set<nat> { set x: nat | x < hi && Range(lo, hi).Has(x) }

  lemma {:induction false} SpanSize(lo: nat, hi: nat)
    requires lo <= hi
    ensures |Span(lo, hi)| == hi - lo
    decreases hi - lo
  {
    if lo < hi {
      assert Span(lo, hi) == {lo} + Span(lo + 1, hi);
      SpanSize(lo + 1, hi);
    } else {
      assert Span(lo, hi) == {};
    }
  }

  /** Non-empty ranges in increasing order; neighbours may touch. */
  predicate Ordered(rs: seq<Range>) {
    && (forall i :: 0 <= i < |rs| ==> rs[i].start < rs[i].end)
    && (forall i, j :: 0 <= i < j < |rs| ==> rs[i].end <= rs[j].start)
  }

  /** The summed lengths of ordered ranges count the bytes they cover. */
  lemma {:induction false} TotalCounts(rs: seq<Range>, n: nat)
    requires Ordered(rs) && Within(rs, n)
    ensures Total(rs) == |CoveredSet(rs, n)|
  {
    if rs == [] {
      assert CoveredSet(rs, n) == {};
    } else {
      TotalCounts(rs[1..], n);
      SpanSize(rs[0].start, rs[0].end);
      CoveredSplit(rs, n);
    }
  }

  lemma CoveredSplit(rs: seq<Range>, n: nat)
    requires Ordered(rs) && Within(rs, n) && rs != []
    ensures CoveredSet(rs, n) == Span(rs[0].start, rs[0].end) + CoveredSet(rs[1..], n)
    ensures Span(rs[0].start, rs[0].end) !! CoveredSet(rs[1..], n)
  {
    assert rs == [rs[0]] + rs[1..];
    forall x: nat
      ensures x in CoveredSet(rs, n) <==> x in Span(rs[0].start, rs[0].end) + CoveredSet(rs[1..], n)
    {
      CoversCons(rs[0], rs[1..], x);
    }
  }

  /**
   * The coverage half of the commit check: inside `n` bytes, the lengths of a canonical
   * list add up to `n` exactly when the list is the single range [0, n).
   */
  lemma CoverageExact(rs: seq<Range>, n: nat)
    requires Canonical(rs) && Within(rs, n) && rs != []
    ensures Total(rs) == n <==> rs == [Range(0, n)]
    ensures Total(rs) == n <==> forall x: nat :: x < n ==> Covers(rs, x)
  {
    TotalCounts(rs, n);
    SpanSize(0, n);
    assert CoveredSet(rs, n) <= Span(0, n);
    if Total(rs) == n {
      SubsetFull(CoveredSet(rs, n), Span(0, n));
      forall x: nat | x < n
        ensures Covers(rs, x)
      {
        assert x in Span(0, n);
      }
    }
    if forall x: nat :: x < n ==> Covers(rs, x) {
      var full := [Range(0, n)];
      assert rs[0].end <= n;
      forall x: nat
        ensures Covers(rs, x) <==> Covers(full, x)
      {
        if Covers(full, x) { assert full[0].Has(x); }
        if x < n { assert full[0].Has(x); }
      }
      CanonicalUnique(rs, full);
    }
    if rs == [Range(0, n)] {
      assert Total(rs[1..]) == 0;
    }
  }

  lemma SubsetFull(a: set<nat>, b: set<nat>)
    requires a <= b && |a| == |b|
    ensures a == b
  {
    assert |b - a| == |b| - |a|;
  }

  // ---------------------------------------------------------------------------
  // Merging one new range
  // ---------------------------------------------------------------------------

  predicate SortedByStart(rs: seq<Range>) {
    forall i :: 0 <= i < |rs| - 1 ==> rs[i].start <= rs[i + 1].start
  }

  /** The library's stable sort, as insertion of each element before later equals. */
  function SortByStart(rs: seq<Range>): (r: seq<Range>)
    ensures SortedByStart(r) && multiset(r) == multiset(rs)
  {
    if rs == [] then []
    else
      assert rs == [rs[0]] + rs[1..];
      InsertByStart(rs[0], SortByStart(rs[1..]))
  }

  function InsertByStart(r: Range, rs: seq<Range>): (res: seq<Range>)
    requires SortedByStart(rs)
    ensures SortedByStart(res) && multiset(res) == multiset(rs) + multiset{r}
    ensures res != [] && (res[0] == r || (rs != [] && res[0] == rs[0]))
  {
    if rs == [] then [r]
    else if r.start <= rs[0].start then [r] + rs
    else
      assert rs == [rs[0]] + rs[1..];
      [rs[0]] + InsertByStart(r, rs[1..])
  }

  /** The union of a canonical list with one range, by insertion: what the merge refines. */
  function Union(rs: seq<Range>, r: Range): seq<Range>
    decreases |rs|
  {
    if r.Empty() then rs
    else if rs == [] then [r]
    else if rs[0].end < r.start then
      [rs[0]] + Union(rs[1..], r)
    else if r.end < rs[0].start then [r] + rs
    else Union(rs[1..], Range(Min(r.start, rs[0].start), Max(r.end, rs[0].end)))
  }

  lemma {:induction false} UnionCanonical(rs: seq<Range>, r: Range)
    requires Canonical(rs)
    ensures Canonical(Union(rs, r))
    ensures !r.Empty() ==> Union(rs, r) != []
    ensures !r.Empty() ==> Union(rs, r)[0].start == if rs == [] then r.start else Min(r.start, rs[0].start)
    decreases |rs|
  {
    if !r.Empty() && rs != [] {
      CanonicalTail(rs);
      if rs[0].end < r.start {
        UnionCanonical(rs[1..], r);
        CanonicalCons(rs[0], Union(rs[1..], r));
      } else if r.end < rs[0].start {
        CanonicalCons(r, rs);
      } else {
        UnionCanonical(rs[1..], Range(Min(r.start, rs[0].start), Max(r.end, rs[0].end)));
      }
    }
  }

  lemma {:induction false} UnionCovers(rs: seq<Range>, r: Range, x: nat)
    requires Canonical(rs)
    ensures Covers(Union(rs, r), x) <==> Covers(rs, x) || r.Has(x)
    decreases |rs|
  {
    if r.Empty() {
    } else if rs == [] {
      CoversCons(r, [], x);
      assert [r] + [] == [r];
    } else {
      var tail := rs[1..];
      assert rs == [rs[0]] + tail;
      CoversCons(rs[0], tail, x);
      CanonicalTail(rs);
      if rs[0].end < r.start {
        UnionCovers(tail, r, x);
        CoversCons(rs[0], Union(tail, r), x);
      } else if r.end < rs[0].start {
        CoversCons(r, rs, x);
      } else {
        UnionCovers(tail, Range(Min(r.start, rs[0].start), Max(r.end, rs[0].end)), x);
      }
    }
  }

  lemma UnionWithin(rs: seq<Range>, r: Range, n: nat)
    requires Canonical(rs) && Within(rs, n) && r.end <= n
    ensures Within(Union(rs, r), n)
  {
    var u := Union(rs, r);
    UnionCanonical(rs, r);
    forall i | 0 <= i < |u|
      ensures u[i].end <= n
    {
      var x := u[i].end - 1;
      assert u[i].Has(x);
      assert Covers(u, x);
      UnionCovers(rs, r, x);
    }
  }

  /** Slices may be recorded in any order, and any number of times. */
  lemma UnionCommutes(rs: seq<Range>, a: Range, b: Range)
    requires Canonical(rs)
    ensures Union(Union(rs, a), b) == Union(Union(rs, b), a)
    ensures Union(Union(rs, a), a) == Union(rs, a)
  {
    UnionCanonical(rs, a);
    UnionCanonical(rs, b);
    UnionCanonical(Union(rs, a), b);
    UnionCanonical(Union(rs, b), a);
    UnionCanonical(Union(rs, a), a);
    forall x: nat
      ensures Covers(Union(Union(rs, a), b), x) <==> Covers(Union(Union(rs, b), a), x)
      ensures Covers(Union(Union(rs, a), a), x) <==> Covers(Union(rs, a), x)
    {
      UnionCovers(rs, a, x);
      UnionCovers(rs, b, x);
      UnionCovers(Union(rs, a), b, x);
      UnionCovers(Union(rs, b), a, x);
      UnionCovers(Union(rs, a), a, x);
    }
    CanonicalUnique(Union(Union(rs, a), b), Union(Union(rs, b), a));
    CanonicalUnique(Union(Union(rs, a), a), Union(rs, a));
  }

  predicate AllNonEmpty(rs: seq<Range>) { forall i :: 0 <= i < |rs| ==> !rs[i].Empty() }

  /** The loop's invariant: `merged` stands for the sorted ranges seen so far. */
  ghost predicate Folded(merged: seq<Range>, seen: seq<Range>) {
    && (forall x: nat :: Covers(merged, x) <==> Covers(seen, x))
    && (merged == [] <==> seen == [])
    && (merged != [] ==> merged[|merged| - 1].start <= seen[|seen| - 1].start)
    && (AllNonEmpty(seen) ==> Canonical(merged))
  }

  /** One pass of the loop: coalesce into the last range, or start a new one. */
  function FoldStep(merged: seq<Range>, r: Range): seq<Range> {
    if merged != [] && r.start <= merged[|merged| - 1].end then
      var last := merged[|merged| - 1];
      if r.end > last.end then merged[|merged| - 1 := Range(last.start, r.end)] else merged
    else merged + [r]
  }

  lemma FoldStepFolds(merged: seq<Range>, sorted: seq<Range>, i: nat)
    requires SortedByStart(sorted) && i < |sorted| && Folded(merged, sorted[..i])
    ensures Folded(FoldStep(merged, sorted[i]), sorted[..i + 1])
  {
    var r := sorted[i];
    assert i > 0 ==> sorted[i - 1].start <= r.start;
    forall x: nat
      ensures Covers(FoldStep(merged, r), x) <==> Covers(sorted[..i + 1], x)
    {
      CoversSlice(sorted, i, x);
      FoldStepCovers(merged, r, x);
    }
    if AllNonEmpty(sorted[..i + 1]) {
      assert forall k :: 0 <= k < i ==> sorted[..i][k] == sorted[..i + 1][k];
      assert r == sorted[..i + 1][i];
      FoldStepCanonical(merged, r);
    }
  }

  lemma FoldStepCanonical(merged: seq<Range>, r: Range)
    requires Canonical(merged) && !r.Empty()
    ensures Canonical(FoldStep(merged, r))
  {
  }

  lemma FoldStepCovers(merged: seq<Range>, r: Range, x: nat)
    requires merged != [] ==> merged[|merged| - 1].start <= r.start
    ensures Covers(FoldStep(merged, r), x) <==> Covers(merged, x) || r.Has(x)
  {
    CoversSplit(merged, [r], x);
    CoversCons(r, [], x);
    assert [r] + [] == [r];
    if merged != [] && r.start <= merged[|merged| - 1].end {
      var n := |merged| - 1;
      var last := merged[n];
      var ext := Range(last.start, Max(last.end, r.end));
      assert merged == merged[..n] + [last];
      assert FoldStep(merged, r) == merged[..n] + [ext];
      CoversSplit(merged[..n], [last], x);
      CoversSplit(merged[..n], [ext], x);
      CoversCons(last, [], x);
      CoversCons(ext, [], x);
      assert [last] + [] == [last] && [ext] + [] == [ext];
    }
  }

  /**
   * `merge_range`: push, sort by start, coalesce overlaps and adjacencies.
   * Any list keeps the bytes it stands for; a canonical one becomes exactly its union.
   */
  method MergeRange(ranges: seq<Range>, new_: Range) returns (merged: seq<Range>)
    ensures new_.Empty() ==> merged == ranges
    ensures forall x: nat :: Covers(merged, x) <==> Covers(ranges, x) || new_.Has(x)
    ensures AllNonEmpty(ranges) && !new_.Empty() ==> Canonical(merged)
    ensures Canonical(ranges) ==> merged == Union(ranges, new_)
  {
    if new_.Empty() {
      return ranges;
    }
    var sorted := SortByStart(ranges + [new_]);
    merged := [];
    for i := 0 to |sorted|
      invariant Folded(merged, sorted[..i])
    {
      FoldStepFolds(merged, sorted, i);
      merged := FoldStep(merged, sorted[i]);
    }
    assert sorted[..|sorted|] == sorted;
    MergeCovers(ranges, new_, sorted, merged);
    MergeIsUnion(ranges, new_, merged);
  }

  lemma MergeCovers(ranges: seq<Range>, new_: Range, sorted: seq<Range>, merged: seq<Range>)
    requires !new_.Empty() && multiset(sorted) == multiset(ranges + [new_]) && Folded(merged, sorted)
    ensures forall x: nat :: Covers(merged, x) <==> Covers(ranges, x) || new_.Has(x)
    ensures AllNonEmpty(ranges) ==> Canonical(merged)
  {
    forall x: nat
      ensures Covers(merged, x) <==> Covers(ranges, x) || new_.Has(x)
    {
      CoversPermuted(sorted, ranges + [new_], x);
      CoversSplit(ranges, [new_], x);
      CoversCons(new_, [], x);
      assert [new_] + [] == [new_];
    }
    if AllNonEmpty(ranges) {
      forall i | 0 <= i < |sorted|
        ensures !sorted[i].Empty()
      {
        assert sorted[i] in multiset(ranges + [new_]);
      }
    }
  }

  lemma MergeIsUnion(ranges: seq<Range>, new_: Range, merged: seq<Range>)
    requires forall x: nat :: Covers(merged, x) <==> Covers(ranges, x) || new_.Has(x)
    requires AllNonEmpty(ranges) ==> Canonical(merged)
    ensures Canonical(ranges) ==> merged == Union(ranges, new_)
  {
    if Canonical(ranges) {
      forall x: nat
        ensures Covers(merged, x) <==> Covers(Union(ranges, new_), x)
      {
        UnionCovers(ranges, new_, x);
      }
      UnionCanonical(ranges, new_);
      CanonicalUnique(merged, Union(ranges, new_));
    }
  }

  lemma CoversPermuted(a: seq<Range>, b: seq<Range>, x: nat)
    requires multiset(a) == multiset(b)
    ensures Covers(a, x) <==> Covers(b, x)
  {
    if Covers(a, x) {
      var i :| 0 <= i < |a| && a[i].Has(x);
      assert a[i] in multiset(b);
    }
    if Covers(b, x) {
      var i :| 0 <= i < |b| && b[i].Has(x);
      assert b[i] in multiset(a);
    }
  }
}
