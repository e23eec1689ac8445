/**
 * Which blocks a client still has to send: the chunk grid and the complement of the
 * ranges the server reports (crates/libfw-client/src/plan.rs and upload.rs).
 */
module Plan {
  import opened Bytes
  import opened Ranges

  /** The grid of chunks over [from, size). */
  function Chunks(from: nat, size: nat, chunkSize: nat): seq<Range>
    requires chunkSize > 0
    decreases size - from
  {
    if from >= size then []
    else
      var end := Min(from + chunkSize, size);
      [Range(from, end)] + Chunks(end, size, chunkSize)
  }

  /** `chunk_bounds`: the loop that lays the grid. */
  method ChunkBounds(size: nat, chunkSize: nat, from: nat) returns (bounds: seq<Range>)
    requires chunkSize > 0
    ensures bounds == Chunks(Min(from, size), size, chunkSize)
  {
    bounds := [];
    var offset := Min(from, size);
    while offset < size
      invariant offset <= size
      invariant bounds + Chunks(offset, size, chunkSize) == Chunks(Min(from, size), size, chunkSize)
    {
      var end := Min(offset + chunkSize, size);
      bounds := bounds + [Range(offset, end)];
      offset := end;
    }
  }

  /** Cell k of the grid is [from + k * chunkSize, from + (k + 1) * chunkSize), clipped to the file. */
  lemma {:induction false} ChunkAt(from: nat, size: nat, chunkSize: nat, k: nat)
    requires chunkSize > 0 && k < |Chunks(from, size, chunkSize)|
    ensures var c := Chunks(from, size, chunkSize)[k];
            && c.start == from + k * chunkSize < size
            && c.end == Min(from + (k + 1) * chunkSize, size)
    decreases k
  {
    if k > 0 {
      var end := Min(from + chunkSize, size);
      ChunkAt(end, size, chunkSize, k - 1);
      assert from + chunkSize + (k - 1) * chunkSize == from + k * chunkSize;
      assert from + chunkSize + k * chunkSize == from + (k + 1) * chunkSize;
    }
  }

  /** The cells are non-empty, in order, gap-free, and end at the end of the file. */
  lemma {:induction false} ChunksTile(from: nat, size: nat, chunkSize: nat)
    requires chunkSize > 0 && from <= size
    ensures var cs := Chunks(from, size, chunkSize);
            && Ordered(cs) && Within(cs, size)
            && (cs == [] <==> from == size)
            && (cs != [] ==> cs[0].start == from && cs[|cs| - 1].end == size)
            && (forall i :: 0 <= i < |cs| - 1 ==> cs[i].end == cs[i + 1].start)
    decreases size - from
  {
    if from < size {
      var end := Min(from + chunkSize, size);
      ChunksTile(end, size, chunkSize);
      TileCons(Range(from, end), Chunks(end, size, chunkSize), size);
    }
  }

  lemma TileCons(head: Range, rest: seq<Range>, size: nat)
    requires Ordered(rest) && Within(rest, size) && head.start < head.end <= size
    requires if rest == [] then head.end == size else rest[0].start == head.end && rest[|rest| - 1].end == size
    requires forall i :: 0 <= i < |rest| - 1 ==> rest[i].end == rest[i + 1].start
    ensures var cs := [head] + rest;
            && Ordered(cs) && Within(cs, size) && cs[|cs| - 1].end == size
            && (forall i :: 0 <= i < |cs| - 1 ==> cs[i].end == cs[i + 1].start)
  {
    OrderedCons(head, rest);
    var cs := [head] + rest;
    assert forall i :: 0 < i < |cs| ==> cs[i] == rest[i - 1];
  }

  lemma OrderedCons(h: Range, t: seq<Range>)
    requires Ordered(t) && h.start < h.end && (t != [] ==> h.end <= t[0].start)
    ensures Ordered([h] + t)
  {
    var r := [h] + t;
    forall i, j | 0 <= i < j < |r|
      ensures r[i].end <= r[j].start
    {
      assert r[j] == t[j - 1];
      if i == 0 {
        assert t[0].start <= t[j - 1].start;
      } else {
        assert r[i] == t[i - 1];
      }
    }
  }

  lemma {:induction false} ChunksCover(from: nat, size: nat, chunkSize: nat, x: nat)
    requires chunkSize > 0
    ensures Covers(Chunks(from, size, chunkSize), x) <==> from <= x < size
    decreases size - from
  {
    if from < size {
      var end := Min(from + chunkSize, size);
      ChunksCover(end, size, chunkSize, x);
      CoversCons(Range(from, end), Chunks(end, size, chunkSize), x);
    }
  }

  // ---------------------------------------------------------------------------
  // The missing parts of one chunk
  // ---------------------------------------------------------------------------

  /** The pieces of `m` outside `r`. */
  function Cut(m: Range, r: Range): seq<Range> {
    if r.end <= m.start || r.start >= m.end then [m]
    else
      (if m.start < r.start then [Range(m.start, r.start)] else []) +
      (if r.end < m.end then [Range(r.end, m.end)] else [])
  }

  lemma CutCovers(m: Range, r: Range, x: nat)
    requires !r.Empty()
    ensures Covers(Cut(m, r), x) <==> m.Has(x) && !r.Has(x)
  {
    var a, b := Range(m.start, r.start), Range(r.end, m.end);
    CoversCons(m, [], x);
    CoversCons(a, [], x);
    CoversCons(b, [], x);
    CoversCons(a, [b], x);
    assert [m] + [] == [m] && [a] + [] == [a] && [b] + [] == [b];
    assert [a] + [b] == [a, b];
    assert [] + [b] == [b];
  }

  /** What the inner loop keeps: the pieces of `missing[..j]` outside `r`, all left of `missing[j..]`. */
  ghost predicate CutSoFar(next: seq<Range>, missing: seq<Range>, j: nat, r: Range)
    requires j <= |missing|
  {
    && Canonical(next)
    && (forall x: nat :: Covers(next, x) <==> Covers(missing[..j], x) && !r.Has(x))
    && (next != [] && j < |missing| ==> next[|next| - 1].end < missing[j].start)
  }

  lemma CutStep(next: seq<Range>, missing: seq<Range>, j: nat, r: Range)
    requires j < |missing| && Canonical(missing) && !r.Empty() && CutSoFar(next, missing, j, r)
    ensures CutSoFar(next + Cut(missing[j], r), missing, j + 1, r)
  {
    var m := missing[j];
    forall x: nat
      ensures Covers(next + Cut(m, r), x) <==> Covers(missing[..j + 1], x) && !r.Has(x)
    {
      CoversSlice(missing, j, x);
      CoversSplit(next, Cut(m, r), x);
      CutCovers(m, r, x);
    }
  }

  /** `pieces` is the canonical list of the bytes of `whole` that no received range covers. */
  ghost predicate IsMissing(pieces: seq<Range>, whole: Range, received: seq<Range>) {
    && Canonical(pieces)
    && (forall x: nat :: Covers(pieces, x) <==> whole.Has(x) && !Covers(received, x))
  }

  /**
   * `missing_ranges`: subtract every received range (any order, overlapping, out of bounds) from one
   * chunk. An empty chunk comes back as it is.
   */
  method MissingRanges(start: nat, end: nat, received: seq<Range>) returns (missing: seq<Range>)
    ensures start < end ==>
              && IsMissing(missing, Range(start, end), received)
              && forall other :: IsMissing(other, Range(start, end), received) ==> other == missing
    ensures start >= end ==> missing == [Range(start, end)]
  {
    var whole := Range(start, end);
    missing := [whole];
    forall x: nat ensures Covers(missing, x) <==> whole.Has(x) {
      CoversCons(whole, [], x);
      assert [whole] + [] == [whole];
    }
    for k := 0 to |received|
      invariant if start < end then IsMissing(missing, whole, received[..k]) else missing == [whole]
    {
      forall x: nat ensures Covers(received[..k + 1], x) <==> Covers(received[..k], x) || received[k].Has(x) {
        CoversSlice(received, k, x);
      }
      var rs := Max(received[k].start, start);
      var re := Max(Min(received[k].end, end), rs);
      if re <= rs {
        continue;
      }
      var r := Range(rs, re);
      var next := [];
      for j := 0 to |missing|
        invariant CutSoFar(next, missing, j, r)
      {
        CutStep(next, missing, j, r);
        next := next + Cut(missing[j], r);
      }
      assert missing[..|missing|] == missing;
      missing := next;
    }
    assert received[..|received|] == received;
    forall other | start < end && IsMissing(other, whole, received)
      ensures other == missing
    {
      CanonicalUnique(other, missing);
    }
  }

  // ---------------------------------------------------------------------------
  // The missing parts of the whole file
  // ---------------------------------------------------------------------------

  /** Every piece lies inside one cell of the grid. */
  ghost predicate OnGrid(rs: seq<Range>, cells: seq<Range>) {
    forall i :: 0 <= i < |rs| ==> exists c :: 0 <= c < |cells| && cells[c].start <= rs[i].start && rs[i].end <= cells[c].end
  }

  /** The blocks a client must send: in order, on the grid, exactly the uncovered bytes. */
  ghost predicate Blocks(rs: seq<Range>, size: nat, chunkSize: nat, received: seq<Range>)
    requires chunkSize > 0
  {
    && Ordered(rs) && Within(rs, size)
    && OnGrid(rs, Chunks(0, size, chunkSize))
    && (forall x: nat :: Covers(rs, x) <==> x < size && !Covers(received, x))
  }

  ghost predicate BlocksSoFar(rs: seq<Range>, cells: seq<Range>, k: nat, received: seq<Range>)
    requires k <= |cells|
  {
    && Ordered(rs)
    && OnGrid(rs, cells)
    && (rs != [] ==> k > 0 && rs[|rs| - 1].end <= cells[k - 1].end)
    && (forall x: nat :: Covers(rs, x) <==> Covers(cells[..k], x) && !Covers(received, x))
  }

  lemma BlocksStep(rs: seq<Range>, pieces: seq<Range>, cells: seq<Range>, k: nat, received: seq<Range>)
    requires k < |cells| && Ordered(cells) && BlocksSoFar(rs, cells, k, received)
    requires IsMissing(pieces, cells[k], received)
    ensures BlocksSoFar(rs + pieces, cells, k + 1, received)
  {
    PiecesInside(pieces, cells[k], received);
    forall x: nat
      ensures Covers(rs + pieces, x) <==> Covers(cells[..k + 1], x) && !Covers(received, x)
    {
      CoversSplit(rs, pieces, x);
      CoversSlice(cells, k, x);
    }
    var all := rs + pieces;
    forall i | 0 <= i < |all|
      ensures exists c :: 0 <= c < |cells| && cells[c].start <= all[i].start && all[i].end <= cells[c].end
    {
      if i >= |rs| { assert all[i] == pieces[i - |rs|]; }
    }
    BlocksOrdered(rs, pieces, cells[k].start);
  }

  lemma PiecesInside(pieces: seq<Range>, whole: Range, received: seq<Range>)
    requires IsMissing(pieces, whole, received)
    ensures forall i :: 0 <= i < |pieces| ==> whole.start <= pieces[i].start && pieces[i].end <= whole.end
  {
    forall i | 0 <= i < |pieces|
      ensures whole.start <= pieces[i].start && pieces[i].end <= whole.end
    {
      assert pieces[i].Has(pieces[i].start) && pieces[i].Has(pieces[i].end - 1);
      assert Covers(pieces, pieces[i].start) && Covers(pieces, pieces[i].end - 1);
    }
  }

  lemma BlocksOrdered(a: seq<Range>, b: seq<Range>, at: nat)
    requires Ordered(a) && Ordered(b)
    requires a != [] ==> a[|a| - 1].end <= at
    requires forall i :: 0 <= i < |b| ==> at <= b[i].start
    ensures Ordered(a + b)
  {
    var r := a + b;
    forall i, j | 0 <= i < j < |r|
      ensures r[i].end <= r[j].start
    {
      if i < |a| && j >= |a| {
        assert i < |a| - 1 ==> a[i].end <= a[|a| - 1].start;
        assert r[j] == b[j - |a|];
      } else if i >= |a| {
        assert r[i] == b[i - |a|] && r[j] == b[j - |a|];
      }
    }
  }

  /** `aligned_missing`: the missing parts of every cell of the grid, in file order. */
  method AlignedMissing(size: nat, chunkSize: nat, received: seq<Range>) returns (missing: seq<Range>)
    requires chunkSize > 0
    ensures Blocks(missing, size, chunkSize, received)
  {
    var cells := ChunkBounds(size, chunkSize, 0);
    ChunksTile(0, size, chunkSize);
    forall x: nat ensures Covers(cells, x) <==> x < size {
      ChunksCover(0, size, chunkSize, x);
    }
    missing := [];
    for k := 0 to |cells|
      invariant BlocksSoFar(missing, cells, k, received)
    {
      var pieces := MissingRanges(cells[k].start, cells[k].end, received);
      BlocksStep(missing, pieces, cells, k, received);
      missing := missing + pieces;
    }
    assert cells[..|cells|] == cells;
  }

  // ---------------------------------------------------------------------------
  // Bytes already there, and conservation
  // ---------------------------------------------------------------------------

  /** One reported pair, put the right way round. */
  function Upright(r: Range): Range { Range(Min(r.start, r.end), Max(r.start, r.end)) }

  function Normalized(received: seq<Range>): (rs: seq<Range>)
    ensures AllNonEmpty(rs)
  {
    if received == [] then []
    else
      var r := Upright(received[0]);
      (if r.Empty() then [] else [r]) + Normalized(received[1..])
  }

  lemma {:induction false} NormalizedCovers(received: seq<Range>, x: nat)
    ensures Covers(Normalized(received), x) <==> exists i :: 0 <= i < |received| && Upright(received[i]).Has(x)
  {
    if received != [] {
      var r := Upright(received[0]);
      NormalizedCovers(received[1..], x);
      CoversCons(r, Normalized(received[1..]), x);
      assert [] + Normalized(received[1..]) == Normalized(received[1..]);
      if i :| 0 <= i < |received[1..]| && Upright(received[1..][i]).Has(x) {
        assert Upright(received[i + 1]).Has(x);
      }
      if i :| 0 <= i < |received| && Upright(received[i]).Has(x) {
        assert i > 0 ==> Upright(received[1..][i - 1]).Has(x);
      }
    }
  }

  /** `covered_bytes`: sort, sweep, add up the spans. */
  method CoveredBytes(received: seq<Range>) returns (total: nat)
    ensures forall n: nat :: Within(Normalized(received), n) ==> total == |CoveredSet(Normalized(received), n)|
  {
    var ranges := SortByStart(Normalized(received));
    total := 0;
    var cur: seq<Range> := [];  // `Option<(u64, u64)>`: empty or one open span
    ghost var merged: seq<Range> := [];
    for i := 0 to |ranges|
      invariant Folded(merged, ranges[..i])
      invariant merged == [] ==> cur == [] && total == 0
      invariant merged != [] ==> cur == [merged[|merged| - 1]] && total == Total(merged[..|merged| - 1])
    {
      var r := ranges[i];
      FoldStepFolds(merged, ranges, i);
      ClosedTotalStep(merged, r);
      if cur == [] {
        cur := [r];
      } else if r.start <= cur[0].end {
        cur := [Range(cur[0].start, Max(cur[0].end, r.end))];
      } else {
        total := total + cur[0].Len();
        cur := [r];
      }
      merged := FoldStep(merged, r);
    }
    if cur != [] {
      ClosedTotal(merged);
      total := total + cur[0].Len();
    }
    assert ranges[..|ranges|] == ranges;
    SweepCounts(received, ranges, merged);
  }

  lemma ClosedTotal(merged: seq<Range>)
    requires merged != []
    ensures Total(merged) == Total(merged[..|merged| - 1]) + merged[|merged| - 1].Len()
  {
    TotalSnoc(merged[..|merged| - 1], merged[|merged| - 1]);
    assert merged == merged[..|merged| - 1] + [merged[|merged| - 1]];
  }

  lemma ClosedTotalStep(merged: seq<Range>, r: Range)
    ensures var next := FoldStep(merged, r);
            if merged == [] then next == [r]
            else if r.start <= merged[|merged| - 1].end then
              && |next| == |merged| && next[..|next| - 1] == merged[..|merged| - 1]
              && next[|next| - 1] == Range(merged[|merged| - 1].start, Max(merged[|merged| - 1].end, r.end))
            else
              && next[..|next| - 1] == merged && next[|next| - 1] == r
              && Total(merged) == Total(merged[..|merged| - 1]) + merged[|merged| - 1].Len()
  {
    if merged != [] {
      ClosedTotal(merged);
    }
  }

  lemma {:induction false} TotalSnoc(a: seq<Range>, r: Range)
    ensures Total(a + [r]) == Total(a) + r.Len()
  {
    if a == [] {
      assert [] + [r] == [r];
      assert [r][1..] == [];
    } else {
      assert (a + [r])[1..] == a[1..] + [r];
      TotalSnoc(a[1..], r);
    }
  }

  lemma SweepCounts(received: seq<Range>, ranges: seq<Range>, merged: seq<Range>)
    requires multiset(ranges) == multiset(Normalized(received)) && Folded(merged, ranges)
    ensures forall n: nat :: Within(Normalized(received), n) ==> Total(merged) == |CoveredSet(Normalized(received), n)|
  {
    var norm := Normalized(received);
    forall i | 0 <= i < |ranges|
      ensures !ranges[i].Empty()
    {
      assert ranges[i] in multiset(norm);
    }
    forall x: nat
      ensures Covers(merged, x) <==> Covers(norm, x)
    {
      CoversPermuted(ranges, norm, x);
    }
    forall n: nat | Within(norm, n)
      ensures Total(merged) == |CoveredSet(norm, n)|
    {
      WithinByCover(merged, norm, n);
      TotalCounts(merged, n);
      assert CoveredSet(merged, n) == CoveredSet(norm, n);
    }
  }

  lemma WithinByCover(a: seq<Range>, b: seq<Range>, n: nat)
    requires AllNonEmpty(a) && Within(b, n)
    requires forall x: nat :: Covers(a, x) ==> Covers(b, x)
    ensures Within(a, n)
  {
    forall i | 0 <= i < |a|
      ensures a[i].end <= n
    {
      assert a[i].Has(a[i].end - 1);
      assert Covers(a, a[i].end - 1);
    }
  }

  /**
   * Every byte of the file is either already there or in exactly one block to send: the
   * lengths of the blocks and the result of `covered_bytes` add up to the file size.
   */
  lemma Conservation(blocks: seq<Range>, size: nat, chunkSize: nat, received: seq<Range>)
    requires chunkSize > 0 && Blocks(blocks, size, chunkSize, received) && Within(received, size)
    requires forall i :: 0 <= i < |received| ==> received[i].start <= received[i].end
    ensures Within(Normalized(received), size)
    ensures Total(blocks) + |CoveredSet(Normalized(received), size)| == size
  {
    UprightIsSame(received, size);
    TotalCounts(blocks, size);
    var sent, held := CoveredSet(blocks, size), CoveredSet(Normalized(received), size);
    assert sent + held == Span(0, size);
    assert sent !! held;
    SpanSize(0, size);
  }

  lemma {:induction false} UprightIsSame(received: seq<Range>, size: nat)
    requires forall i :: 0 <= i < |received| ==> received[i].start <= received[i].end
    requires Within(received, size)
    ensures Within(Normalized(received), size)
    ensures forall x: nat :: Covers(Normalized(received), x) <==> Covers(received, x)
  {
    if received != [] {
      UprightIsSame(received[1..], size);
      assert received == [received[0]] + received[1..];
      forall x: nat
        ensures Covers(Normalized(received), x) <==> Covers(received, x)
      {
        assert Upright(received[0]) == received[0];
        CoversCons(received[0], received[1..], x);
        CoversCons(received[0], Normalized(received[1..]), x);
        assert [] + Normalized(received[1..]) == Normalized(received[1..]);
      }
    }
  }
}
