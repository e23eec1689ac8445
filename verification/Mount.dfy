/**
 * The prefix-mapping path codec (crates/libfw-core/src/pathmap.rs) and how the server resolves a
 * client's path with it (crates/libfw-server/src/lib.rs).
 */
module Mount {
  import opened Wrappers

  // ---------------------------------------------------------------------------
  // Canonical paths
  // ---------------------------------------------------------------------------

  /** Relative, with no empty segment: a slash is never first, last, or doubled. */
  predicate Canonical(p: string) {
    forall i :: 0 <= i < |p| && p[i] == '/' ==> 0 < i < |p| - 1 && p[i + 1] != '/'
  }

  /** Position of the first slash, or the length. */
  function Slash(p: string): (k: nat)
    ensures k <= |p| && (k < |p| ==> p[k] == '/')
    ensures forall i :: 0 <= i < k ==> p[i] != '/'
  {
    if p == "" || p[0] == '/' then 0 else 1 + Slash(p[1..])
  }

  /** `split('/')`. */
  function Split(p: string): (segs: seq<string>)
    ensures segs != []
    ensures forall i :: 0 <= i < |segs| ==> '/' !in segs[i]
    decreases |p|
  {
    var k := Slash(p);
    if k == |p| then [p] else [p[..k]] + Split(p[k + 1..])
  }

  predicate Dropped(seg: string) { seg == "" || seg == "." || seg == ".." }

  /** Segments that survive. */
  function Kept(segs: seq<string>): (r: seq<string>)
    ensures (forall i :: 0 <= i < |segs| ==> '/' !in segs[i]) ==> Clean(r)
  {
    if segs == [] then []
    else
      var n := |segs| - 1;
      if Dropped(segs[n]) then Kept(segs[..n]) else Kept(segs[..n]) + [segs[n]]
  }

  function Joined(segs: seq<string>): string {
    if segs == [] then "" else if |segs| == 1 then segs[0] else segs[0] + "/" + Joined(segs[1..])
  }

  /** Non-empty, without slashes. */
  ghost predicate Clean(segs: seq<string>) { forall i :: 0 <= i < |segs| ==> segs[i] != "" && '/' !in segs[i] }

  /** `out.push('/')` unless empty, then the segment. */
  function Pushed(out: string, seg: string): string { if out == "" then seg else out + "/" + seg }

  lemma {:induction false} JoinedSnoc(segs: seq<string>, seg: string)
    requires Clean(segs)
    ensures Joined(segs + [seg]) == Pushed(Joined(segs), seg)
    decreases |segs|
  {
    if |segs| <= 1 {
      if |segs| == 1 {
        assert (segs + [seg])[1..] == [seg] && segs == [segs[0]];
      }
    } else {
      assert (segs + [seg])[1..] == segs[1..] + [seg];
      JoinedSnoc(segs[1..], seg);
      JoinedNonEmpty(segs[1..]);
      var a, b := segs[0] + "/", Joined(segs[1..]);
      assert a + (b + "/" + seg) == a + b + "/" + seg;
    }
  }

  lemma JoinedNonEmpty(segs: seq<string>)
    requires Clean(segs) && segs != []
    ensures Joined(segs) != ""
  {
  }

  lemma SlashAfter(seg: string, rest: string)
    requires '/' !in seg
    ensures Slash(seg + "/" + rest) == |seg|
  {
    var p := seg + "/" + rest;
    assert forall i :: 0 <= i < |seg| ==> p[i] == seg[i] && p[i] in seg;
    assert p[|seg|] == '/';
  }

  lemma NoSlash(seg: string)
    requires '/' !in seg
    ensures Slash(seg) == |seg|
  {
    assert forall i :: 0 <= i < |seg| ==> seg[i] in seg;
  }

  /** Joining clean segments and splitting again gives them back. */
  lemma {:induction false} SplitJoined(segs: seq<string>)
    requires Clean(segs) && segs != []
    ensures Split(Joined(segs)) == segs
  {
    if |segs| == 1 {
      NoSlash(segs[0]);
    } else {
      var rest := Joined(segs[1..]);
      SlashAfter(segs[0], rest);
      SplitJoined(segs[1..]);
      var p := segs[0] + "/" + rest;
      assert p[..|segs[0]|] == segs[0] && p[|segs[0]| + 1..] == rest;
    }
  }

  lemma {:induction false} JoinedCanonical(segs: seq<string>)
    requires Clean(segs)
    ensures Canonical(Joined(segs)) && (segs != [] ==> Joined(segs) != "" && Joined(segs)[0] != '/')
  {
    if segs != [] {
      var head := segs[0];
      assert forall i :: 0 <= i < |head| ==> head[i] in head;
      if |segs| > 1 {
        JoinedCanonical(segs[1..]);
        CanonicalJoin(head, Joined(segs[1..]));
      }
    }
  }

  lemma CanonicalJoin(a: string, b: string)
    requires Canonical(a) && Canonical(b) && a != "" && b != ""
    ensures Canonical(a + "/" + b)
  {
    var p := a + "/" + b;
    forall i | 0 <= i < |p| && p[i] == '/'
      ensures 0 < i < |p| - 1 && p[i + 1] != '/'
    {
      if i < |a| { assert a[i] == '/'; } else if i > |a| { assert b[i - |a| - 1] == '/'; } else { assert p[i + 1] == b[0]; }
    }
  }

  /** What `normalize_prefix` keeps of a path. */
  function Normalized(p: string): string { Joined(Kept(Split(p))) }

  lemma NormalizedCanonical(p: string)
    ensures Canonical(Normalized(p)) && Clean(Kept(Split(p)))
  {
    JoinedCanonical(Kept(Split(p)));
  }

  lemma {:induction false} KeptTwice(segs: seq<string>)
    ensures Kept(Kept(segs)) == Kept(segs)
  {
    if segs != [] {
      var n := |segs| - 1;
      KeptTwice(segs[..n]);
      var kept := Kept(segs[..n]);
      if !Dropped(segs[n]) { assert (kept + [segs[n]])[..|kept|] == kept; }
    }
  }

  /** Normalising is idempotent. */
  lemma NormalizedTwice(p: string)
    ensures Normalized(Normalized(p)) == Normalized(p)
  {
    var kept := Kept(Split(p));
    if kept == [] {
      assert Split("") == [""];
      assert [""][..0] == [];
      assert Kept([""]) == [];
    } else {
      SplitJoined(kept);
      KeptTwice(Split(p));
    }
  }

  // What normalising keeps, segment by segment.

  /** The elements that satisfy `keep`, all of them, in order. */
  function Filter<T>(keep: T -> bool, s: seq<T>): seq<T> {
    if s == [] then [] else (if keep(s[0]) then [s[0]] else []) + Filter(keep, s[1..])
  }

  lemma {:induction false} FilterSnoc<T>(keep: T -> bool, s: seq<T>, x: T)
    ensures Filter(keep, s + [x]) == Filter(keep, s) + if keep(x) then [x] else []
  {
    if s == [] {
      assert [x][1..] == [];
    } else {
      assert (s + [x])[1..] == s[1..] + [x];
      FilterSnoc(keep, s[1..], x);
    }
  }

  lemma {:induction false} KeptFilters(segs: seq<string>)
    ensures Kept(segs) == Filter((seg: string) => seg != "" && seg != "." && seg != "..", segs)
  {
    if segs != [] {
      var n := |segs| - 1;
      KeptFilters(segs[..n]);
      FilterSnoc((seg: string) => seg != "" && seg != "." && seg != "..", segs[..n], segs[n]);
      assert segs[..n] + [segs[n]] == segs;
    }
  }

  /** Splitting loses nothing: the segments between slashes make up the path again. */
  lemma {:induction false} JoinedSplit(p: string)
    ensures Joined(Split(p)) == p
    decreases |p|
  {
    var k := Slash(p);
    if k < |p| {
      var head, rest := p[..k], p[k + 1..];
      JoinedSplit(rest);
      assert ([head] + Split(rest))[1..] == Split(rest);
      assert Joined([head] + Split(rest)) == head + "/" + rest;
      assert p == head + "/" + rest;
    }
  }

  /**
   * Normalising keeps every segment of the path other than "", "." and "..", in order, and no other
   * segment; it gives the root when there is none.
   */
  lemma NormalizedSegments(p: string)
    ensures var kept := Filter((seg: string) => seg != "" && seg != "." && seg != "..", Split(p));
            if kept == [] then Normalized(p) == "" else Split(Normalized(p)) == kept
  {
    KeptFilters(Split(p));
    if Kept(Split(p)) != [] { SplitJoined(Kept(Split(p))); }
  }

  lemma {:induction false} KeptWhole(segs: seq<string>)
    requires "" !in segs && "." !in segs && ".." !in segs
    ensures Kept(segs) == segs
  {
    if segs != [] {
      var n := |segs| - 1;
      assert segs[n] in segs;
      assert forall s :: s in segs[..n] ==> s in segs;
      KeptWhole(segs[..n]);
      assert segs[..n] + [segs[n]] == segs;
    }
  }

  lemma {:induction false} CanonicalSegments(p: string)
    requires Canonical(p) && p != ""
    ensures "" !in Split(p)
    decreases |p|
  {
    var k := Slash(p);
    if k < |p| {
      var rest := p[k + 1..];
      forall i | 0 <= i < |rest| && rest[i] == '/'
        ensures 0 < i < |rest| - 1 && rest[i + 1] != '/'
      {
        assert p[k + 1 + i] == '/';
      }
      CanonicalSegments(rest);
    }
  }

  /** A path is left as it is exactly when it is canonical and has no dot segment. */
  lemma NormalizedSame(p: string)
    ensures Normalized(p) == p <==> Canonical(p) && "." !in Split(p) && ".." !in Split(p)
  {
    NormalizedCanonical(p);
    if Canonical(p) && "." !in Split(p) && ".." !in Split(p) {
      JoinedSplit(p);
      if p == "" { NormalizedTwice(""); assert Split("") == [""] && [""][..0] == []; } else { CanonicalSegments(p); KeptWhole(Split(p)); }
    }
    if Normalized(p) == p {
      NormalizedSegments(p);
      KeptFilters(Split(p));
      NoDots(Split(p));
      if p == "" { assert Split("") == [""]; }
    }
  }

  lemma {:induction false} NoDots(segs: seq<string>)
    ensures "." !in Kept(segs) && ".." !in Kept(segs)
  {
    if segs != [] { NoDots(segs[..|segs| - 1]); }
  }

  /** `normalize_prefix`. */
  method NormalizePrefix(p: string) returns (out: string)
    ensures out == Normalized(p) && Canonical(out)
  {
    out := "";
    var segs := Split(p);
    for i := 0 to |segs|
      invariant out == Joined(Kept(segs[..i]))
    {
      NextSegment(segs, i);
      if Dropped(segs[i]) { continue; }
      if out != "" { out := out + "/"; }
      out := out + segs[i];
    }
    assert segs[..|segs|] == segs;
    NormalizedCanonical(p);
  }

  lemma NextSegment(segs: seq<string>, i: nat)
    requires i < |segs| && forall k :: 0 <= k < |segs| ==> '/' !in segs[k]
    ensures Joined(Kept(segs[..i + 1])) ==
              if Dropped(segs[i]) then Joined(Kept(segs[..i])) else Pushed(Joined(Kept(segs[..i])), segs[i])
  {
    KeptSnoc(segs[..i], segs[i]);
    assert segs[..i] + [segs[i]] == segs[..i + 1];
    JoinedSnoc(Kept(segs[..i]), segs[i]);
  }

  lemma KeptSnoc(segs: seq<string>, seg: string)
    ensures Kept(segs + [seg]) == if Dropped(seg) then Kept(segs) else Kept(segs) + [seg]
  {
    assert (segs + [seg])[..|segs|] == segs;
  }

  // ---------------------------------------------------------------------------
  // The codec
  // ---------------------------------------------------------------------------

  /** `(shadow_prefix, real_prefix)` pairs. */
  type Table = seq<(string, string)>

  /** Does `prefix` match `path` on a segment boundary? */
  predicate SegmentPrefix(path: string, prefix: string) {
    prefix == "" || path == prefix || (prefix < path && path[|prefix|] == '/')
  }

  function JoinPrefix(root: string, rest: string): string {
    if root == "" then rest else if rest == "" then root else root + "/" + rest
  }

  /** `trim_start_matches('/')`. */
  function TrimSlashes(s: string): string { if s != "" && s[0] == '/' then TrimSlashes(s[1..]) else s }

  /** Of the first `n` prefixes, the longest that matches; of several, the last (`max_by_key`). */
  function Best(prefixes: seq<string>, path: string, n: nat): (best: Option<nat>)
    requires n <= |prefixes|
    ensures best.None? <==> forall j :: 0 <= j < n ==> !SegmentPrefix(path, prefixes[j])
    ensures best.Some? ==>
              && best.value < n && SegmentPrefix(path, prefixes[best.value])
              && (forall j :: 0 <= j < n && SegmentPrefix(path, prefixes[j]) ==> |prefixes[j]| <= |prefixes[best.value]|)
              && (forall j :: best.value < j < n && SegmentPrefix(path, prefixes[j]) ==> |prefixes[j]| < |prefixes[best.value]|)
  {
    if n == 0 then None
    else
      var before := Best(prefixes, path, n - 1);
      if !SegmentPrefix(path, prefixes[n - 1]) then before
      else if before.Some? && |prefixes[before.value]| > |prefixes[n - 1]| then before
      else Some(n - 1)
  }

  function Shadows(t: Table): (r: seq<string>)
    ensures |r| == |t| && forall i :: 0 <= i < |t| ==> r[i] == t[i].0
  {
    seq(|t|, i requires 0 <= i < |t| => t[i].0)
  }

  function Reals(t: Table): (r: seq<string>)
    ensures |r| == |t| && forall i :: 0 <= i < |t| ==> r[i] == t[i].1
  {
    seq(|t|, i requires 0 <= i < |t| => t[i].1)
  }

  function EncodeMatch(t: Table, path: string): (m: Option<nat>)
    ensures m.Some? ==> m.value < |t|
  {
    Best(Reals(t), path, |t|)
  }

  function DecodeMatch(t: Table, shadow: string): (m: Option<nat>)
    ensures m.Some? ==> m.value < |t|
  {
    Best(Shadows(t), shadow, |t|)
  }

  /** What follows a matched prefix. */
  function Rest(path: string, prefix: string): string
    requires |prefix| <= |path|
  {
    TrimSlashes(path[|prefix|..])
  }

  function Encode(t: Table, path: string): string {
    var m := EncodeMatch(t, path);
    if m.None? then path else JoinPrefix(t[m.value].0, Rest(path, t[m.value].1))
  }

  /** `None` is the `Unmapped` error. */
  function Decode(t: Table, shadow: string): Option<string> {
    var m := DecodeMatch(t, shadow);
    if m.None? then None else Some(JoinPrefix(t[m.value].1, Rest(shadow, t[m.value].0)))
  }

  ghost predicate NormalTable(t: Table) {
    forall e :: e in t ==> Canonical(e.0) && Canonical(e.1) && !(e.0 == "" && e.1 == "")
  }

  /** One configured pair; root to root is dropped. */
  function EntryOf(e: (string, string)): (t: Table)
    ensures |t| <= 1
  {
    var n := (Normalized(e.0), Normalized(e.1));
    if n == ("", "") then [] else [n]
  }

  /** The configured pairs, in their order. */
  function TableOf(entries: Table): (t: Table)
    ensures NormalTable(t)
  {
    if entries == [] then []
    else
      var n := |entries| - 1;
      NormalizedCanonical(entries[n].0);
      NormalizedCanonical(entries[n].1);
      TableOf(entries[..n]) + EntryOf(entries[n])
  }

  /** One pair becomes one entry, normalised, unless both sides are the root. */
  lemma TableOfOne(shadow: string, target: string)
    ensures var s, r := Normalized(shadow), Normalized(target);
            TableOf([(shadow, target)]) == if s == "" && r == "" then [] else [(s, r)]
  {
    assert [(shadow, target)][..0] == [];
  }

  /** The order of the configuration decides ties, so it is kept. */
  lemma {:induction false} TableOfAppend(a: Table, b: Table)
    ensures TableOf(a + b) == TableOf(a) + TableOf(b)
    decreases |b|
  {
    if b == [] {
      assert a + b == a;
    } else {
      var n := |b| - 1;
      assert (a + b)[..|a + b| - 1] == a + b[..n];
      TableOfAppend(a, b[..n]);
    }
  }

  /** `MountPathCodec::new`: normalised pairs in order; a root-to-root pair is left out. */
  method NewCodec(entries: Table) returns (t: Table)
    ensures t == TableOf(entries) && NormalTable(t)
  {
    t := [];
    for i := 0 to |entries|
      invariant t == TableOf(entries[..i])
    {
      assert entries[..i + 1][..i] == entries[..i];
      var s := NormalizePrefix(entries[i].0);
      var r := NormalizePrefix(entries[i].1);
      if s == "" && r == "" { continue; }
      t := t + [(s, r)];
    }
    assert entries[..|entries|] == entries;
  }

  // ---------------------------------------------------------------------------
  // The round trip
  // ---------------------------------------------------------------------------

  /** A matched prefix and what follows it make up the path again. */
  lemma PrefixAndRest(path: string, prefix: string)
    requires Canonical(path) && SegmentPrefix(path, prefix)
    ensures JoinPrefix(prefix, Rest(path, prefix)) == path && Canonical(Rest(path, prefix))
  {
    var n := |prefix|;
    var tail := path[n..];
    if prefix == "" {
      assert tail == path;
      assert path != "" ==> path[0] != '/';
    } else if path == prefix {
      assert tail == "";
    } else {
      assert path[n] == '/' && path[n + 1] != '/';
      var rest := path[n + 1..];
      assert tail[1..] == rest && rest[0] == path[n + 1];
      assert TrimSlashes(tail) == rest;
      assert path == prefix + "/" + rest;
      forall i | 0 <= i < |rest| && rest[i] == '/'
        ensures 0 < i < |rest| - 1 && rest[i + 1] != '/'
      {
        assert path[n + 1 + i] == '/';
      }
    }
  }

  /** A root is a segment prefix of anything joined to it, and the rest is found behind it. */
  lemma RestOfJoin(root: string, rest: string)
    requires Canonical(rest)
    ensures SegmentPrefix(JoinPrefix(root, rest), root) && Rest(JoinPrefix(root, rest), root) == rest
  {
    var p := JoinPrefix(root, rest);
    assert rest != "" ==> rest[0] != '/';
    if root == "" {
      assert p[0..] == rest;
    } else if rest == "" {
      assert p[|root|..] == "";
    } else {
      assert p[|root|..] == "/" + rest && ("/" + rest)[1..] == rest;
      assert TrimSlashes("/" + rest) == TrimSlashes(rest) == rest;
      assert root < p && p[|root|] == '/';
    }
  }

  /** Two segment prefixes of one path: the shorter is a segment prefix of the longer. */
  lemma PrefixesNest(path: string, a: string, b: string)
    requires SegmentPrefix(path, a) && SegmentPrefix(path, b) && |a| <= |b|
    ensures SegmentPrefix(b, a)
  {
    if |a| == |b| {
      assert a == path[..|a|] == b || a == "";
    } else if a != "" {
      assert a == path[..|a|] == b[..|a|];
      assert b[|a|] == path[|a|];
    }
  }

  /** No shadow prefix is a segment prefix of another entry's. */
  ghost predicate Unnested(t: Table) {
    forall i, j :: 0 <= i < |t| && 0 <= j < |t| && i != j ==> !SegmentPrefix(t[i].0, t[j].0)
  }

  lemma JoinCanonical(root: string, rest: string)
    requires Canonical(root) && Canonical(rest)
    ensures Canonical(JoinPrefix(root, rest))
  {
    if root != "" && rest != "" { CanonicalJoin(root, rest); }
  }

  lemma JoinAssociates(a: string, b: string, c: string)
    ensures JoinPrefix(JoinPrefix(a, b), c) == JoinPrefix(a, JoinPrefix(b, c))
  {
    if a != "" && b != "" && c != "" { assert a + "/" + b + "/" + c == a + "/" + (b + "/" + c); }
  }

  lemma JoinCancels(a: string, b: string, c: string)
    requires JoinPrefix(a, c) == JoinPrefix(b, c)
    ensures a == b
  {
    var p, q := JoinPrefix(a, c), JoinPrefix(b, c);
    if a != "" { assert p[..|a|] == a; }
    if b != "" { assert q[..|b|] == b; }
  }

  /** The shadow that decodes is the one that encoded, or one below it. */
  lemma Nested(t: Table, rest: string, i: nat, j: nat) returns (below: string, more: string)
    requires NormalTable(t) && i < |t| && Canonical(rest)
    requires DecodeMatch(t, JoinPrefix(t[i].0, rest)) == Some(j)
    ensures below == Rest(t[j].0, t[i].0) && more == Rest(JoinPrefix(t[i].0, rest), t[j].0)
    ensures rest == JoinPrefix(below, more)
  {
    var shadow := JoinPrefix(t[i].0, rest);
    assert t[i] in t && t[j] in t;
    assert Shadows(t)[i] == t[i].0 && Shadows(t)[j] == t[j].0;
    RestOfJoin(t[i].0, rest);
    PrefixesNest(shadow, t[i].0, t[j].0);
    below, more := Rest(t[j].0, t[i].0), Rest(shadow, t[j].0);
    PrefixAndRest(t[j].0, t[i].0);
    JoinCanonical(t[i].0, rest);
    PrefixAndRest(shadow, t[j].0);
    JoinAssociates(t[i].0, below, more);
    JoinCanonical(below, more);
    RestOfJoin(t[i].0, JoinPrefix(below, more));
  }

  lemma EncodedDecodes(t: Table, path: string)
    requires EncodeMatch(t, path).Some?
    ensures DecodeMatch(t, Encode(t, path)).Some? <== Canonical(Rest(path, t[EncodeMatch(t, path).value].1))
  {
    var i := EncodeMatch(t, path).value;
    var rest := Rest(path, t[i].1);
    if Canonical(rest) {
      RestOfJoin(t[i].0, rest);
      assert Shadows(t)[i] == t[i].0;
    }
  }

  /**
   * A canonical path under a mapped real prefix always encodes to something that decodes, and to
   * itself exactly when the winning shadow is mounted where the encoding entry would put it.
   */
  lemma RoundTripExactly(t: Table, path: string)
    requires NormalTable(t) && Canonical(path) && EncodeMatch(t, path).Some?
    ensures DecodeMatch(t, Encode(t, path)).Some?
    ensures var i, j := EncodeMatch(t, path).value, DecodeMatch(t, Encode(t, path)).value;
            Decode(t, Encode(t, path)) == Some(path) <==> t[j].1 == JoinPrefix(t[i].1, Rest(t[j].0, t[i].0))
  {
    var i := EncodeMatch(t, path).value;
    var rest := Rest(path, t[i].1);
    assert Reals(t)[i] == t[i].1;
    PrefixAndRest(path, t[i].1);
    EncodedDecodes(t, path);
    var j := DecodeMatch(t, Encode(t, path)).value;
    var below, more := Nested(t, rest, i, j);
    JoinAssociates(t[i].1, below, more);
    if Decode(t, Encode(t, path)) == Some(path) { JoinCancels(t[j].1, JoinPrefix(t[i].1, below), more); }
  }

  lemma BestUnique(prefixes: seq<string>, path: string, b: nat)
    requires b < |prefixes| && SegmentPrefix(path, prefixes[b])
    requires forall j :: 0 <= j < |prefixes| && SegmentPrefix(path, prefixes[j]) ==> |prefixes[j]| <= |prefixes[b]|
    requires forall j :: b < j < |prefixes| && SegmentPrefix(path, prefixes[j]) ==> |prefixes[j]| < |prefixes[b]|
    ensures Best(prefixes, path, |prefixes|) == Some(b)
  {
  }

  lemma SegmentPrefixTransitive(path: string, mid: string, prefix: string)
    requires SegmentPrefix(path, mid) && SegmentPrefix(mid, prefix)
    ensures SegmentPrefix(path, prefix)
  {
    if prefix != "" && mid != "" && prefix != mid {
      assert prefix == mid[..|prefix|] == path[..|prefix|];
      assert mid[|prefix|] == path[|prefix|];
    }
  }

  /** What wins for a path also wins for any segment prefix of the path that it matches. */
  lemma WinsBelow(prefixes: seq<string>, path: string, mid: string, b: nat)
    requires Best(prefixes, path, |prefixes|) == Some(b)
    requires SegmentPrefix(path, mid) && SegmentPrefix(mid, prefixes[b])
    ensures Best(prefixes, mid, |prefixes|) == Some(b)
  {
    forall j | 0 <= j < |prefixes| && SegmentPrefix(mid, prefixes[j])
      ensures SegmentPrefix(path, prefixes[j])
    {
      SegmentPrefixTransitive(path, mid, prefixes[j]);
    }
    BestUnique(prefixes, mid, b);
  }

  /** Where entry `i` puts the shadow prefix of entry `j`. */
  function Image(t: Table, i: nat, j: nat): string
    requires i < |t| && j < |t| && SegmentPrefix(t[j].0, t[i].0)
  {
    JoinPrefix(t[i].1, Rest(t[j].0, t[i].0))
  }

  /** Entry `j` lies at or below entry `i` in the shadow tree, and neither is hidden there by another. */
  predicate Effective(t: Table, i: nat, j: nat) {
    && i < |t| && j < |t| && SegmentPrefix(t[j].0, t[i].0)
    && DecodeMatch(t, t[j].0) == Some(j) && EncodeMatch(t, Image(t, i, j)) == Some(i)
  }

  /** Every nested shadow is mounted where the outer entry would put it. */
  ghost predicate Consistent(t: Table) {
    forall i: nat, j: nat :: Effective(t, i, j) ==> t[j].1 == Image(t, i, j)
  }

  ghost predicate Survives(t: Table, path: string) {
    Canonical(path) && EncodeMatch(t, path).Some? ==> Decode(t, Encode(t, path)) == Some(path)
  }

  /** The entries that encode a path and decode its shadow are effective for each other. */
  lemma WinnersEffective(t: Table, path: string)
    requires NormalTable(t) && Canonical(path) && EncodeMatch(t, path).Some?
    ensures DecodeMatch(t, Encode(t, path)).Some?
    ensures Effective(t, EncodeMatch(t, path).value, DecodeMatch(t, Encode(t, path)).value)
  {
    RoundTripExactly(t, path);
    var shadow := Encode(t, path);
    var i, j := EncodeMatch(t, path).value, DecodeMatch(t, shadow).value;
    assert t[i] in t && t[j] in t;
    assert Reals(t)[i] == t[i].1 && Shadows(t)[i] == t[i].0 && Shadows(t)[j] == t[j].0;
    PrefixAndRest(path, t[i].1);
    var rest := Rest(path, t[i].1);
    RestOfJoin(t[i].0, rest);
    PrefixesNest(shadow, t[i].0, t[j].0);
    WinsBelow(Shadows(t), shadow, t[j].0, j);
    var below, more := Nested(t, rest, i, j);
    PrefixAndRest(t[j].0, t[i].0);
    JoinAssociates(t[i].1, below, more);
    JoinCanonical(t[i].0, rest);
    PrefixAndRest(shadow, t[j].0);
    RestOfJoin(t[i].1, below);
    RestOfJoin(Image(t, i, j), more);
    WinsBelow(Reals(t), path, Image(t, i, j), i);
  }

  /** A shadow prefix is itself the shadow of its image. */
  lemma ImageEncodes(t: Table, i: nat, j: nat)
    requires NormalTable(t) && Effective(t, i, j)
    ensures Canonical(Image(t, i, j)) && Encode(t, Image(t, i, j)) == t[j].0
    ensures Decode(t, t[j].0) == Some(t[j].1)
  {
    assert t[i] in t && t[j] in t;
    var below := Rest(t[j].0, t[i].0);
    PrefixAndRest(t[j].0, t[i].0);
    JoinCanonical(t[i].1, below);
    RestOfJoin(t[i].1, below);
    RestOfJoin(t[j].0, "");
    assert JoinPrefix(t[j].0, "") == t[j].0;
  }

  /**
   * The round trip holds for all canonical paths under mapped real prefixes if and only if the table
   * is consistent.
   */
  lemma RoundTripIffConsistent(t: Table)
    requires NormalTable(t)
    ensures (forall path :: Survives(t, path)) <==> Consistent(t)
  {
    if forall path :: Survives(t, path) {
      forall i: nat, j: nat | Effective(t, i, j)
        ensures t[j].1 == Image(t, i, j)
      {
        ImageEncodes(t, i, j);
        assert Survives(t, Image(t, i, j));
      }
    }
    if Consistent(t) {
      forall path
        ensures Survives(t, path)
      {
        if Canonical(path) && EncodeMatch(t, path).Some? {
          WinnersEffective(t, path);
          RoundTripExactly(t, path);
        }
      }
    }
  }

  /** With no nested shadows, every canonical path under a mapped real prefix survives the round trip. */
  lemma RoundTrip(t: Table, path: string)
    requires NormalTable(t) && Unnested(t)
    requires Canonical(path) && EncodeMatch(t, path).Some?
    ensures Decode(t, Encode(t, path)) == Some(path)
  {
    forall i: nat, j: nat | Effective(t, i, j)
      ensures t[j].1 == Image(t, i, j)
    {
      assert i == j;
      RestOfJoin(t[i].0, "");
      assert JoinPrefix(t[i].0, "") == t[i].0;
    }
    RoundTripIffConsistent(t);
    assert Survives(t, path);
  }

  /** The outer of two nested shadows, `a` and `a/b`, mounted at `x` and `y`. */
  const NESTED_TABLE: Table := [("a", "x"), ("a/b", "y")]

  lemma NestedMatches()
    ensures EncodeMatch(NESTED_TABLE, "x/b") == Some(0) && DecodeMatch(NESTED_TABLE, "a/b") == Some(1)
  {
    assert Reals(NESTED_TABLE)[0] == "x" && Reals(NESTED_TABLE)[1] == "y";
    assert SegmentPrefix("x/b", "x");
    assert "x/b"[0] == 'x' && "y"[0] == 'y';
    assert !SegmentPrefix("x/b", "y");
    assert Shadows(NESTED_TABLE)[1] == "a/b" && SegmentPrefix("a/b", "a/b");
  }

  /** With nested shadows a path below the outer one comes back as the inner one's. */
  lemma NestedShadowsFail()
    ensures NormalTable(NESTED_TABLE) && Encode(NESTED_TABLE, "x/b") == "a/b" && Decode(NESTED_TABLE, "a/b") == Some("y")
  {
    NestedMatches();
    RestOfJoin("x", "b");
    assert JoinPrefix("x", "b") == "x/b" && JoinPrefix("a", "b") == "a/b";
    RestOfJoin("a/b", "");
    assert JoinPrefix("a/b", "") == "a/b" && JoinPrefix("y", "") == "y";
  }

  // ---------------------------------------------------------------------------
  // Hierarchical composition
  // ---------------------------------------------------------------------------

  type Decoder = string -> Option<string>

  function DecoderOf(t: Table): Decoder { (s: string) => Decode(t, s) }

  /** `rfind('/')` in the first `end` characters. */
  function LastSlash(s: string, end: nat): (k: Option<nat>)
    requires end <= |s|
    ensures k.Some? ==> k.value < end && s[k.value] == '/' && forall i :: k.value < i < end ==> s[i] != '/'
    ensures k.None? ==> forall i :: 0 <= i < end ==> s[i] != '/'
  {
    if end == 0 then None else if s[end - 1] == '/' then Some(end - 1) else LastSlash(s, end - 1)
  }

  /** The segment prefix ending at `k` decodes. */
  predicate DecodableAt(decode: Decoder, shadow: string, k: nat) {
    k < |shadow| && shadow[k] == '/' && decode(shadow[..k]).Some?
  }

  /** `decode_compound`: the longest decodable proper segment prefix, and the rest verbatim. */
  method DecodeCompound(decode: Decoder, shadow: string) returns (r: Option<string>, ghost at: nat)
    ensures r.None? <==> forall k: nat :: !DecodableAt(decode, shadow, k)
    ensures r.Some? ==>
              && DecodableAt(decode, shadow, at) && (forall k: nat | k > at :: !DecodableAt(decode, shadow, k))
              && r.value == (if decode(shadow[..at]).value == "" then shadow[at + 1..]
                             else decode(shadow[..at]).value + "/" + shadow[at + 1..])
  {
    var end: nat := |shadow|;
    at := 0;
    while true
      invariant end <= |shadow|
      invariant forall k: nat | k >= end :: !DecodableAt(decode, shadow, k)
      decreases end
    {
      var slash := LastSlash(shadow, end);
      if slash.None? { return None, at; }
      end := slash.value;
      var decoded := decode(shadow[..end]);
      if decoded.Some? {
        var rest := shadow[end + 1..];
        assert DecodableAt(decode, shadow, end);
        return Some(if decoded.value == "" then rest else decoded.value + "/" + rest), end;
      }
    }
  }

  lemma PrefixExtends(shadow: string, k: nat, prefix: string)
    requires k < |shadow| && shadow[k] == '/' && SegmentPrefix(shadow[..k], prefix)
    ensures SegmentPrefix(shadow, prefix)
  {
    var n := |prefix|;
    if prefix != "" {
      assert prefix == shadow[..k][..n] == shadow[..n];
      assert shadow[n] == '/';
    }
  }

  lemma DecodablePrefixDecides(t: Table, shadow: string, k: nat)
    requires k < |shadow| && shadow[k] == '/' && Decode(t, shadow[..k]).Some?
    ensures Decode(t, shadow).Some?
  {
    var j := DecodeMatch(t, shadow[..k]).value;
    assert Shadows(t)[j] == t[j].0;
    PrefixExtends(shadow, k, t[j].0);
  }

  /** A shadow this codec rejects has no segment prefix it accepts. */
  lemma RejectedHasNoDecodablePrefix(t: Table, shadow: string, k: nat)
    requires Decode(t, shadow).None?
    ensures !DecodableAt(DecoderOf(t), shadow, k)
  {
    if k < |shadow| && shadow[k] == '/' && Decode(t, shadow[..k]).Some? {
      DecodablePrefixDecides(t, shadow, k);
    }
  }

  // ---------------------------------------------------------------------------
  // Resolving a client's path
  // ---------------------------------------------------------------------------

  /** No NUL, not absolute, and no segment that climbs. */
  predicate Acceptable(path: string) {
    '\0' !in path && !("/" <= path) && ".." !in Split(path)
  }

  /** `validate_rel_path`. */
  method ValidateRelPath(path: string) returns (r: Option<string>)
    ensures r.None? <==> '\0' in path || (path != "" && path[0] == '/') || ".." in Split(path)
    ensures r.Some? ==> r.value == Normalized(path) && Canonical(r.value)
    ensures r == if Acceptable(path) then Some(Normalized(path)) else None
  {
    if '\0' in path || "/" <= path { return None; }
    var out := "";
    var segs := Split(path);
    for i := 0 to |segs|
      invariant out == Joined(Kept(segs[..i])) && ".." !in segs[..i]
    {
      NextSegment(segs, i);
      if segs[i] == "" || segs[i] == "." { continue; }
      if segs[i] == ".." { return None; }
      if out != "" { out := out + "/"; }
      out := out + segs[i];
    }
    assert segs[..|segs|] == segs;
    NormalizedCanonical(path);
    return Some(out);
  }

  /** What a client's path stands for: the codec's own answer, checked on both sides. */
  function Resolved(t: Table, shadow: string): Option<string> {
    if !Acceptable(shadow) then None
    else
      var s := Normalized(shadow);
      var decoded := if s == "" then Some("") else Decode(t, s);
      if decoded.None? || !Acceptable(decoded.value) then None else Some(Normalized(decoded.value))
  }

  /**
   * `resolve_client_path`, up to authorisation. The composition it tries after the codec rejects a
   * shadow never changes this codec's answer.
   */
  method ResolveClientPath(t: Table, shadow: string) returns (r: Option<string>)
    ensures r == Resolved(t, shadow) && (r.Some? ==> Canonical(r.value))
  {
    var valid := ValidateRelPath(shadow);
    if valid.None? { return None; }
    var decoded := Some(valid.value);
    if valid.value != "" {
      decoded := Decode(t, valid.value);
      if decoded.None? {
        forall k: nat
          ensures !DecodableAt(DecoderOf(t), valid.value, k)
        {
          RejectedHasNoDecodablePrefix(t, valid.value, k);
        }
        ghost var at;
        decoded, at := DecodeCompound(DecoderOf(t), valid.value);
      }
    }
    if decoded.None? { return None; }
    r := ValidateRelPath(decoded.value);
  }

  // ---------------------------------------------------------------------------
  // What the server exposes resolves to what it stands for
  // ---------------------------------------------------------------------------

  /** Nothing in it for normalisation to change. */
  predicate Settled(p: string) { Normalized(p) == p }

  ghost predicate SettledTable(t: Table) { forall e :: e in t ==> Settled(e.0) && Settled(e.1) }

  lemma {:induction false} TableOfSettled(entries: Table)
    ensures SettledTable(TableOf(entries))
  {
    if entries != [] {
      var n := |entries| - 1;
      TableOfSettled(entries[..n]);
      NormalizedTwice(entries[n].0);
      NormalizedTwice(entries[n].1);
    }
  }

  lemma {:induction false} JoinedAppend(a: seq<string>, b: seq<string>)
    requires a != [] && b != []
    ensures Joined(a + b) == Joined(a) + "/" + Joined(b)
    decreases |a|
  {
    if |a| == 1 {
      assert (a + b)[1..] == b;
    } else {
      assert (a + b)[1..] == a[1..] + b;
      JoinedAppend(a[1..], b);
      var x, y, z := a[0] + "/", Joined(a[1..]), "/" + Joined(b);
      assert x + (y + z) == x + y + z;
      assert Joined(a[1..]) + "/" + Joined(b) == y + z;
    }
  }

  /** The segments of two joined paths are those of the one, then those of the other. */
  lemma SplitJoin(a: string, b: string)
    requires Canonical(a) && Canonical(b) && a != "" && b != ""
    ensures Split(JoinPrefix(a, b)) == Split(a) + Split(b)
  {
    CanonicalSegments(a);
    CanonicalSegments(b);
    JoinedSplit(a);
    JoinedSplit(b);
    JoinedAppend(Split(a), Split(b));
    SplitJoined(Split(a) + Split(b));
  }

  /** Joining two canonical paths gives a settled one exactly when both are. */
  lemma JoinSettled(a: string, b: string)
    requires Canonical(a) && Canonical(b)
    ensures Settled(JoinPrefix(a, b)) <==> Settled(a) && Settled(b)
  {
    NormalizedSame(a);
    NormalizedSame(b);
    NormalizedSame("");
    JoinCanonical(a, b);
    NormalizedSame(JoinPrefix(a, b));
    assert Canonical("") && Split("") == [""];
    if a != "" && b != "" { SplitJoin(a, b); }
  }

  lemma SettledAcceptable(p: string)
    requires Settled(p)
    ensures Acceptable(p) <==> '\0' !in p
  {
    NormalizedSame(p);
  }

  /**
   * What the server exposes of a path under a mapped real prefix resolves back to the path, whenever
   * the table is consistent; the root is no shadow, and resolves to the root.
   */
  lemma ExposedResolves(entries: Table, path: string)
    requires Settled(path) && EncodeMatch(TableOf(entries), path).Some? && Consistent(TableOf(entries))
    requires '\0' !in path && '\0' !in Encode(TableOf(entries), path)
    ensures var t := TableOf(entries);
            Resolved(t, Encode(t, path)) == Some(if Encode(t, path) == "" then "" else path)
  {
    var t := TableOf(entries);
    TableOfSettled(entries);
    ExposedSettled(t, path);
    SettledAcceptable(path);
    SettledAcceptable(Encode(t, path));
    RoundTripIffConsistent(t);
    NormalizedSame(path);
    assert Survives(t, path);
    RootSettled();
  }

  lemma RootSettled()
    ensures Settled("") && Acceptable("")
  {
    assert Canonical("") && Split("") == [""];
    NormalizedSame("");
  }

  /** What is exposed of a settled path is settled. */
  lemma ExposedSettled(t: Table, path: string)
    requires NormalTable(t) && SettledTable(t) && Settled(path) && EncodeMatch(t, path).Some?
    ensures Settled(Encode(t, path))
  {
    NormalizedSame(path);
    var i := EncodeMatch(t, path).value;
    assert t[i] in t && Reals(t)[i] == t[i].1;
    var rest := Rest(path, t[i].1);
    PrefixAndRest(path, t[i].1);
    JoinSettled(t[i].1, rest);
    JoinSettled(t[i].0, rest);
  }
}
