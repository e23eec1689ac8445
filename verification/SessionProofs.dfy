/** What every step of the session protocol keeps, and what that means over whole runs. */
module SessionProofs {
  import opened Wrappers
  import opened Bytes
  import opened Ranges
  import opened Session

  // ---------------------------------------------------------------------------
  // One step touches one session
  // ---------------------------------------------------------------------------

  /** Everything belonging to session `t` is as before. */
  ghost predicate SameAt(st: State, st': State, t: Sid) {
    var d, d' := st.disk, st'.disk;
    && d'.Sidecar(t) == d.Sidecar(t)
    && (t in d'.temps <==> t in d.temps)
    && (t in d.temps ==>
          d.temps[t] < |d.inodes| <= |d'.inodes| && d'.temps[t] == d.temps[t] && d'.inodes[d.temps[t]] == d.inodes[d.temps[t]])
    && (t in st'.sinks <==> t in st.sinks)
    && (t in st.sinks ==>
          var f := st.sinks[t].file;
          st'.sinks[t] == st.sinks[t] && f < |d.inodes| <= |d'.inodes| && d'.inodes[f] == d.inodes[f])
  }

  /** Everything belonging to sessions other than `s` is as before. */
  ghost predicate Untouched(st: State, st': State, s: Sid) {
    forall t :: t != s ==> SameAt(st, st', t)
  }

  lemma Frame(st: State, st': State, s: Sid, src: Sources)
    requires Inv(st, src) && Wired(st') && Untouched(st, st', s) && SlotOk(st', s, src(s))
    ensures Inv(st', src)
    ensures Whole(st, src) && SlotWhole(st', s, src(s)) ==> Whole(st', src)
  {
    forall t
      ensures SlotOk(st', t, src(t))
    {
      if t != s { FrameSlot(st, st', t, src(t)); }
    }
    if Whole(st, src) && SlotWhole(st', s, src(s)) {
      forall t
        ensures SlotWhole(st', t, src(t))
      {
        assert SlotWhole(st, t, src(t));
        if t != s { assert SameAt(st, st', t); }
      }
    }
  }

  lemma FrameSlot(st: State, st': State, t: Sid, source: seq<Byte>)
    requires SlotOk(st, t, source) && SameAt(st, st', t) && NameOk(st', t)
    ensures SlotOk(st', t, source)
  {
  }

  /** Writing the source's own bytes turns no source byte into anything else. */
  lemma WriteKeepsSource(data: seq<Byte>, source: seq<Byte>, offset: nat, buf: seq<Byte>, x: nat)
    requires buf != [] && offset + |buf| <= |source| && buf == source[offset..offset + |buf|]
    requires |data| <= |source| && x < |WriteAt(data, offset, buf)|
    requires offset <= x < offset + |buf| || (x < |data| && data[x] == source[x])
    ensures WriteAt(data, offset, buf)[x] == source[x] && |WriteAt(data, offset, buf)| <= |source|
  {
  }

  lemma WriteKeepsBacked(data: seq<Byte>, ranges: seq<Range>, source: seq<Byte>, offset: nat, buf: seq<Byte>)
    requires Backed(data, ranges, source)
    requires buf != [] && offset + |buf| <= |source| && buf == source[offset..offset + |buf|]
    ensures Backed(WriteAt(data, offset, buf), ranges, source)
  {
    var r := WriteAt(data, offset, buf);
    forall x: nat | x < |r| && Covers(ranges, x)
      ensures r[x] == source[x]
    {
      CoveredWithin(ranges, x, |data|);
      WriteKeepsSource(data, source, offset, buf, x);
    }
  }

  lemma CoveredWithin(ranges: seq<Range>, x: nat, n: nat)
    requires Within(ranges, n) && Covers(ranges, x)
    ensures x < n
  {
  }

  lemma UnionBacked(data: seq<Byte>, ranges: seq<Range>, source: seq<Byte>, piece: Range)
    requires Backed(data, ranges, source) && piece.start < piece.end <= |data|
    requires forall x :: piece.start <= x < piece.end ==> data[x] == source[x]
    ensures Backed(data, Union(ranges, piece), source) && Union(ranges, piece) != []
  {
    var u := Union(ranges, piece);
    UnionCanonical(ranges, piece);
    UnionWithin(ranges, piece, |data|);
    forall x: nat | x < |data| && Covers(u, x)
      ensures data[x] == source[x]
    {
      UnionCovers(ranges, piece, x);
    }
    UnionCovers(ranges, piece, piece.start);
    assert Covers(u, piece.start);
  }

  /** Writing honest bytes keeps what was recorded, and backs the new range too. */
  lemma WriteBacked(data: seq<Byte>, ranges: seq<Range>, source: seq<Byte>, offset: nat, buf: seq<Byte>)
    requires Backed(data, ranges, source)
    requires buf != [] && offset + |buf| <= |source| && buf == source[offset..offset + |buf|]
    ensures Backed(WriteAt(data, offset, buf), ranges, source)
    ensures Backed(WriteAt(data, offset, buf), Union(ranges, Range(offset, offset + |buf|)), source)
    ensures Union(ranges, Range(offset, offset + |buf|)) != []
    ensures data == source ==> WriteAt(data, offset, buf) == source
  {
    WriteKeepsBacked(data, ranges, source, offset, buf);
    UnionBacked(WriteAt(data, offset, buf), ranges, source, Range(offset, offset + |buf|));
  }

  /** The bytes a request delivers at its offset are the source's. */
  lemma SliceIsSource(k: Sink, n: nat, source: seq<Byte>)
    requires n > 0 && k.sent + n <= |k.body| && HonestBody(k.base, k.body, source) && k.size == |source|
    requires Fits(k.base, k.sent, n, k.size)
    ensures var abs := k.base + k.sent;
            && SatAdd(k.base, k.sent) == abs && abs + n <= |source|
            && k.body[k.sent..k.sent + n] == source[abs..abs + n]
  {
    var abs := k.base + k.sent;
    var piece := k.body[k.sent..k.sent + n];
    assert SatAdd(k.base, k.sent) == abs;
    forall i | 0 <= i < n
      ensures piece[i] == source[abs..abs + n][i]
    {
      assert k.body[k.sent + i] == source[k.base + (k.sent + i)];
    }
  }

  lemma CanonicalEmpty(data: seq<Byte>, source: seq<Byte>)
    requires |data| <= |source|
    ensures Backed(data, [], source)
  {
  }

  // ---------------------------------------------------------------------------
  // Each action keeps the invariant
  // ---------------------------------------------------------------------------

  /** A session's names and sink may go away, and its sink may change its bookkeeping. */
  predicate FewerAt(st: State, st': State, s: Sid) {
    && (s in st'.disk.temps ==> s in st.disk.temps && st'.disk.temps[s] == st.disk.temps[s])
    && (s in st'.sinks ==> s in st.sinks && st'.sinks[s].file == st.sinks[s].file)
  }

  lemma StillWired(st: State, st': State)
    requires Wired(st) && |st'.disk.inodes| >= |st.disk.inodes| && st'.disk.target == st.disk.target
    requires forall s :: FewerAt(st, st', s)
    ensures Wired(st')
  {
    forall s
      ensures NameOk(st', s)
    {
      assert NameOk(st, s) && FewerAt(st, st', s);
    }
    forall s, t
      ensures PairOk(st', s, t)
    {
      assert PairOk(st, s, t) && FewerAt(st, st', s) && FewerAt(st, st', t);
    }
  }

  lemma OpenFresh(st: State, a: Action, src: Sources)
    requires Inv(st, src) && a.Open? && Honest(a, src)
    requires a.sid !in st.sinks && a.sid !in st.disk.temps && OpenDisk(st.disk, a.sid, a.mode).Some?
    ensures Inv(Next(st, a), src)
    ensures Whole(st, src) ==> Whole(Next(st, a), src)
  {
    var st' := Next(st, a);
    var ino := |st.disk.inodes|;
    assert st'.disk.temps == st.disk.temps[a.sid := ino];
    assert st'.sinks == st.sinks[a.sid := Sink(ino, a.mode, a.base, a.size, a.body, 0, [])];
    OpenWired(st, st', a.sid, st'.sinks[a.sid]);
    CanonicalEmpty([], src(a.sid));
    forall t | t != a.sid
      ensures SameAt(st, st', t)
    {
      assert NameOk(st, t);
    }
    assert NameOk(st', a.sid);
    Frame(st, st', a.sid, src);
  }

  lemma OpenWired(st: State, st': State, sid: Sid, k: Sink)
    requires Wired(st) && k.file == |st.disk.inodes| && sid !in st.sinks
    requires st'.disk.inodes == st.disk.inodes + [[]] && st'.disk.target == st.disk.target
    requires st'.disk.temps == st.disk.temps[sid := k.file] && st'.sinks == st.sinks[sid := k]
    requires sid !in st.disk.temps
    ensures Wired(st')
  {
    forall s
      ensures NameOk(st', s)
    {
      assert NameOk(st, s);
    }
    forall s, t
      ensures PairOk(st', s, t)
    {
      assert NameOk(st, s) && NameOk(st, t) && PairOk(st, s, t);
    }
  }

  lemma OpenAgain(st: State, a: Action, src: Sources)
    requires Inv(st, src) && a.Open? && Honest(a, src)
    requires a.sid !in st.sinks && a.sid in st.disk.temps
    ensures Inv(Next(st, a), src)
    ensures Whole(st, src) ==> Whole(Next(st, a), src)
  {
    var st' := Next(st, a);
    var k := Sink(st.disk.temps[a.sid], a.mode, a.base, a.size, a.body, 0, st.disk.Sidecar(a.sid));
    assert st'.disk == st.disk && st'.sinks == st.sinks[a.sid := k];
    assert SlotOk(st, a.sid, src(a.sid));
    assert Whole(st, src) ==> SlotWhole(st, a.sid, src(a.sid));
    ReopenWired(st, st', a.sid, k);
    forall t | t != a.sid
      ensures SameAt(st, st', t)
    {
      assert NameOk(st, t);
    }
    Frame(st, st', a.sid, src);
  }

  lemma ReopenWired(st: State, st': State, sid: Sid, k: Sink)
    requires Wired(st) && sid in st.disk.temps && k.file == st.disk.temps[sid]
    requires st'.disk == st.disk && st'.sinks == st.sinks[sid := k]
    ensures Wired(st')
  {
    forall s
      ensures NameOk(st', s)
    {
      assert NameOk(st, s);
    }
    forall s, t
      ensures PairOk(st', s, t)
    {
      assert PairOk(st, s, t) && PairOk(st, t, s);
    }
  }

  lemma OpenInv(st: State, a: Action, src: Sources)
    requires Inv(st, src) && a.Open? && Honest(a, src)
    ensures Inv(Next(st, a), src)
    ensures Whole(st, src) ==> Whole(Next(st, a), src)
  {
    if a.sid !in st.sinks {
      if a.sid in st.disk.temps {
        OpenAgain(st, a, src);
      } else if OpenDisk(st.disk, a.sid, a.mode).Some? {
        OpenFresh(st, a, src);
      }
    }
  }

  /** Rewriting the file an open sink holds touches no other session. */
  lemma RewriteUntouched(st: State, st': State, sid: Sid, data: seq<Byte>)
    requires Wired(st) && sid in st.sinks && st.sinks[sid].file < |st.disk.inodes|
    requires st'.disk.inodes == st.disk.inodes[st.sinks[sid].file := data]
    requires st'.disk.temps == st.disk.temps && st'.disk.target == st.disk.target
    requires st'.disk.sidecars - {sid} == st.disk.sidecars - {sid}
    requires st'.sinks == st.sinks - {sid} || (sid in st'.sinks && st'.sinks == st.sinks[sid := st'.sinks[sid]])
    requires sid in st'.sinks ==> st'.sinks[sid].file == st.sinks[sid].file
    ensures Wired(st') && Untouched(st, st', sid)
  {
    forall t
      ensures FewerAt(st, st', t)
    {
    }
    StillWired(st, st');
    forall t | t != sid
      ensures SameAt(st, st', t)
    {
      assert NameOk(st, t) && PairOk(st, sid, t);
      OtherKeys(st.disk.sidecars, st'.disk.sidecars, sid, t);
    }
  }

  lemma OtherKeys(m: map<Sid, seq<Range>>, m': map<Sid, seq<Range>>, sid: Sid, t: Sid)
    requires m' - {sid} == m - {sid} && t != sid
    ensures (t in m' <==> t in m) && (t in m ==> m'[t] == m[t])
  {
    assert t in m' <==> t in m' - {sid};
    assert t in m <==> t in m - {sid};
    if t in m { assert (m' - {sid})[t] == (m - {sid})[t]; }
  }

  lemma SliceInv(st: State, sid: Sid, n: nat, src: Sources)
    requires Inv(st, src) && HasBytes(st, sid, n)
    ensures Inv(SliceStep(st, sid, n), src)
    ensures Whole(st, src) ==> Whole(SliceStep(st, sid, n), src)
  {
    var k := st.sinks[sid];
    if Fits(k.base, k.sent, n, k.size) {
      SliceFitsInv(st, sid, n, src);
    } else {
      UnlinkInv(st, sid, src);
    }
  }

  lemma SliceFitsInv(st: State, sid: Sid, n: nat, src: Sources)
    requires Inv(st, src) && HasBytes(st, sid, n)
    requires var k := st.sinks[sid]; Fits(k.base, k.sent, n, k.size)
    ensures Inv(SliceStep(st, sid, n), src)
    ensures Whole(st, src) ==> Whole(SliceStep(st, sid, n), src)
  {
    var k, st', source := st.sinks[sid], SliceStep(st, sid, n), src(sid);
    assert SlotOk(st, sid, source);
    SliceIsSource(k, n, source);
    var abs := k.base + k.sent;
    var buf := k.body[k.sent..k.sent + n];
    var data, ranges := st.disk.inodes[k.file], st.disk.Sidecar(sid);
    var merged := Union(ranges, Range(abs, abs + |buf|));
    WriteBacked(data, ranges, source, abs, buf);
    assert st'.disk.inodes == st.disk.inodes[k.file := WriteAt(data, abs, buf)];
    assert st'.disk.sidecars == st.disk.sidecars[sid := merged];
    assert st'.sinks == st.sinks[sid := k.(sent := k.sent + n, ranges := merged)];
    RewriteUntouched(st, st', sid, WriteAt(data, abs, buf));
    assert PairOk(st, sid, sid) && NameOk(st', sid);
    assert SlotOk(st', sid, source);
    Frame(st, st', sid, src);
  }

  /** Whole, except perhaps for `s`. */
  ghost predicate WholeBut(st: State, s: Sid, src: Sources) {
    forall t :: t != s ==> SlotWhole(st, t, src(t))
  }

  lemma OthersWhole(st: State, st': State, s: Sid, src: Sources)
    requires Whole(st, src) && Untouched(st, st', s)
    ensures WholeBut(st', s, src)
  {
    forall t | t != s
      ensures SlotWhole(st', t, src(t))
    {
      assert SlotWhole(st, t, src(t)) && SameAt(st, st', t);
    }
  }

  lemma TornInv(st: State, sid: Sid, n: nat, src: Sources)
    requires Inv(st, src) && HasBytes(st, sid, n)
    ensures Inv(TornStep(st, sid, n), src)
    ensures Whole(st, src) ==> WholeBut(TornStep(st, sid, n), sid, src)
  {
    var k, st', source := st.sinks[sid], TornStep(st, sid, n), src(sid);
    assert SlotOk(st, sid, source);
    if Fits(k.base, k.sent, n, k.size) {
      SliceIsSource(k, n, source);
      var abs := k.base + k.sent;
      var buf := k.body[k.sent..k.sent + n];
      var data := st.disk.inodes[k.file];
      WriteBacked(data, st.disk.Sidecar(sid), source, abs, buf);
      RewriteUntouched(st, st', sid, WriteAt(data, abs, buf));
      assert PairOk(st, sid, sid) && NameOk(st', sid);
      assert SlotOk(st', sid, source);
      Frame(st, st', sid, src);
      if Whole(st, src) { OthersWhole(st, st', sid, src); }
    } else {
      UnlinkInv(st, sid, src);
    }
  }

  /** A write that fails part way leaves bytes nobody will find. */
  lemma FailInv(st: State, sid: Sid, n: nat, src: Sources)
    requires Inv(st, src) && sid in st.sinks
    ensures Inv(FailStep(st, sid, n), src)
    ensures Whole(st, src) ==> Whole(FailStep(st, sid, n), src)
  {
    var written := if HasBytes(st, sid, n) then TornStep(st, sid, n) else Close(st, sid, st.disk);
    if HasBytes(st, sid, n) { TornInv(st, sid, n, src); } else { DropInv(st, sid, src); }
    UnlinkInv(written, sid, src);
    if Whole(st, src) {
      forall t
        ensures SlotWhole(FailStep(st, sid, n), t, src(t))
      {
        if t != sid { assert SlotWhole(written, t, src(t)); }
      }
    }
  }

  /** Losing names, records and the sink of one session keeps the invariant, if it does for that session. */
  lemma RemovalInv(st: State, st': State, sid: Sid, src: Sources)
    requires Inv(st, src) && st'.disk.inodes == st.disk.inodes && st'.disk.target == st.disk.target
    requires st'.disk.temps == st.disk.temps || st'.disk.temps == st.disk.temps - {sid}
    requires st'.disk.sidecars == st.disk.sidecars || st'.disk.sidecars == st.disk.sidecars - {sid}
    requires st'.sinks == st.sinks || st'.sinks == st.sinks - {sid}
    requires NameOk(st', sid) ==> SlotOk(st', sid, src(sid))
    ensures Inv(st', src)
    ensures Whole(st, src) && SlotWhole(st', sid, src(sid)) ==> Whole(st', src)
  {
    forall t
      ensures FewerAt(st, st', t)
    {
    }
    StillWired(st, st');
    assert NameOk(st', sid);
    forall t | t != sid
      ensures SameAt(st, st', t)
    {
      assert NameOk(st, t);
    }
    Frame(st, st', sid, src);
  }

  lemma UnlinkInv(st: State, sid: Sid, src: Sources)
    requires Inv(st, src)
    ensures Inv(Close(st, sid, Unlink(st.disk, sid)), src)
    ensures Inv(st.(disk := Unlink(st.disk, sid)), src)
    ensures Whole(st, src) ==> Whole(Close(st, sid, Unlink(st.disk, sid)), src) && Whole(st.(disk := Unlink(st.disk, sid)), src)
  {
    assert SlotOk(st, sid, src(sid));
    if sid in st.sinks {
      CanonicalEmpty(st.disk.inodes[st.sinks[sid].file], src(sid));
    }
    RemovalInv(st, Close(st, sid, Unlink(st.disk, sid)), sid, src);
    RemovalInv(st, st.(disk := Unlink(st.disk, sid)), sid, src);
  }

  lemma DropInv(st: State, sid: Sid, src: Sources)
    requires Inv(st, src)
    ensures Inv(Close(st, sid, st.disk), src)
    ensures Whole(st, src) ==> Whole(Close(st, sid, st.disk), src)
  {
    assert SlotOk(st, sid, src(sid));
    assert Whole(st, src) ==> SlotWhole(st, sid, src(sid));
    RemovalInv(st, Close(st, sid, st.disk), sid, src);
  }

  lemma CommitInv(st: State, sid: Sid, src: Sources)
    requires Inv(st, src) && sid in st.sinks
    ensures Inv(CommitStep(st, sid), src)
    ensures Whole(st, src) ==> Whole(CommitStep(st, sid), src)
  {
    UnlinkInv(st, sid, src);
    var st' := CommitStep(st, sid);
    if st'.log != st.log {
      RenamedWired(st, st', sid);
      forall t | t != sid
        ensures SameAt(st, st', t)
      {
        assert NameOk(st, t);
      }
      assert NameOk(st', sid);
      Frame(st, st', sid, src);
    }
  }

  /** The rename moves the temp's only name: afterwards nobody can write the published file. */
  lemma RenamedWired(st: State, st': State, sid: Sid)
    requires Wired(st) && sid in st.disk.temps && sid in st.sinks
    requires st'.disk.inodes == st.disk.inodes && st'.disk.target == Some(st.disk.temps[sid])
    requires st'.disk.temps == st.disk.temps - {sid} && st'.sinks == st.sinks - {sid}
    ensures Wired(st')
  {
    assert NameOk(st, sid);
    forall s
      ensures NameOk(st', s)
    {
      assert NameOk(st, s) && PairOk(st, s, sid);
    }
    forall s, t
      ensures PairOk(st', s, t)
    {
      assert PairOk(st, s, t);
    }
  }

  lemma CommitStopsInv(st: State, sid: Sid, src: Sources)
    requires Inv(st, src) && Passes(st, sid)
    ensures Inv(Next(st, CommitStops(sid)), src)
    ensures Whole(st, src) ==> Whole(Next(st, CommitStops(sid)), src)
  {
    var st' := Next(st, CommitStops(sid));
    assert SlotOk(st, sid, src(sid)) && PairOk(st, sid, sid);
    CanonicalEmpty(st.disk.inodes[st.sinks[sid].file], src(sid));
    GoodCommit(st, sid, src);
    RemovalInv(st, st', sid, src);
  }

  lemma StepInv(st: State, a: Action, src: Sources)
    requires Inv(st, src) && Honest(a, src)
    ensures Inv(Next(st, a), src)
    ensures Whole(st, src) && !a.Torn? ==> Whole(Next(st, a), src)
  {
    match a
    case Open(_, _, _, _, _) => OpenInv(st, a, src);
    case Slice(sid, n) => if HasBytes(st, sid, n) { SliceInv(st, sid, n, src); }
    case Torn(sid, n) => if HasBytes(st, sid, n) { TornInv(st, sid, n, src); }
    case Drop(sid) => DropInv(st, sid, src);
    case Abort(sid) => UnlinkInv(st, sid, src);
    case Fail(sid, n) => if sid in st.sinks { FailInv(st, sid, n, src); }
    case Commit(sid) => if sid in st.sinks { CommitInv(st, sid, src); }
    case CommitStops(sid) => if Passes(st, sid) { CommitStopsInv(st, sid, src); }
    case Sweep(sid) => UnlinkInv(st, sid, src);
  }

  /** No step but a publishing commit touches what readers of the target see. */
  lemma StepPublished(st: State, a: Action, src: Sources, initial: Option<seq<Byte>>)
    requires Inv(st, src) && Honest(a, src) && Published(st, src, initial)
    requires a.Commit? ==> !BadCommit(st, a.sid, src)
    ensures Published(Next(st, a), src, initial)
  {
    assert NameOk(st, a.sid) && PairOk(st, a.sid, a.sid);
    if a.Commit? && a.sid in st.sinks && Passes(st, a.sid) {
      var st' := CommitStep(st, a.sid);
      if st'.log != st.log {
        assert st'.log == st.log + [a.sid];
      }
    }
  }
}
