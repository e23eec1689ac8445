/**
 * What a request that dies between writing its bytes and recording them can do. A commit with no
 * recorded range is checked on length alone, so a hole can be published; these lemmas say exactly
 * for which sources.
 */
module TornWrites {
  import opened Wrappers
  import opened Bytes
  import opened Ranges
  import opened Session
  import opened SessionProofs
  import opened SessionRuns

  /** Zero-filling the bytes before the last one cannot be seen in this content. */
  predicate HoleInvisible(source: seq<Byte>) {
    forall x :: 0 <= x < |source| - 1 ==> source[x] == 0
  }

  ghost predicate AllInvisible(src: Sources) { forall s :: HoleInvisible(src(s)) }

  /** A temp under torn writes: source bytes and zeros, and its last byte was really written. */
  ghost predicate Holey(data: seq<Byte>, source: seq<Byte>) {
    && |data| <= |source|
    && (forall x :: 0 <= x < |data| ==> data[x] == 0 || data[x] == source[x])
    && (data != [] ==> data[|data| - 1] == source[|data| - 1])
  }

  ghost predicate HoleySlot(st: State, s: Sid, source: seq<Byte>) {
    && NameOk(st, s)
    && (s in st.disk.temps ==> Holey(st.disk.inodes[st.disk.temps[s]], source))
    && (s in st.sinks ==> Holey(st.disk.inodes[st.sinks[s].file], source))
  }

  ghost predicate AllHoley(st: State, src: Sources) {
    forall s :: HoleySlot(st, s, src(s))
  }

  lemma WriteHoley(data: seq<Byte>, source: seq<Byte>, offset: nat, buf: seq<Byte>)
    requires Holey(data, source) && buf != [] && offset + |buf| <= |source| && buf == source[offset..offset + |buf|]
    ensures Holey(WriteAt(data, offset, buf), source)
  {
  }

  lemma RewriteHoley(st: State, st': State, sid: Sid, offset: nat, buf: seq<Byte>, src: Sources)
    requires Inv(st, src) && AllHoley(st, src) && Wired(st') && sid in st.sinks
    requires buf != [] && offset + |buf| <= |src(sid)| && buf == src(sid)[offset..offset + |buf|]
    requires var f := st.sinks[sid].file; st'.disk.inodes == st.disk.inodes[f := WriteAt(st.disk.inodes[f], offset, buf)]
    requires st'.disk.temps == st.disk.temps
    requires forall t :: FewerAt(st, st', t)
    ensures AllHoley(st', src)
  {
    var f := st.sinks[sid].file;
    assert HoleySlot(st, sid, src(sid));
    WriteHoley(st.disk.inodes[f], src(sid), offset, buf);
    forall t
      ensures HoleySlot(st', t, src(t))
    {
      assert HoleySlot(st, t, src(t)) && NameOk(st', t) && FewerAt(st, st', t) && PairOk(st, sid, t);
    }
  }

  /** A session's temp and sink are as before, or gone, or hold a new file. */
  predicate KeptAt(st: State, st': State, t: Sid) {
    && (t in st'.disk.temps ==>
          (t in st.disk.temps && st'.disk.temps[t] == st.disk.temps[t]) || st'.disk.temps[t] == |st.disk.inodes|)
    && (t in st'.sinks ==>
          || (t in st.sinks && st'.sinks[t].file == st.sinks[t].file)
          || (t in st'.disk.temps && st'.sinks[t].file == st'.disk.temps[t]))
  }

  /** Any step that only adds empty files, and drops names and sinks, keeps all temps holey. */
  lemma KeepHoley(st: State, st': State, src: Sources)
    requires AllHoley(st, src) && Wired(st')
    requires st'.disk.inodes == st.disk.inodes || st'.disk.inodes == st.disk.inodes + [[]]
    requires forall t :: KeptAt(st, st', t)
    ensures AllHoley(st', src)
  {
    forall t
      ensures HoleySlot(st', t, src(t))
    {
      assert HoleySlot(st, t, src(t)) && NameOk(st', t) && KeptAt(st, st', t);
    }
  }

  /** The action writes bytes into the temp. */
  predicate Writes(st: State, a: Action) {
    (a.Slice? || a.Torn?) && HasBytes(st, a.sid, a.n)
    && Fits(st.sinks[a.sid].base, st.sinks[a.sid].sent, a.n, st.sinks[a.sid].size)
  }

  lemma WriteStepHoley(st: State, a: Action, src: Sources)
    requires Inv(st, src) && AllHoley(st, src) && Writes(st, a) && Wired(Next(st, a))
    ensures AllHoley(Next(st, a), src)
  {
    var k := st.sinks[a.sid];
    assert SlotOk(st, a.sid, src(a.sid));
    SliceIsSource(k, a.n, src(a.sid));
    WriteFewer(st, a);
    RewriteHoley(st, Next(st, a), a.sid, k.base + k.sent, k.body[k.sent..k.sent + a.n], src);
  }

  lemma WriteFewer(st: State, a: Action)
    requires Writes(st, a)
    ensures forall t :: FewerAt(st, Next(st, a), t)
  {
    forall t
      ensures FewerAt(st, Next(st, a), t)
    {
    }
  }

  lemma OpenStepHoley(st: State, a: Action, src: Sources)
    requires Inv(st, src) && AllHoley(st, src) && a.Open? && Wired(Next(st, a))
    ensures AllHoley(Next(st, a), src)
  {
    forall t
      ensures KeptAt(st, Next(st, a), t)
    {
    }
    KeepHoley(st, Next(st, a), src);
  }

  lemma OtherStepHoley(st: State, a: Action, src: Sources)
    requires Inv(st, src) && AllHoley(st, src) && !a.Open? && !a.Fail? && !Writes(st, a) && Wired(Next(st, a))
    ensures AllHoley(Next(st, a), src)
  {
    var st' := Next(st, a);
    assert st'.disk.inodes == st.disk.inodes;
    forall t
      ensures KeptAt(st, st', t)
    {
    }
    KeepHoley(st, st', src);
  }

  /** A failed write is a torn one and an unlink. */
  lemma FailStepHoley(st: State, a: Action, src: Sources)
    requires Inv(st, src) && AllHoley(st, src) && a.Fail?
    ensures AllHoley(Next(st, a), src)
  {
    if a.sid in st.sinks {
      var first := if HasBytes(st, a.sid, a.n) then Torn(a.sid, a.n) else Drop(a.sid);
      var written := Next(st, first);
      StepInv(st, first, src);
      if Writes(st, first) { WriteStepHoley(st, first, src); } else { OtherStepHoley(st, first, src); }
      StepInv(written, Sweep(a.sid), src);
      OtherStepHoley(written, Sweep(a.sid), src);
    }
  }

  lemma StepHoley(st: State, a: Action, src: Sources)
    requires Inv(st, src) && AllHoley(st, src) && Honest(a, src)
    ensures Inv(Next(st, a), src) && AllHoley(Next(st, a), src)
  {
    StepInv(st, a, src);
    if a.Open? {
      OpenStepHoley(st, a, src);
    } else if Writes(st, a) {
      WriteStepHoley(st, a, src);
    } else if a.Fail? {
      FailStepHoley(st, a, src);
    } else {
      OtherStepHoley(st, a, src);
    }
  }

  lemma {:induction false} AtomicWhenInvisible(st: State, actions: seq<Action>, src: Sources, initial: Option<seq<Byte>>)
    requires Inv(st, src) && AllHoley(st, src) && Published(st, src, initial) && AllHonest(actions, src)
    requires AllInvisible(src)
    ensures Inv(Run(st, actions), src) && AllHoley(Run(st, actions), src) && Published(Run(st, actions), src, initial)
    decreases |actions|
  {
    if actions != [] {
      var a, rest := actions[0], actions[1..];
      if a.Commit? && Passes(st, a.sid) {
        var data := st.disk.inodes[st.sinks[a.sid].file];
        assert SlotOk(st, a.sid, src(a.sid)) && HoleySlot(st, a.sid, src(a.sid)) && HoleInvisible(src(a.sid));
        assert data == src(a.sid);
      }
      StepPublished(st, a, src, initial);
      StepHoley(st, a, src);
      AtomicWhenInvisible(Next(st, a), rest, src, initial);
    }
  }

  /** A disk with an existing (or absent) target, no temps, and stale sidecars. */
  function Fresh(content: Option<seq<Byte>>, sidecars: map<Sid, seq<Range>>): State {
    State(if content.Some? then Disk([content.value], Some(0), map[], sidecars) else Disk([], None, map[], sidecars),
          map[], [])
  }

  /** The run that publishes a hole: only the last byte arrives, unrecorded; then a commit. */
  function HoleRun(sid: Sid, source: seq<Byte>): seq<Action>
    requires |source| > 0
  {
    var n := |source|;
    [Open(sid, Overwrite, n - 1, n, [source[n - 1]]), Torn(sid, 1), Open(sid, Overwrite, n, n, []), Commit(sid)]
  }

  lemma HoleRunPublishes(sid: Sid, src: Sources, content: Option<seq<Byte>>, sidecars: map<Sid, seq<Range>>)
    requires 0 < |src(sid)| <= MAX_FILE
    ensures AllHonest(HoleRun(sid, src(sid)), src)
    ensures var end := Run(Fresh(content, sidecars), HoleRun(sid, src(sid)));
            end.log == [sid] && end.disk.Content() == Some(Zeros(|src(sid)| - 1) + [src(sid)[|src(sid)| - 1]])
  {
    var source, n, st := src(sid), |src(sid)|, Fresh(content, sidecars);
    var last := [source[n - 1]];
    var a, b, c, d := Open(sid, Overwrite, n - 1, n, last), Torn(sid, 1), Open(sid, Overwrite, n, n, []), Commit(sid);
    var s2 := Next(Next(st, a), b);
    LastByteAlone(st, sid, n, last);
    CommitOnLength(s2, sid, n, Zeros(n - 1) + last);
    var run := [a, b, c, d];
    assert run[1..] == [b, c, d] && run[1..][1..] == [c, d];
    assert Run(st, run) == Run(Next(st, a), [b, c, d]) == Run(s2, [c, d]);
  }

  /** Only the last byte arrives, and the request dies before recording it. */
  lemma LastByteAlone(st: State, sid: Sid, n: nat, last: seq<Byte>)
    requires 0 < n <= MAX_FILE && |last| == 1
    requires st.sinks == map[] && st.disk.temps == map[]
    ensures var s2 := Next(Next(st, Open(sid, Overwrite, n - 1, n, last)), Torn(sid, 1));
            && s2.sinks == map[] && s2.log == st.log && s2.disk.Sidecar(sid) == []
            && s2.disk.temps == map[sid := |st.disk.inodes|]
            && s2.disk.inodes == st.disk.inodes + [Zeros(n - 1) + last]
  {
    var ino := |st.disk.inodes|;
    var s1 := Next(st, Open(sid, Overwrite, n - 1, n, last));
    assert s1.sinks == map[sid := Sink(ino, Overwrite, n - 1, n, last, 0, [])];
    assert s1.disk.inodes == st.disk.inodes + [[]];
    assert last[0..1] == last;
    assert WriteAt([], n - 1, last) == Zeros(n - 1) + last;
  }

  /** A temp of the declared length with nothing recorded is published as it is. */
  lemma CommitOnLength(st: State, sid: Sid, n: nat, data: seq<Byte>)
    requires st.sinks == map[] && sid in st.disk.temps && st.disk.temps[sid] < |st.disk.inodes|
    requires st.disk.inodes[st.disk.temps[sid]] == data && |data| == n && st.disk.Sidecar(sid) == []
    ensures var end := Run(st, [Open(sid, Overwrite, n, n, []), Commit(sid)]);
            end.log == st.log + [sid] && end.disk.Content() == Some(data)
  {
    var open, commit := Open(sid, Overwrite, n, n, []), Commit(sid);
    var s3 := Next(st, open);
    assert s3.sinks == map[sid := Sink(st.disk.temps[sid], Overwrite, n, n, [], 0, [])] && s3.disk == st.disk;
    assert Passes(s3, sid);
    var s4 := Next(s3, commit);
    assert s4.log == st.log + [sid] && s4.disk.Content() == Some(data);
    assert [open, commit][1..] == [commit] && [commit][1..] == [];
    assert Run(s3, [commit]) == Run(s4, []) == s4;
  }

  /** No honest run from any fresh disk ever leaves anything but old content or a complete source. */
  ghost predicate AlwaysAtomic(src: Sources) {
    forall content, sidecars, actions ::
      AllHonest(actions, src) ==> Published(Run(Fresh(content, sidecars), actions), src, content)
  }

  /**
   * With writes torn from their records, atomicity over all honest runs holds exactly when every
   * source is zero before its last byte, so that a zero-filled hole is what it holds anyway.
   */
  lemma AtomicExactly(src: Sources)
    requires forall s :: |src(s)| <= MAX_FILE
    ensures AlwaysAtomic(src) <==> AllInvisible(src)
  {
    if AlwaysAtomic(src) {
      forall s
        ensures HoleInvisible(src(s))
      {
        if src(s) != [] {
          HoleRunPublishes(s, src, None, map[]);
          var source, n := src(s), |src(s)|;
          assert Published(Run(Fresh(None, map[]), HoleRun(s, source)), src, None);
          var holed := Zeros(n - 1) + [source[n - 1]];
          assert holed == source;
          forall x | 0 <= x < n - 1
            ensures source[x] == 0
          {
            assert holed[x] == 0;
          }
        }
      }
    }
    if AllInvisible(src) {
      forall content, sidecars, actions | AllHonest(actions, src)
        ensures Published(Run(Fresh(content, sidecars), actions), src, content)
      {
        FreshStart(content, sidecars, src);
        AtomicWhenInvisible(Fresh(content, sidecars), actions, src, content);
      }
    }
  }
}
