/** What a request leaves in its own temp, whatever all the others do between its steps. */
module SessionContent {
  import opened Wrappers
  import opened Bytes
  import opened Ranges
  import opened Session
  import opened SessionProofs

  // ---------------------------------------------------------------------------
  // One step concerns one session
  // ---------------------------------------------------------------------------

  /** Losing names, records and the sink of one session concerns no other. */
  lemma RemovedOne(st: State, st': State, s: Sid)
    requires Wired(st) && st'.disk.inodes == st.disk.inodes && st'.disk.target == st.disk.target
    requires st'.disk.temps in {st.disk.temps, st.disk.temps - {s}}
    requires st'.disk.sidecars in {st.disk.sidecars, st.disk.sidecars - {s}}
    requires st'.sinks in {st.sinks, st.sinks - {s}}
    ensures Wired(st') && Untouched(st, st', s)
  {
    forall t
      ensures FewerAt(st, st', t)
    {
    }
    StillWired(st, st');
    forall t | t != s
      ensures SameAt(st, st', t)
    {
      assert NameOk(st, t);
    }
  }

  lemma OpenedOne(st: State, a: Action)
    requires Wired(st) && a.Open?
    ensures Wired(Next(st, a)) && Untouched(st, Next(st, a), a.sid)
  {
    var st' := Next(st, a);
    if a.sid !in st.sinks && OpenDisk(st.disk, a.sid, a.mode).Some? {
      if a.sid in st.disk.temps { ReopenWired(st, st', a.sid, st'.sinks[a.sid]); } else { OpenWired(st, st', a.sid, st'.sinks[a.sid]); }
    }
    forall t | t != a.sid
      ensures SameAt(st, st', t)
    {
      assert NameOk(st, t);
    }
  }

  lemma WrittenOne(st: State, sid: Sid, n: nat)
    requires Wired(st) && HasBytes(st, sid, n)
    ensures Wired(SliceStep(st, sid, n)) && Untouched(st, SliceStep(st, sid, n), sid)
    ensures Wired(TornStep(st, sid, n)) && Untouched(st, TornStep(st, sid, n), sid)
  {
    var k := st.sinks[sid];
    if Fits(k.base, k.sent, n, k.size) {
      var data := WriteAt(st.disk.inodes[k.file], SatAdd(k.base, k.sent), k.body[k.sent..k.sent + n]);
      RewriteUntouched(st, SliceStep(st, sid, n), sid, data);
      RewriteUntouched(st, TornStep(st, sid, n), sid, data);
    } else {
      RemovedOne(st, SliceStep(st, sid, n), sid);
    }
  }

  lemma FailedOne(st: State, sid: Sid, n: nat)
    requires Wired(st) && sid in st.sinks
    ensures Wired(FailStep(st, sid, n)) && Untouched(st, FailStep(st, sid, n), sid)
  {
    var written := if HasBytes(st, sid, n) then TornStep(st, sid, n) else Close(st, sid, st.disk);
    if HasBytes(st, sid, n) { WrittenOne(st, sid, n); } else { RemovedOne(st, written, sid); }
    RemovedOne(written, FailStep(st, sid, n), sid);
    forall t | t != sid
      ensures SameAt(st, FailStep(st, sid, n), t)
    {
      assert SameAt(st, written, t) && SameAt(written, FailStep(st, sid, n), t);
    }
  }

  lemma CommittedOne(st: State, sid: Sid)
    requires Wired(st) && sid in st.sinks
    ensures Wired(CommitStep(st, sid)) && Untouched(st, CommitStep(st, sid), sid)
  {
    var st' := CommitStep(st, sid);
    if st'.log == st.log {
      RemovedOne(st, st', sid);
    } else {
      RenamedWired(st, st', sid);
      forall t | t != sid
        ensures SameAt(st, st', t)
      {
        assert NameOk(st, t);
      }
    }
  }

  /** Whatever a step does, names stay in order, and every other session keeps its files, records and sink. */
  lemma StepUntouched(st: State, a: Action)
    requires Wired(st)
    ensures Wired(Next(st, a)) && Untouched(st, Next(st, a), a.sid)
  {
    match a
    case Open(_, _, _, _, _) => OpenedOne(st, a);
    case Slice(sid, n) => if HasBytes(st, sid, n) { WrittenOne(st, sid, n); } else { RemovedOne(st, st, sid); }
    case Torn(sid, n) => if HasBytes(st, sid, n) { WrittenOne(st, sid, n); } else { RemovedOne(st, st, sid); }
    case Fail(sid, n) => if sid in st.sinks { FailedOne(st, sid, n); } else { RemovedOne(st, st, sid); }
    case Commit(sid) => if sid in st.sinks { CommittedOne(st, sid); } else { RemovedOne(st, st, sid); }
    case Drop(sid) => RemovedOne(st, Next(st, a), sid);
    case Abort(sid) => RemovedOne(st, Next(st, a), sid);
    case CommitStops(sid) => RemovedOne(st, Next(st, a), sid);
    case Sweep(sid) => RemovedOne(st, Next(st, a), sid);
  }

  // ---------------------------------------------------------------------------
  // The request's own writes
  // ---------------------------------------------------------------------------

  /** Byte `i` of a file over which `n` bytes of `body` were written at `base`; zeros fill a gap. */
  predicate OverlaidAt(held: seq<Byte>, data: seq<Byte>, base: nat, body: seq<Byte>, n: nat, i: nat)
    requires n <= |body| && i < |held|
  {
    held[i] == if base <= i < base + n then body[i - base] else if i < |data| then data[i] else 0
  }

  predicate Overlaid(held: seq<Byte>, data: seq<Byte>, base: nat, body: seq<Byte>, n: nat) {
    && n <= |body| && |held| == (if n == 0 then |data| else Max(|data|, base + n))
    && forall i :: 0 <= i < |held| ==> OverlaidAt(held, data, base, body, n, i)
  }

  lemma OverlaidIsWrite(held: seq<Byte>, data: seq<Byte>, base: nat, body: seq<Byte>, n: nat)
    requires Overlaid(held, data, base, body, n)
    ensures held == WriteAt(data, base, body[..n])
  {
    var written := WriteAt(data, base, body[..n]);
    forall i | 0 <= i < |held|
      ensures held[i] == written[i]
    {
      assert OverlaidAt(held, data, base, body, n, i);
    }
  }

  /** Two writes in a row are one. */
  lemma WritesJoin(held: seq<Byte>, held': seq<Byte>, data: seq<Byte>, base: nat, body: seq<Byte>, n: nat, m: nat)
    requires Overlaid(held, data, base, body, n) && n + m <= |body| && m > 0
    requires held' == WriteAt(held, base + n, body[n..n + m])
    ensures Overlaid(held', data, base, body, n + m)
  {
    var all := n + m;
    forall i | 0 <= i < |held'|
      ensures OverlaidAt(held', data, base, body, all, i)
    {
      assert i < |held| ==> OverlaidAt(held, data, base, body, n, i);
      if base + n <= i < base + n + m { assert held'[i] == body[n..n + m][i - (base + n)]; }
    }
  }

  /** So are two records. */
  lemma RecordsJoin(ranges: seq<Range>, from: nat, mid: nat, to: nat)
    requires Canonical(ranges) && from <= mid <= to
    ensures Union(Union(ranges, Range(from, mid)), Range(mid, to)) == Union(ranges, Range(from, to))
  {
    var first, second, both := Range(from, mid), Range(mid, to), Range(from, to);
    UnionCanonical(ranges, first);
    UnionCanonical(Union(ranges, first), second);
    UnionCanonical(ranges, both);
    forall x: nat
      ensures Covers(Union(Union(ranges, first), second), x) <==> Covers(Union(ranges, both), x)
    {
      UnionCovers(ranges, first, x);
      UnionCovers(Union(ranges, first), second, x);
      UnionCovers(ranges, both, x);
    }
    CanonicalUnique(Union(Union(ranges, first), second), Union(ranges, both));
  }

  /** The file holds what the request has delivered, written over `data`, and the sink records it. */
  predicate Carries(k: Sink, held: seq<Byte>, data: seq<Byte>, ranges: seq<Range>) {
    && Overlaid(held, data, k.base, k.body, k.sent)
    && k.ranges == Union(ranges, Range(k.base, k.base + k.sent))
  }

  /**
   * The open request's temp: what it held when the request was opened, with what the request has
   * delivered written over it at the request's offset, and recorded.
   */
  ghost predicate Holding(st: State, sid: Sid, file: nat, data: seq<Byte>, ranges: seq<Range>, body: seq<Byte>) {
    && Wired(st)
    && (sid in st.sinks ==>
          var k := st.sinks[sid];
          && k.file == file < |st.disk.inodes| && k.body == body && k.ranges == st.disk.Sidecar(sid)
          && Carries(k, st.disk.inodes[file], data, ranges))
  }

  /** A slice that goes through is written on. */
  lemma SliceOverlaid(st: State, sid: Sid, n: nat, data: seq<Byte>)
    requires HasBytes(st, sid, n)
    requires var k := st.sinks[sid];
             Fits(k.base, k.sent, n, k.size) && Overlaid(st.disk.inodes[k.file], data, k.base, k.body, k.sent)
    ensures var k := st.sinks[sid];
            Overlaid(SliceStep(st, sid, n).disk.inodes[k.file], data, k.base, k.body, k.sent + n)
  {
    var k := st.sinks[sid];
    assert SatAdd(k.base, k.sent) == k.base + k.sent;
    WritesJoin(st.disk.inodes[k.file], SliceStep(st, sid, n).disk.inodes[k.file], data, k.base, k.body, k.sent, n);
  }

  /** And recorded on. */
  lemma SliceRecorded(st: State, sid: Sid, n: nat, ranges: seq<Range>)
    requires HasBytes(st, sid, n) && Canonical(ranges)
    requires var k := st.sinks[sid];
             && Fits(k.base, k.sent, n, k.size) && k.ranges == st.disk.Sidecar(sid)
             && k.ranges == Union(ranges, Range(k.base, k.base + k.sent))
    ensures var k, st' := st.sinks[sid], SliceStep(st, sid, n);
            && st'.sinks == st.sinks[sid := k.(sent := k.sent + n, ranges := st'.disk.Sidecar(sid))]
            && st'.disk.Sidecar(sid) == Union(ranges, Range(k.base, k.base + (k.sent + n)))
  {
    var k := st.sinks[sid];
    assert SatAdd(k.base, k.sent) == k.base + k.sent;
    RecordsJoin(ranges, k.base, k.base + k.sent, k.base + k.sent + n);
  }

  lemma SliceHolding(st: State, sid: Sid, n: nat, file: nat, data: seq<Byte>, ranges: seq<Range>, body: seq<Byte>)
    requires Holding(st, sid, file, data, ranges, body) && HasBytes(st, sid, n) && Canonical(ranges)
    ensures Holding(SliceStep(st, sid, n), sid, file, data, ranges, body)
  {
    WrittenOne(st, sid, n);
    var k := st.sinks[sid];
    if Fits(k.base, k.sent, n, k.size) {
      SliceOverlaid(st, sid, n, data);
      SliceRecorded(st, sid, n, ranges);
    }
  }

  /** The steps of others, and those by which a request goes on or ends. */
  predicate Proceeds(a: Action, sid: Sid) {
    a.sid != sid || a.Slice? || a.Drop? || a.Abort? || a.Fail? || a.Commit? || a.CommitStops?
  }

  predicate AllProceed(actions: seq<Action>, sid: Sid) {
    forall i :: 0 <= i < |actions| ==> Proceeds(actions[i], sid)
  }

  lemma StepHolding(st: State, a: Action, sid: Sid, file: nat, data: seq<Byte>, ranges: seq<Range>, body: seq<Byte>)
    requires Holding(st, sid, file, data, ranges, body) && Proceeds(a, sid) && Canonical(ranges)
    ensures Holding(Next(st, a), sid, file, data, ranges, body)
  {
    StepUntouched(st, a);
    if a.sid != sid {
      assert SameAt(st, Next(st, a), sid);
    } else if a.Slice? && HasBytes(st, sid, a.n) {
      SliceHolding(st, sid, a.n, file, data, ranges, body);
    }
  }

  lemma {:induction false} RunHolding(st: State, actions: seq<Action>, sid: Sid, file: nat, data: seq<Byte>, ranges: seq<Range>, body: seq<Byte>)
    requires Holding(st, sid, file, data, ranges, body) && AllProceed(actions, sid) && Canonical(ranges)
    ensures Holding(Run(st, actions), sid, file, data, ranges, body)
    decreases |actions|
  {
    if actions != [] {
      StepHolding(st, actions[0], sid, file, data, ranges, body);
      RunHolding(Next(st, actions[0]), actions[1..], sid, file, data, ranges, body);
    }
  }

  /** From the moment it is opened. */
  lemma OpenHolding(st: State, open: Action, actions: seq<Action>)
    requires Wired(st) && open.Open? && open.sid !in st.sinks && AllProceed(actions, open.sid)
    requires OpenDisk(st.disk, open.sid, open.mode).Some?
    requires open.sid in st.disk.temps ==> Canonical(st.disk.Sidecar(open.sid))
    ensures var (d, file, ranges) := OpenDisk(st.disk, open.sid, open.mode).value;
            && file < |d.inodes|
            && Holding(Run(st, [open] + actions), open.sid, file, d.inodes[file], ranges, open.body)
  {
    var (d, file, ranges) := OpenDisk(st.disk, open.sid, open.mode).value;
    StepUntouched(st, open);
    assert NameOk(st, open.sid);
    assert ([open] + actions)[1..] == actions;
    RunHolding(Next(st, open), actions, open.sid, file, d.inodes[file], ranges, open.body);
  }
}
