/** Safety, exactness and progress of the session protocol over whole runs. */
module SessionRuns {
  import opened Wrappers
  import opened Bytes
  import opened Ranges
  import opened Plan
  import opened Session
  import opened SessionProofs

  // ---------------------------------------------------------------------------
  // Safety
  // ---------------------------------------------------------------------------

  /** Any honest state nobody has published from yet. */
  ghost predicate Start(st: State, src: Sources, initial: Option<seq<Byte>>) {
    Inv(st, src) && Whole(st, src) && st.log == [] && st.disk.Content() == initial
  }

  /** An existing (or absent) target, no temps, and whatever stale sidecars were left behind. */
  lemma FreshStart(content: Option<seq<Byte>>, sidecars: map<Sid, seq<Range>>, src: Sources)
    ensures var disk := if content.Some? then Disk([content.value], Some(0), map[], sidecars)
                        else Disk([], None, map[], sidecars);
            Start(State(disk, map[], []), src, content)
  {
  }

  predicate NoneTorn(actions: seq<Action>) {
    forall i :: 0 <= i < |actions| ==> !actions[i].Torn?
  }

  /**
   * The sidecar never lies: after any honest run, torn writes and stopped commits included,
   * every recorded range is backed by source bytes of its own session.
   */
  lemma {:induction false} SidecarNeverLies(st: State, actions: seq<Action>, src: Sources)
    requires Inv(st, src) && AllHonest(actions, src)
    ensures Inv(Run(st, actions), src)
    ensures Whole(st, src) && NoneTorn(actions) ==> Whole(Run(st, actions), src)
    decreases |actions|
  {
    if actions != [] {
      var a, rest := actions[0], actions[1..];
      StepInv(st, a, src);
      SidecarNeverLies(Next(st, a), rest, src);
    }
  }

  /** Every commit that gets through has a recorded range, or nothing to record. */
  predicate Recorded(st: State, actions: seq<Action>)
    decreases |actions|
  {
    actions == [] ||
    (var a := actions[0];
     && (a.Commit? && Passes(st, a.sid) ==> st.sinks[a.sid].ranges != [] || st.sinks[a.sid].size == 0)
     && Recorded(Next(st, a), actions[1..]))
  }

  /**
   * Atomicity, writes and records torn apart allowed: as long as no commit passes on length
   * alone, the target holds its old content or the complete source of the last published
   * session. It is stated of every run, so of every prefix of a run.
   */
  lemma {:induction false} AtomicWhenRecorded(st: State, actions: seq<Action>, src: Sources, initial: Option<seq<Byte>>)
    requires Inv(st, src) && Published(st, src, initial) && AllHonest(actions, src) && Recorded(st, actions)
    ensures Published(Run(st, actions), src, initial)
    decreases |actions|
  {
    if actions != [] {
      var a, rest := actions[0], actions[1..];
      if a.Commit? && Passes(st, a.sid) {
        GoodCommit(st, a.sid, src);
      }
      StepPublished(st, a, src, initial);
      StepInv(st, a, src);
      AtomicWhenRecorded(Next(st, a), rest, src, initial);
    }
  }

  /** Atomicity when every write is recorded before its request can die: no condition on commits. */
  lemma {:induction false} Atomic(st: State, actions: seq<Action>, src: Sources, initial: Option<seq<Byte>>)
    requires Inv(st, src) && Whole(st, src) && Published(st, src, initial)
    requires AllHonest(actions, src) && NoneTorn(actions)
    ensures Published(Run(st, actions), src, initial)
    decreases |actions|
  {
    if actions != [] {
      var a, rest := actions[0], actions[1..];
      if a.Commit? && Passes(st, a.sid) {
        GoodCommit(st, a.sid, src);
      }
      StepPublished(st, a, src, initial);
      StepInv(st, a, src);
      Atomic(Next(st, a), rest, src, initial);
    }
  }

  // ---------------------------------------------------------------------------
  // Progress: a fully acknowledged round always commits
  // ---------------------------------------------------------------------------

  /** Actions that never discard the temp of `sid`. Other sessions may do anything. */
  predicate Gentle(a: Action, sid: Sid) {
    a.sid != sid || a.Slice? || a.Torn? || a.Drop? || (a.Open? && a.base + |a.body| <= a.size <= MAX_FILE)
  }

  predicate AllGentle(actions: seq<Action>, sid: Sid) {
    forall i :: 0 <= i < |actions| ==> Gentle(actions[i], sid)
  }

  /** The bytes an open request has delivered are recorded. */
  ghost predicate SentRecorded(st: State, sid: Sid) {
    && sid in st.disk.temps
    && (sid in st.sinks ==>
          var k := st.sinks[sid];
          && k.base + |k.body| <= k.size <= MAX_FILE
          && (forall x: nat :: k.base <= x < k.base + k.sent ==> Covers(k.ranges, x)))
  }

  ghost predicate Grown(st: State, st': State, sid: Sid) {
    forall x: nat :: Covers(st.disk.Sidecar(sid), x) ==> Covers(st'.disk.Sidecar(sid), x)
  }

  lemma GentleSlice(st: State, sid: Sid, n: nat, src: Sources)
    requires Inv(st, src) && SentRecorded(st, sid) && HasBytes(st, sid, n)
    ensures SentRecorded(SliceStep(st, sid, n), sid) && Grown(st, SliceStep(st, sid, n), sid)
  {
    var k := st.sinks[sid];
    assert SlotOk(st, sid, src(sid));
    assert Fits(k.base, k.sent, n, k.size);
    var piece := Range(k.base + k.sent, k.base + k.sent + n);
    var st' := SliceStep(st, sid, n);
    assert st'.sinks[sid].ranges == Union(k.ranges, piece);
    forall x: nat
      ensures Covers(Union(k.ranges, piece), x) <==> Covers(k.ranges, x) || piece.Has(x)
    {
      UnionCovers(k.ranges, piece, x);
    }
  }

  lemma GentleTorn(st: State, sid: Sid, n: nat, src: Sources)
    requires Inv(st, src) && SentRecorded(st, sid) && HasBytes(st, sid, n)
    ensures SentRecorded(TornStep(st, sid, n), sid) && Grown(st, TornStep(st, sid, n), sid)
  {
    var k := st.sinks[sid];
    assert SlotOk(st, sid, src(sid));
    assert Fits(k.base, k.sent, n, k.size);
  }

  /** Other sessions leave the records and the temp of `sid` as they are. */
  lemma GentleOther(st: State, a: Action, sid: Sid)
    requires a.sid != sid
    ensures var n := Next(st, a);
            && n.disk.Sidecar(sid) == st.disk.Sidecar(sid) && (sid in n.disk.temps <==> sid in st.disk.temps)
            && (sid in n.sinks <==> sid in st.sinks) && (sid in st.sinks ==> n.sinks[sid] == st.sinks[sid])
  {
    if a.Commit? && a.sid in st.sinks { GentleCommit(st, a.sid, sid); }
  }

  lemma GentleCommit(st: State, other: Sid, sid: Sid)
    requires other != sid && other in st.sinks
    ensures var n := CommitStep(st, other);
            && n.disk.Sidecar(sid) == st.disk.Sidecar(sid) && (sid in n.disk.temps <==> sid in st.disk.temps)
            && (sid in n.sinks <==> sid in st.sinks) && (sid in st.sinks ==> n.sinks[sid] == st.sinks[sid])
  {
  }

  lemma GentleStep(st: State, a: Action, sid: Sid, src: Sources)
    requires Inv(st, src) && Honest(a, src) && Gentle(a, sid) && SentRecorded(st, sid)
    ensures SentRecorded(Next(st, a), sid) && Grown(st, Next(st, a), sid)
  {
    if a.sid != sid {
      GentleOther(st, a, sid);
    } else if a.Slice? && HasBytes(st, sid, a.n) {
      GentleSlice(st, sid, a.n, src);
    } else if a.Torn? && HasBytes(st, sid, a.n) {
      GentleTorn(st, sid, a.n, src);
    }
  }

  lemma {:induction false} GentleRun(st: State, actions: seq<Action>, sid: Sid, src: Sources)
    requires Inv(st, src) && AllHonest(actions, src) && AllGentle(actions, sid) && SentRecorded(st, sid)
    ensures SentRecorded(Run(st, actions), sid) && Grown(st, Run(st, actions), sid)
    decreases |actions|
  {
    if actions != [] {
      var a, rest := actions[0], actions[1..];
      StepInv(st, a, src);
      GentleStep(st, a, sid, src);
      GentleRun(Next(st, a), rest, sid, src);
    }
  }

  /** At step j of the run, the server acknowledges a request that carried the whole of block `r`. */
  ghost predicate AckedAt(st: State, actions: seq<Action>, sid: Sid, r: Range, j: nat) {
    && j < |actions| && actions[j] == Drop(sid)
    && var at := Run(st, actions[..j]);
       && sid in at.sinks
       && at.sinks[sid].base == r.start && at.sinks[sid].base + at.sinks[sid].sent == r.end
  }

  ghost predicate Acked(st: State, actions: seq<Action>, sid: Sid, r: Range) {
    exists j: nat :: AckedAt(st, actions, sid, r, j)
  }

  lemma AckedIsRecorded(st: State, actions: seq<Action>, sid: Sid, src: Sources, r: Range)
    requires Inv(st, src) && AllHonest(actions, src) && AllGentle(actions, sid) && SentRecorded(st, sid)
    requires Acked(st, actions, sid, r)
    ensures forall x: nat :: r.Has(x) ==> Covers(Run(st, actions).disk.Sidecar(sid), x)
  {
    var j: nat :| AckedAt(st, actions, sid, r, j);
    var before, after := actions[..j], actions[j..];
    assert actions == before + after;
    RunSplit(st, before, after);
    GentleRun(st, before, sid, src);
    SidecarNeverLies(st, before, src);
    var at := Run(st, before);
    assert SlotOk(at, sid, src(sid));
    GentleRun(at, after, sid, src);
  }

  /**
   * A round in which every missing block was acknowledged always commits: probe, send exactly the
   * blocks the probe leaves missing, in any order, however sliced, interleaved with anything other
   * sessions do, and the commit publishes the complete source.
   */
  lemma AckedRoundCommits(st: State, actions: seq<Action>, sid: Sid, src: Sources, blocks: seq<Range>, chunkSize: nat)
    requires Inv(st, src) && sid in st.disk.temps && sid !in st.sinks
    requires AllHonest(actions, src) && AllGentle(actions, sid)
    requires chunkSize > 0 && Plan.Blocks(blocks, |src(sid)|, chunkSize, st.disk.Sidecar(sid))
    requires forall i :: 0 <= i < |blocks| ==> Acked(st, actions, sid, blocks[i])
    requires sid !in Run(st, actions).sinks
    ensures var n := |src(sid)|;
            var end := Run(Run(st, actions), [Open(sid, Overwrite, n, n, []), Commit(sid)]);
            && end.log == Run(st, actions).log + [sid]
            && end.disk.Content() == Some(src(sid))
  {
    var n := |src(sid)|;
    var mid := Run(st, actions);
    GentleRun(st, actions, sid, src);
    SidecarNeverLies(st, actions, src);
    var ranges := mid.disk.Sidecar(sid);
    forall x: nat | x < n
      ensures Covers(ranges, x)
    {
      if !Covers(st.disk.Sidecar(sid), x) {
        assert Covers(blocks, x);
        var i :| 0 <= i < |blocks| && blocks[i].Has(x);
        AckedIsRecorded(st, actions, sid, src, blocks[i]);
      }
    }
    FullyRecordedCommits(mid, sid, src);
  }

  /** A commit request on a fully recorded temp passes the check and publishes the source. */
  lemma FullSinkCommits(st: State, sid: Sid, src: Sources)
    requires Inv(st, src) && sid in st.disk.temps && sid in st.sinks && st.sinks[sid].mode == Overwrite
    requires forall x: nat :: x < |src(sid)| ==> Covers(st.sinks[sid].ranges, x)
    ensures var end := Next(st, Commit(sid));
            end.log == st.log + [sid] && end.disk.Content() == Some(src(sid))
  {
    var n, k := |src(sid)|, st.sinks[sid];
    var data := st.disk.inodes[k.file];
    assert SlotOk(st, sid, src(sid)) && PairOk(st, sid, sid);
    if n > 0 {
      assert Covers(k.ranges, n - 1);
      CoveredWithin(k.ranges, n - 1, |data|);
      CoverageExact(k.ranges, n);
      CommitCheckExact(data, k.ranges, src(sid));
    }
    assert Accepts(data, k.ranges, n) && data == src(sid);
    assert Passes(st, sid);
  }

  lemma FullyRecordedCommits(mid: State, sid: Sid, src: Sources)
    requires Inv(mid, src) && sid in mid.disk.temps && sid !in mid.sinks
    requires forall x: nat :: x < |src(sid)| ==> Covers(mid.disk.Sidecar(sid), x)
    ensures var n := |src(sid)|;
            var end := Run(mid, [Open(sid, Overwrite, n, n, []), Commit(sid)]);
            && end.log == mid.log + [sid] && end.disk.Content() == Some(src(sid))
  {
    var n := |src(sid)|;
    var open := Open(sid, Overwrite, n, n, []);
    var begun := Next(mid, open);
    assert begun.disk == mid.disk && begun.sinks[sid] == Sink(mid.disk.temps[sid], Overwrite, n, n, [], 0, mid.disk.Sidecar(sid));
    StepInv(mid, open, src);
    FullSinkCommits(begun, sid, src);
    assert [open, Commit(sid)][1..] == [Commit(sid)] && [Commit(sid)][1..] == [];
    assert Run(begun, [Commit(sid)]) == Next(begun, Commit(sid));
  }
}
