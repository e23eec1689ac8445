/**
 * The resumable session upload as a state machine: every request of every session on one
 * target path, interleaved with disconnects, aborts, sweeps, stops and commits
 * (crates/libfw-server/src/storage.rs and handlers.rs).
 *
 * The disk is a table of inodes with names pointing into it, as on POSIX: removing or
 * renaming a name never touches a file that is still open.
 */
module Session {
  import opened Wrappers
  import opened Bytes
  import opened Ranges

  /** One (owner, session, file name): the identity of a shared temp file. */
  type Sid = nat

  /** The content each session uploads. */
  type Sources = Sid -> seq<Byte>

  datatype Mode = Create | Overwrite

  /** Largest file offset the file system accepts. */
  const MAX_FILE: nat := 0x7FFF_FFFF_FFFF_FFFF

  datatype Disk = Disk(
    inodes: seq<seq<Byte>>,
    target: Option<nat>,
    temps: map<Sid, nat>,
    sidecars: map<Sid, seq<Range>>
  ) {
    /** `read_ranges`: a missing sidecar reads as no ranges. */
    function Sidecar(sid: Sid): seq<Range> {
      if sid in sidecars then sidecars[sid] else []
    }

    /** What a reader of the target path sees. */
    function Content(): Option<seq<Byte>> {
      if target.Some? && target.value < |inodes| then Some(inodes[target.value]) else None
    }
  }

  /** An open request: the sink, and the part of the body still to arrive. */
  datatype Sink = Sink(
    file: nat,
    mode: Mode,
    base: nat,
    size: nat,
    body: seq<Byte>,
    sent: nat,
    ranges: seq<Range>
  )

  /** `log` lists the sessions whose commits were published, oldest first. */
  datatype State = State(disk: Disk, sinks: map<Sid, Sink>, log: seq<Sid>)

  // ---------------------------------------------------------------------------
  // Storage operations
  // ---------------------------------------------------------------------------

  /** `write_stream_session`: `None` when Create meets an existing target. */
  function OpenDisk(d: Disk, sid: Sid, mode: Mode): Option<(Disk, nat, seq<Range>)> {
    if sid in d.temps then Some((d, d.temps[sid], d.Sidecar(sid)))
    else if mode.Create? && d.target.Some? then None
    else
      Some((d.(inodes := d.inodes + [[]], temps := d.temps[sid := |d.inodes|], sidecars := d.sidecars - {sid}),
            |d.inodes|, []))
  }

  /** The data half of `FsSink::write_at`. */
  function WriteData(d: Disk, file: nat, offset: nat, data: seq<Byte>): Disk
    requires file < |d.inodes|
  {
    d.(inodes := d.inodes[file := WriteAt(d.inodes[file], offset, data)])
  }

  /** The bookkeeping half: re-read the sidecar, merge, persist. */
  function Record(d: Disk, sid: Sid, offset: nat, data: seq<Byte>): Disk {
    d.(sidecars := d.sidecars[sid := Union(d.Sidecar(sid), Range(offset, offset + |data|))])
  }

  /** `FsSink::abort`, and one step of the stale sweep: unlink the temp and its sidecar. */
  function Unlink(d: Disk, sid: Sid): Disk {
    d.(temps := d.temps - {sid}, sidecars := d.sidecars - {sid})
  }

  /** `FsSink::commit`: true when the temp was renamed over the target. */
  function CommitDisk(d: Disk, sid: Sid, mode: Mode): (Disk, bool) {
    if mode.Create? && d.target.Some? then (Unlink(d, sid), false)
    else if sid !in d.temps then (Unlink(d, sid), false)
    else (Unlink(d, sid).(target := Some(d.temps[sid])), true)
  }

  /** The commit check of `upload_session`: the exact size, and full coverage when ranges are recorded. */
  predicate Accepts(data: seq<Byte>, ranges: seq<Range>, size: nat) {
    |data| == size && (ranges == [] || Total(ranges) == size)
  }

  /** `write_at_batch` lets the next `n` bytes through, and the file system takes them. */
  predicate Fits(base: nat, sent: nat, n: nat, size: nat) {
    var abs := SatAdd(base, sent);
    SatAdd(abs, n) <= size && abs + n <= MAX_FILE
  }

  // ---------------------------------------------------------------------------
  // Steps
  // ---------------------------------------------------------------------------

  datatype Action =
    | Open(sid: Sid, mode: Mode, base: nat, size: nat, body: seq<Byte>)
    | Slice(sid: Sid, n: nat)      // the next n decoded bytes arrive and are written and recorded
    | Torn(sid: Sid, n: nat)       // the bytes are written, then the request dies before recording them
    | Drop(sid: Sid)               // acknowledged, or the client disconnected: the temp is kept
    | Abort(sid: Sid)              // any other failure: the temp is discarded
    | Fail(sid: Sid, n: nat)       // a write fails after n of its bytes, none of them recorded: discarded
    | Commit(sid: Sid)             // the commit check, then the rename
    | CommitStops(sid: Sid)        // the check passes, the sidecar is removed, the rename never happens
    | Sweep(sid: Sid)              // the stale-session sweep; it takes no lock

  function Close(st: State, sid: Sid, d: Disk): State {
    st.(disk := d, sinks := st.sinks - {sid})
  }

  function OpenStep(st: State, a: Action): State
    requires a.Open?
  {
    if a.sid in st.sinks then st  // the per-temp guard is held: the request waits
    else match OpenDisk(st.disk, a.sid, a.mode)
      case None => st
      case Some((d, file, ranges)) =>
        st.(disk := d, sinks := st.sinks[a.sid := Sink(file, a.mode, a.base, a.size, a.body, 0, ranges)])
  }

  /** Whether the request on `sid` has `n` more bytes to deliver. */
  predicate HasBytes(st: State, sid: Sid, n: nat) {
    sid in st.sinks && n > 0 && st.sinks[sid].sent + n <= |st.sinks[sid].body| && st.sinks[sid].file < |st.disk.inodes|
  }

  function SliceStep(st: State, sid: Sid, n: nat): State
    requires HasBytes(st, sid, n)
  {
    var k := st.sinks[sid];
    if !Fits(k.base, k.sent, n, k.size) then Close(st, sid, Unlink(st.disk, sid))
    else
      var abs := SatAdd(k.base, k.sent);
      var data := k.body[k.sent..k.sent + n];
      var d := Record(WriteData(st.disk, k.file, abs, data), sid, abs, data);
      st.(disk := d, sinks := st.sinks[sid := k.(sent := k.sent + n, ranges := d.Sidecar(sid))])
  }

  function TornStep(st: State, sid: Sid, n: nat): State
    requires HasBytes(st, sid, n)
  {
    var k := st.sinks[sid];
    if !Fits(k.base, k.sent, n, k.size) then Close(st, sid, Unlink(st.disk, sid))
    else Close(st, sid, WriteData(st.disk, k.file, SatAdd(k.base, k.sent), k.body[k.sent..k.sent + n]))
  }

  function FailStep(st: State, sid: Sid, n: nat): State
    requires sid in st.sinks
  {
    var written := if HasBytes(st, sid, n) then TornStep(st, sid, n) else Close(st, sid, st.disk);
    written.(disk := Unlink(written.disk, sid))
  }

  /** The open sink's file passes the commit check. */
  predicate Passes(st: State, sid: Sid) {
    && sid in st.sinks && st.sinks[sid].file < |st.disk.inodes|
    && Accepts(st.disk.inodes[st.sinks[sid].file], st.sinks[sid].ranges, st.sinks[sid].size)
  }

  function CommitStep(st: State, sid: Sid): State
    requires sid in st.sinks
  {
    if !Passes(st, sid) then Close(st, sid, Unlink(st.disk, sid))
    else
      var (d, published) := CommitDisk(st.disk, sid, st.sinks[sid].mode);
      var closed := Close(st, sid, d);
      if published then closed.(log := st.log + [sid]) else closed
  }

  /** One step; an action that is not enabled changes nothing. */
  function Next(st: State, a: Action): State {
    match a
    case Open(_, _, _, _, _) => OpenStep(st, a)
    case Slice(sid, n) => if HasBytes(st, sid, n) then SliceStep(st, sid, n) else st
    case Torn(sid, n) => if HasBytes(st, sid, n) then TornStep(st, sid, n) else st
    case Drop(sid) => if sid in st.sinks then Close(st, sid, st.disk) else st
    case Abort(sid) => if sid in st.sinks then Close(st, sid, Unlink(st.disk, sid)) else st
    case Fail(sid, n) => if sid in st.sinks then FailStep(st, sid, n) else st
    case Commit(sid) => if sid in st.sinks then CommitStep(st, sid) else st
    case CommitStops(sid) =>
      if Passes(st, sid) then Close(st, sid, st.disk.(sidecars := st.disk.sidecars - {sid})) else st
    case Sweep(sid) => st.(disk := Unlink(st.disk, sid))
  }

  function Run(st: State, actions: seq<Action>): State
    decreases |actions|
  {
    if actions == [] then st else Run(Next(st, actions[0]), actions[1..])
  }

  lemma {:induction false} RunSplit(st: State, a: seq<Action>, b: seq<Action>)
    ensures Run(st, a + b) == Run(Run(st, a), b)
    decreases |a|
  {
    if a == [] {
      assert a + b == b;
    } else {
      assert (a + b)[1..] == a[1..] + b;
      RunSplit(Next(st, a[0]), a[1..], b);
    }
  }

  // ---------------------------------------------------------------------------
  // What writers promise
  // ---------------------------------------------------------------------------

  /** A body sent at `base` agrees with the source wherever the source has a byte. */
  predicate HonestBody(base: nat, body: seq<Byte>, source: seq<Byte>) {
    forall j :: 0 <= j < |body| && base + j < |source| ==> body[j] == source[base + j]
  }

  /** Every writer of a session declares the source's size and sends the source's own bytes. */
  predicate Honest(a: Action, src: Sources) {
    a.Open? ==> a.size == |src(a.sid)| && HonestBody(a.base, a.body, src(a.sid))
  }

  predicate AllHonest(actions: seq<Action>, src: Sources) {
    forall i :: 0 <= i < |actions| ==> Honest(actions[i], src)
  }

  // ---------------------------------------------------------------------------
  // Invariants
  // ---------------------------------------------------------------------------

  /** Recorded ranges are canonical, inside the file, and backed by source bytes. */
  ghost predicate Backed(data: seq<Byte>, ranges: seq<Range>, source: seq<Byte>) {
    && Canonical(ranges) && Within(ranges, |data|) && |data| <= |source|
    && (forall x: nat :: x < |data| && Covers(ranges, x) ==> data[x] == source[x])
  }

  /** The temp and the open sink of a session hold real files, and not the published one. */
  predicate NameOk(st: State, s: Sid) {
    var d := st.disk;
    && (s in d.temps ==> d.temps[s] < |d.inodes| && d.target != Some(d.temps[s]))
    && (s in st.sinks ==> st.sinks[s].file < |d.inodes| && d.target != Some(st.sinks[s].file))
  }

  /** No two sessions share a file, and a session's sink holds its temp while that has its name. */
  predicate PairOk(st: State, s: Sid, t: Sid) {
    var d := st.disk;
    && (s in d.temps && t in d.temps && s != t ==> d.temps[s] != d.temps[t])
    && (s in st.sinks && t in st.sinks && s != t ==> st.sinks[s].file != st.sinks[t].file)
    && (s in st.sinks && t in d.temps ==> (st.sinks[s].file == d.temps[t] <==> s == t))
  }

  /** Names and open sinks never share a file by accident; nobody holds the published file. */
  ghost predicate Wired(st: State) {
    && (st.disk.target.Some? ==> st.disk.target.value < |st.disk.inodes|)
    && (forall s :: NameOk(st, s))
    && (forall s, t :: PairOk(st, s, t))
  }

  /** The sidecar and the open sink of one session tell the truth. */
  ghost predicate SlotOk(st: State, s: Sid, source: seq<Byte>) {
    var d := st.disk;
    && NameOk(st, s)
    && (s in d.temps ==> Backed(d.inodes[d.temps[s]], d.Sidecar(s), source))
    && (s in st.sinks ==>
          var k := st.sinks[s];
          && Backed(d.inodes[k.file], d.Sidecar(s), source)
          && Backed(d.inodes[k.file], k.ranges, source)
          && (s in d.temps ==> k.ranges == d.Sidecar(s))
          && k.size == |source| && k.sent <= |k.body| && HonestBody(k.base, k.body, source))
  }

  ghost predicate Inv(st: State, src: Sources) {
    Wired(st) && forall s :: SlotOk(st, s, src(s))
  }

  /** With data and record written together, an unrecorded temp is empty or complete. */
  ghost predicate SlotWhole(st: State, s: Sid, source: seq<Byte>) {
    var d := st.disk;
    s in d.temps && d.temps[s] < |d.inodes| && d.Sidecar(s) == [] ==>
      d.inodes[d.temps[s]] == [] || d.inodes[d.temps[s]] == source
  }

  ghost predicate Whole(st: State, src: Sources) {
    forall s :: SlotWhole(st, s, src(s))
  }

  /** The target is the last published source, or what it was before. */
  ghost predicate Published(st: State, src: Sources, initial: Option<seq<Byte>>) {
    st.disk.Content() == if st.log == [] then initial else Some(src(st.log[|st.log| - 1]))
  }

  // ---------------------------------------------------------------------------
  // The commit check
  // ---------------------------------------------------------------------------

  /** With ranges recorded, the check passes exactly when the ranges are [0, size). */
  lemma CommitCheckExact(data: seq<Byte>, ranges: seq<Range>, source: seq<Byte>)
    requires Backed(data, ranges, source) && ranges != []
    ensures Accepts(data, ranges, |source|) <==> ranges == [Range(0, |source|)]
    ensures Accepts(data, ranges, |source|) ==> data == source
  {
    var first := ranges[0];
    assert first.end <= |data|;
    if |data| == |source| {
      CoverageExact(ranges, |source|);
    }
  }

  /** A hole in the middle is always refused, although the temp has the declared size. */
  lemma HoleRefused(data: seq<Byte>, ranges: seq<Range>, source: seq<Byte>, x: nat)
    requires Backed(data, ranges, source) && ranges != []
    requires x < |source| && !Covers(ranges, x)
    ensures !Accepts(data, ranges, |source|)
  {
    CommitCheckExact(data, ranges, source);
    assert ranges == [Range(0, |source|)] ==> ranges[0].Has(x);
  }

  /** A passing check that would publish something other than the source. */
  ghost predicate BadCommit(st: State, sid: Sid, src: Sources) {
    && Passes(st, sid) && sid in st.disk.temps
    && st.disk.inodes[st.sinks[sid].file] != src(sid)
  }

  /**
   * No such commit exists when a range is recorded, when the source is empty, or while every
   * write is recorded before its request can die.
   */
  lemma GoodCommit(st: State, sid: Sid, src: Sources)
    requires Inv(st, src) && Passes(st, sid)
    ensures st.sinks[sid].ranges != [] || st.sinks[sid].size == 0 || Whole(st, src) ==> !BadCommit(st, sid, src)
  {
    var k := st.sinks[sid];
    assert SlotOk(st, sid, src(sid)) && PairOk(st, sid, sid);
    if k.ranges != [] {
      CommitCheckExact(st.disk.inodes[k.file], k.ranges, src(sid));
    } else if Whole(st, src) {
      assert SlotWhole(st, sid, src(sid));
    }
  }
}
