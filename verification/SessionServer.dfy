/**
 * The server's own code for one request: `FsSink` and the handler `upload_session`. Each request
 * is proved to be a run of the session state machine, so the theorems about runs apply to it.
 */
module SessionServer {
  import opened Wrappers
  import opened Bytes
  import opened Ranges
  import opened Session
  import opened SessionProofs
  import opened SessionContent

  datatype ApiError =
    | PayloadTooLarge | ExceedsDeclared | WriteFailed | Undecodable | Truncated | Disconnected
    | AlreadyExists | WrongLength(len: nat) | NotCovered(covered: nat) | CommitFailed

  datatype Response = Status(ranges: seq<Range>) | Created | Failed(error: ApiError)

  /** What one read of the request body yields once decompressed. */
  datatype BodyEvent = Decoded(data: seq<Byte>) | Corrupt | Broken

  /** A step of some other session, or a sweep, which may hit any temp. */
  predicate Foreign(a: Action, sid: Sid) { a.sid != sid || a.Sweep? }

  predicate AllForeign(actions: seq<Action>, sid: Sid) {
    forall i :: 0 <= i < |actions| ==> Foreign(actions[i], sid)
  }

  /** `FsStorage`: the disk, and the registry of per-temp guards; `others` are the other requests in flight. */
  class FsStorage {
    var disk: Disk
    var locked: set<Sid>
    var others: map<Sid, Sink>
    var log: seq<Sid>
    /** No write, sync or rename ever fails. */
    const calm: bool

    /** The machine state, without the request being served. */
    ghost function At(): State
      reads this
    {
      State(disk, others, log)
    }

    /** No request of `sid` is being served, and what is on disk of it is in order. */
    ghost predicate Free(sid: Sid)
      reads this
    {
      && sid !in locked && sid !in others
      && (sid in disk.temps ==> disk.temps[sid] < |disk.inodes| && Canonical(disk.Sidecar(sid)))
    }

    /** While the handler waits, other sessions and the sweep make any number of steps. */
    method Rivals(sid: Sid) returns (ghost actions: seq<Action>)
      requires sid !in others
      modifies this`disk, this`others, this`log
      ensures AllForeign(actions, sid) && Run(old(At()), actions) == At()
    {
      var chosen: seq<Action> := *;
      if !AllForeign(chosen, sid) { chosen := []; }
      var st := Run(State(disk, others, log), chosen);
      disk, others, log := st.disk, st.sinks, st.log;
      actions := chosen;
    }

    /** Open (or create) the shared temp, take its guard, load its ranges. `null` is AlreadyExists. */
    method WriteStreamSession(sid: Sid, mode: Mode) returns (sink: FsSink?)
      requires Free(sid)
      modifies this`disk, this`locked
      ensures sink == null <==> OpenDisk(old(disk), sid, mode).None?
      ensures sink == null ==> disk == old(disk) && locked == old(locked)
      ensures sink != null ==>
                && fresh(sink) && sink.store == this && sink.sid == sid && sink.mode == mode && sink.Valid()
                && locked == old(locked) + {sid} && sid in disk.temps && disk.temps[sid] == sink.file
                && OpenDisk(old(disk), sid, mode) == Some((disk, sink.file, sink.ranges))
                && sink.ranges == disk.Sidecar(sid)
    {
      var file: nat;
      var exists_ := sid in disk.temps;
      if exists_ {
        file := disk.temps[sid];
      } else {
        if mode.Create? && disk.target.Some? {
          return null;
        }
        file := |disk.inodes|;
        disk := disk.(inodes := disk.inodes + [[]], temps := disk.temps[sid := file]);
      }
      locked := locked + {sid};
      if !exists_ {
        disk := disk.(sidecars := disk.sidecars - {sid});
      }
      var ranges := if exists_ then disk.Sidecar(sid) else [];
      sink := new FsSink(this, sid, mode, file, ranges);
    }
  }

  datatype CommitEnd = Published | Exists | Stopped

  /** `FsSink`: the write handle of one request. */
  class FsSink {
    const store: FsStorage
    const sid: Sid
    const mode: Mode
    var file: nat
    var written: nat
    var ranges: seq<Range>

    ghost predicate Valid()
      reads this, store
    {
      sid in store.locked && file < |store.disk.inodes| && Canonical(store.disk.Sidecar(sid))
    }

    constructor (store: FsStorage, sid: Sid, mode: Mode, file: nat, ranges: seq<Range>)
      ensures this.store == store && this.sid == sid && this.mode == mode
      ensures this.file == file && this.written == 0 && this.ranges == ranges
    {
      this.store := store;
      this.sid := sid;
      this.mode := mode;
      this.file := file;
      this.written := 0;
      this.ranges := ranges;
    }

    /**
     * Seek, write, then re-read, merge and persist the sidecar. A failure leaves the first `torn`
     * bytes written and nothing recorded.
     */
    method WriteAt(offset: nat, buf: seq<Byte>) returns (ok: bool, ghost torn: nat)
      requires Valid()
      modifies this, store`disk
      ensures Valid() && file == old(file)
      ensures ok ==> offset + |buf| <= MAX_FILE
      ensures store.calm && offset + |buf| <= MAX_FILE ==> ok
      ensures !ok ==>
                && torn <= |buf| && (torn > 0 ==> offset + torn <= MAX_FILE)
                && store.disk == WriteData(old(store.disk), file, offset, buf[..torn])
                && ranges == old(ranges) && written == old(written)
      ensures ok ==>
                && store.disk == Record(WriteData(old(store.disk), file, offset, buf), sid, offset, buf)
                && ranges == store.disk.Sidecar(sid)
                && written == Max(old(written), SatAdd(offset, |buf|))
    {
      var fails: bool, k: nat := *, *;
      if offset + |buf| > MAX_FILE || (fails && !store.calm) {
        if !(0 <= k <= |buf| && offset + k <= MAX_FILE) { k := 0; }
        store.disk := WriteData(store.disk, file, offset, buf[..k]);
        return false, k;
      }
      store.disk := WriteData(store.disk, file, offset, buf);
      written := Max(written, SatAdd(offset, |buf|));
      var current := store.disk.Sidecar(sid);
      UnionCanonical(current, Range(offset, offset + |buf|));
      current := MergeRange(current, Range(offset, SatAdd(offset, |buf|)));
      store.disk := store.disk.(sidecars := store.disk.sidecars[sid := current]);
      ranges := current;
      ok, torn := true, 0;
    }

    method ReceivedRanges() returns (received: seq<Range>)
      ensures received == ranges
    {
      received := ranges;
    }

    method Len() returns (len: nat)
      requires Valid()
      ensures len == |store.disk.inodes[file]|
    {
      len := |store.disk.inodes[file]|;
    }

    /** Remove the sidecar, then rename the temp over the target; a failing sync or rename keeps the temp. */
    method Commit() returns (end: CommitEnd)
      requires Valid()
      modifies store`disk, store`log, store`locked
      ensures store.locked == old(store.locked) - {sid}
      ensures store.log == if end.Published? then old(store.log) + [sid] else old(store.log)
      ensures !end.Stopped? ==> (store.disk, end.Published?) == CommitDisk(old(store.disk), sid, mode)
      ensures end.Stopped? ==> store.disk == old(store.disk).(sidecars := old(store.disk).sidecars - {sid})
      ensures end.Exists? ==> mode.Create? && old(store.disk).target.Some?
      ensures store.calm && mode.Create? && old(store.disk).target.Some? ==> end.Exists?
      ensures store.calm && end.Stopped? ==> sid !in old(store.disk).temps
    {
      var d := store.disk;
      d := d.(sidecars := d.sidecars - {sid});
      var fails: bool := *;
      if fails && !store.calm {
        end := Stopped;
      } else if mode.Create? && d.target.Some? {
        d := d.(temps := d.temps - {sid});
        end := Exists;
      } else if sid !in d.temps {
        end := Stopped;
      } else {
        d := d.(target := Some(d.temps[sid]), temps := d.temps - {sid});
        store.log := store.log + [sid];
        end := Published;
      }
      store.disk := d;
      store.locked := store.locked - {sid};
    }

    method Abort()
      modifies store`disk, store`locked
      ensures store.disk == Unlink(old(store.disk), sid)
      ensures store.locked == old(store.locked) - {sid}
    {
      store.disk := store.disk.(temps := store.disk.temps - {sid});
      store.disk := store.disk.(sidecars := store.disk.sidecars - {sid});
      store.locked := store.locked - {sid};
    }

    /** Dropping the sink releases the guard and keeps the temp. */
    method Release()
      modifies store`locked
      ensures store.locked == old(store.locked) - {sid}
    {
      store.locked := store.locked - {sid};
    }

    /** This sink, as the machine sees it. */
    ghost function AsSink(base: nat, size: nat, body: seq<Byte>, sent: nat): Sink
      reads this
    {
      Sink(file, mode, base, size, body, sent, ranges)
    }
  }

  /** `write_at_batch`: the size limits, then one positional write. */
  method WriteAtBatch(sink: FsSink, maxUpload: nat, base: nat, size: nat, written: nat, data: seq<Byte>)
    returns (error: Option<ApiError>, written': nat, ghost torn: nat)
    requires sink.Valid() && size <= maxUpload
    modifies sink, sink.store`disk
    ensures sink.Valid() && sink.file == old(sink.file)
    ensures error.None? ==> Fits(base, written, |data|, size)
    ensures sink.store.calm && Fits(base, written, |data|, size) ==> error.None?
    ensures sink.store.calm && size <= MAX_FILE ==> error != Some(WriteFailed)
    ensures error.Some? ==> error.value in {PayloadTooLarge, ExceedsDeclared, WriteFailed} && sink.ranges == old(sink.ranges)
    ensures error.Some? && error.value != WriteFailed ==> sink.store.disk == old(sink.store.disk) && !Fits(base, written, |data|, size)
    ensures error == Some(WriteFailed) ==>
              && torn <= |data| && (torn > 0 ==> Fits(base, written, torn, size))
              && sink.store.disk == WriteData(old(sink.store.disk), sink.file, SatAdd(base, written), data[..torn])
    ensures error.None? ==>
              && SatAdd(base, written) == base + written
              && sink.store.disk == Record(WriteData(old(sink.store.disk), sink.file, base + written, data), sink.sid, base + written, data)
              && sink.ranges == sink.store.disk.Sidecar(sink.sid)
              && written' == written + |data|
  {
    var abs := SatAdd(base, written);
    var end := SatAdd(abs, |data|);
    written', torn := written, 0;
    if end > maxUpload {
      return Some(PayloadTooLarge), written, 0;
    }
    if end > size {
      return Some(ExceedsDeclared), written, 0;
    }
    var ok;
    ok, torn := sink.WriteAt(abs, data);
    if !ok {
      return Some(WriteFailed), written, torn;
    }
    return None, SatAdd(written, |data|), 0;
  }

  // ---------------------------------------------------------------------------
  // The request body
  // ---------------------------------------------------------------------------

  /** The bytes the body decodes to, up to its first failure. */
  function Payload(body: seq<BodyEvent>, tail: Option<seq<Byte>>): seq<Byte> {
    if body == [] then (if tail.Some? then tail.value else [])
    else if body[0].Decoded? then body[0].data + Payload(body[1..], tail)
    else []
  }

  /** The prefix of the payload delivered by the first `i` reads. */
  lemma {:induction false} PayloadPrefix(body: seq<BodyEvent>, tail: Option<seq<Byte>>, i: nat)
    requires i <= |body| && forall j :: 0 <= j < i ==> body[j].Decoded?
    ensures var head := Payload(body[..i], None);
            && Payload(body, tail) == head + Payload(body[i..], tail)
            && (i < |body| && body[i].Decoded? ==> Payload(body[..i + 1], None) == head + body[i].data)
    decreases i
  {
    if i == 0 {
      assert body[0..] == body;
      if body != [] { assert body[..1][1..] == []; }
    } else {
      PayloadPrefix(body[1..], tail, i - 1);
      assert body[..i][1..] == body[1..][..i - 1];
      assert body[1..][i - 1..] == body[i..];
      if i < |body| {
        assert body[..i + 1][1..] == body[1..][..i];
      }
    }
  }

  /** What the reads of a body come to: the first that fails says how, and the end must add something. */
  function Verdict(body: seq<BodyEvent>, tail: Option<seq<Byte>>): Option<ApiError> {
    if body == [] then (if tail.None? then Some(Truncated) else None)
    else match body[0]
      case Decoded(_) => Verdict(body[1..], tail)
      case Corrupt => Some(Undecodable)
      case Broken => Some(Disconnected)
  }

  /** Where the body fails, if it does: everything before decodes, and nothing from there on is delivered. */
  lemma {:induction false} VerdictAt(body: seq<BodyEvent>, tail: Option<seq<Byte>>, i: nat)
    requires i <= |body| && forall j :: 0 <= j < i ==> body[j].Decoded?
    ensures i == |body| ==> Verdict(body, tail) == if tail.None? then Some(Truncated) else None
    ensures i < |body| && body[i].Corrupt? ==> Verdict(body, tail) == Some(Undecodable)
    ensures i < |body| && body[i].Broken? ==> Verdict(body, tail) == Some(Disconnected)
    ensures i < |body| && !body[i].Decoded? ==> Payload(body, tail) == Payload(body[..i], None)
    decreases i
  {
    if i > 0 {
      VerdictAt(body[1..], tail, i - 1);
      assert body[..i][1..] == body[1..][..i - 1];
    }
  }

  /** Number `i` is the first event that does not decode. */
  predicate FirstBad(body: seq<BodyEvent>, i: nat) {
    i < |body| && !body[i].Decoded? && forall j :: 0 <= j < i ==> body[j].Decoded?
  }

  lemma {:induction false} FindFirstBad(body: seq<BodyEvent>) returns (i: nat)
    ensures if i < |body| then FirstBad(body, i) else i == |body| && forall j :: 0 <= j < |body| ==> body[j].Decoded?
  {
    if body == [] {
      i := 0;
    } else if !body[0].Decoded? {
      i := 0;
    } else {
      var k := FindFirstBad(body[1..]);
      i := k + 1;
    }
  }

  /** A body passes exactly when everything decodes and the stream was whole; else its first failure counts. */
  lemma {:induction false} VerdictExactly(body: seq<BodyEvent>, tail: Option<seq<Byte>>)
    ensures var v, good := Verdict(body, tail), forall j :: 0 <= j < |body| ==> body[j].Decoded?;
            && (v == None <==> good && tail.Some?)
            && (v == Some(Truncated) <==> good && tail.None?)
            && (v == Some(Disconnected) <==> exists i: nat :: FirstBad(body, i) && body[i].Broken?)
            && (v == Some(Undecodable) <==> exists i: nat :: FirstBad(body, i) && body[i].Corrupt?)
  {
    var i := FindFirstBad(body);
    VerdictAt(body, tail, i);
    if i < |body| {
      assert FirstBad(body, i);
      forall k: nat | FirstBad(body, k)
        ensures k == i
      {
      }
    }
  }

  /** The first `n` bytes stay within the declared size. */
  predicate Roomy(base: nat, size: nat, n: nat) { n == 0 || base + n <= size }

  /** A size limit was hit. */
  predicate TooMuch(error: Option<ApiError>) { error in {Some(PayloadTooLarge), Some(ExceedsDeclared)} }

  /** The answer to a body of `n` bytes in all: its own verdict if they fit, and a size limit if not. */
  predicate Judged(error: Option<ApiError>, base: nat, size: nat, n: nat, verdict: Option<ApiError>) {
    if Roomy(base, size, n) then error == verdict else TooMuch(error)
  }

  /** The disk takes whatever the size limits let through. */
  predicate Takes(calm: bool, size: nat) { calm && size <= MAX_FILE }

  /** The steps of `sid`'s own request. */
  function Own(trace: seq<Action>, sid: Sid): seq<Action> {
    if trace == [] then []
    else
      var n := |trace| - 1;
      if Foreign(trace[n], sid) then Own(trace[..n], sid) else Own(trace[..n], sid) + [trace[n]]
  }

  /** Among whatever others do, the steps of one request: opened once, its slices, and one closing action. */
  predicate RequestOn(trace: seq<Action>, sid: Sid, open: Action) {
    var own := Own(trace, sid);
    && trace != [] && trace[0] == open && own != [] && own[0] == open
    && (forall i :: 0 < i < |own| ==>
          own[i].Slice? || own[i].Drop? || own[i].Abort? || own[i].Fail? || own[i].Commit? || own[i].CommitStops?)
  }

  lemma OwnSnoc(trace: seq<Action>, sid: Sid, a: Action)
    ensures Own(trace + [a], sid) == if Foreign(a, sid) then Own(trace, sid) else Own(trace, sid) + [a]
  {
    assert (trace + [a])[..|trace|] == trace;
  }

  lemma {:induction false} OwnForeign(trace: seq<Action>, actions: seq<Action>, sid: Sid)
    requires AllForeign(actions, sid)
    ensures Own(trace + actions, sid) == Own(trace, sid)
    decreases |actions|
  {
    if actions == [] {
      assert trace + actions == trace;
    } else {
      var n := |actions| - 1;
      assert trace + actions == (trace + actions[..n]) + [actions[n]];
      OwnSnoc(trace + actions[..n], sid, actions[n]);
      OwnForeign(trace, actions[..n], sid);
    }
  }

  lemma {:induction false} OwnStarts(trace: seq<Action>, sid: Sid)
    requires trace != [] && !Foreign(trace[0], sid)
    ensures Own(trace, sid) != []
    decreases |trace|
  {
    var n := |trace| - 1;
    if n > 0 { OwnStarts(trace[..n], sid); }
  }

  /** A step of the request's own that is not its first is not the first of its own steps. */
  lemma {:induction false} OwnLater(trace: seq<Action>, sid: Sid, i: nat) returns (j: nat)
    requires 0 < i < |trace| && !Foreign(trace[0], sid) && !Foreign(trace[i], sid)
    ensures 0 < j < |Own(trace, sid)| && Own(trace, sid)[j] == trace[i]
    decreases |trace|
  {
    var n := |trace| - 1;
    if i < n {
      j := OwnLater(trace[..n], sid, i);
    } else {
      OwnStarts(trace[..n], sid);
      j := |Own(trace[..n], sid)|;
    }
  }

  /** Unless its temp is swept, a request and the steps of others only ever go on with its temp. */
  lemma RequestProceeds(trace: seq<Action>, sid: Sid, open: Action)
    requires RequestOn(trace, sid, open) && open.Open? && open.sid == sid && Sweep(sid) !in trace
    ensures trace == [open] + trace[1..] && AllProceed(trace[1..], sid)
  {
    var rest := trace[1..];
    forall i | 0 <= i < |rest|
      ensures Proceeds(rest[i], sid)
    {
      assert rest[i] == trace[i + 1];
      if !Foreign(rest[i], sid) { var j := OwnLater(trace, sid, i + 1); }
    }
  }

  /** What the temp of `sid` holds; a new one is empty. */
  function TempAt(d: Disk, sid: Sid): seq<Byte> {
    if sid in d.temps && d.temps[sid] < |d.inodes| then d.inodes[d.temps[sid]] else []
  }

  /** What a new request on `sid` finds recorded. */
  function RangesAt(d: Disk, sid: Sid): seq<Range> {
    if sid in d.temps then d.Sidecar(sid) else []
  }

  /** How long a file is once `body` is written over it at `base`. */
  function Length(data: seq<Byte>, base: nat, body: seq<Byte>): nat {
    if body == [] then |data| else Max(|data|, base + |body|)
  }

  /** Unless it is swept, the temp holds what it held before, with everything delivered written over it. */
  lemma TempHolds(st0: State, open: Action, trace: seq<Action>, st: State)
    requires Wired(st0) && open.Open? && open.sid !in st0.sinks && OpenDisk(st0.disk, open.sid, open.mode).Some?
    requires open.sid in st0.disk.temps ==> Canonical(st0.disk.Sidecar(open.sid))
    requires RequestOn(trace, open.sid, open) && Sweep(open.sid) !in trace && Run(st0, trace) == st
    requires open.sid in st.sinks && st.sinks[open.sid].base == open.base && st.sinks[open.sid].sent == |open.body|
    ensures var k := st.sinks[open.sid];
            && k.file < |st.disk.inodes|
            && |st.disk.inodes[k.file]| == Length(TempAt(st0.disk, open.sid), open.base, open.body)
            && k.ranges == Union(RangesAt(st0.disk, open.sid), Range(open.base, open.base + |open.body|))
  {
    RequestProceeds(trace, open.sid, open);
    OpenHolding(st0, open, trace[1..]);
    assert NameOk(st0, open.sid);
  }

  /** How often `sid` was published. */
  ghost function Publications(log: seq<Sid>, sid: Sid): nat { multiset(log)[sid] }

  function Plus(st: State, sid: Sid, k: Sink): State { st.(sinks := st.sinks[sid := k]) }

  lemma PlusCloses(st: State, sid: Sid, k: Sink, other: Sid, d: Disk)
    requires other != sid
    ensures Close(Plus(st, sid, k), other, d) == Plus(Close(st, other, d), sid, k)
  {
    assert st.sinks[sid := k] - {other} == (st.sinks - {other})[sid := k];
  }

  lemma PlusUpdates(st: State, sid: Sid, k: Sink, other: Sid, x: Sink)
    requires other != sid
    ensures Plus(st, sid, k).sinks[other := x] == st.sinks[other := x][sid := k]
  {
  }

  lemma OpenIgnores(st: State, a: Action, sid: Sid, k: Sink)
    requires a.Open? && a.sid != sid && sid !in st.sinks
    ensures sid !in OpenStep(st, a).sinks && OpenStep(Plus(st, sid, k), a) == Plus(OpenStep(st, a), sid, k)
  {
    if a.sid !in st.sinks && OpenDisk(st.disk, a.sid, a.mode).Some? {
      PlusUpdates(st, sid, k, a.sid, OpenStep(st, a).sinks[a.sid]);
    }
  }

  lemma SliceIgnores(st: State, other: Sid, n: nat, sid: Sid, k: Sink)
    requires other != sid && sid !in st.sinks && HasBytes(st, other, n)
    ensures sid !in SliceStep(st, other, n).sinks && SliceStep(Plus(st, sid, k), other, n) == Plus(SliceStep(st, other, n), sid, k)
  {
    var x := st.sinks[other];
    PlusCloses(st, sid, k, other, Unlink(st.disk, other));
    if Fits(x.base, x.sent, n, x.size) { PlusUpdates(st, sid, k, other, SliceStep(st, other, n).sinks[other]); }
  }

  lemma TornIgnores(st: State, other: Sid, n: nat, sid: Sid, k: Sink)
    requires other != sid && sid !in st.sinks && HasBytes(st, other, n)
    ensures sid !in TornStep(st, other, n).sinks && TornStep(Plus(st, sid, k), other, n) == Plus(TornStep(st, other, n), sid, k)
  {
    var x := st.sinks[other];
    PlusCloses(st, sid, k, other, Unlink(st.disk, other));
    PlusCloses(st, sid, k, other, WriteData(st.disk, x.file, SatAdd(x.base, x.sent), x.body[x.sent..x.sent + n]));
  }

  lemma CloseIgnores(st: State, other: Sid, n: nat, sid: Sid, k: Sink)
    requires other != sid && sid !in st.sinks && other in st.sinks
    ensures sid !in CommitStep(st, other).sinks && CommitStep(Plus(st, sid, k), other) == Plus(CommitStep(st, other), sid, k)
    ensures sid !in FailStep(st, other, n).sinks && FailStep(Plus(st, sid, k), other, n) == Plus(FailStep(st, other, n), sid, k)
  {
    PlusCloses(st, sid, k, other, st.disk);
    PlusCloses(st, sid, k, other, Unlink(st.disk, other));
    PlusCloses(st, sid, k, other, CommitDisk(st.disk, other, st.sinks[other].mode).0);
    if HasBytes(st, other, n) { TornIgnores(st, other, n, sid, k); }
  }

  /** Others' steps do not look at this request's sink. */
  lemma NextIgnores(st: State, a: Action, sid: Sid, k: Sink)
    requires Foreign(a, sid) && sid !in st.sinks
    ensures sid !in Next(st, a).sinks && Next(Plus(st, sid, k), a) == Plus(Next(st, a), sid, k)
  {
    if a.Open? {
      OpenIgnores(st, a, sid, k);
    } else if !a.Sweep? {
      PlusCloses(st, sid, k, a.sid, st.disk);
      PlusCloses(st, sid, k, a.sid, Unlink(st.disk, a.sid));
      PlusCloses(st, sid, k, a.sid, st.disk.(sidecars := st.disk.sidecars - {a.sid}));
      if a.Slice? && HasBytes(st, a.sid, a.n) { SliceIgnores(st, a.sid, a.n, sid, k); }
      if a.Torn? && HasBytes(st, a.sid, a.n) { TornIgnores(st, a.sid, a.n, sid, k); }
      if (a.Fail? || a.Commit?) && a.sid in st.sinks { CloseIgnores(st, a.sid, if a.Fail? then a.n else 0, sid, k); }
    }
  }

  /** What others' steps leave of a session's temp: all of it, unless they sweep it. */
  ghost predicate Spared(st: State, n: State, sid: Sid, swept: bool) {
    && |n.disk.inodes| >= |st.disk.inodes|
    && (Canonical(st.disk.Sidecar(sid)) ==> Canonical(n.disk.Sidecar(sid)))
    && (!swept ==>
          && n.disk.Sidecar(sid) == st.disk.Sidecar(sid)
          && (sid in n.disk.temps <==> sid in st.disk.temps))
    && Publications(n.log, sid) == Publications(st.log, sid)
  }

  lemma CommitSpares(st: State, other: Sid, sid: Sid)
    requires other != sid && other in st.sinks
    ensures Spared(st, CommitStep(st, other), sid, false)
  {
  }

  lemma NextSpares(st: State, a: Action, sid: Sid)
    requires Foreign(a, sid)
    ensures Spared(st, Next(st, a), sid, a == Sweep(sid))
  {
    if a.Commit? && a.sid in st.sinks { CommitSpares(st, a.sid, sid); }
  }

  lemma {:induction false} RunIgnores(st: State, actions: seq<Action>, sid: Sid, k: Sink)
    requires AllForeign(actions, sid) && sid !in st.sinks
    ensures sid !in Run(st, actions).sinks && Run(Plus(st, sid, k), actions) == Plus(Run(st, actions), sid, k)
    decreases |actions|
  {
    if actions != [] {
      NextIgnores(st, actions[0], sid, k);
      RunIgnores(Next(st, actions[0]), actions[1..], sid, k);
    }
  }

  lemma {:induction false} RunSpares(st: State, actions: seq<Action>, sid: Sid)
    requires AllForeign(actions, sid)
    ensures Spared(st, Run(st, actions), sid, Sweep(sid) in actions)
    decreases |actions|
  {
    if actions != [] {
      NextSpares(st, actions[0], sid);
      RunSpares(Next(st, actions[0]), actions[1..], sid);
      assert actions[0] in actions && forall a | a in actions[1..] :: a in actions;
    }
  }

  /** The request's range, as far as it was delivered, is in the sidecar. */
  ghost predicate RecordedUpTo(ranges: seq<Range>, base: nat, sent: nat) {
    forall x: nat :: base <= x < base + sent ==> Covers(ranges, x)
  }

  lemma RecordedMore(ranges: seq<Range>, base: nat, sent: nat, n: nat)
    requires Canonical(ranges) && RecordedUpTo(ranges, base, sent)
    ensures RecordedUpTo(Union(ranges, Range(base + sent, base + sent + n)), base, sent + n)
  {
    var all := Union(ranges, Range(base + sent, base + sent + n));
    forall x: nat
      ensures base <= x < base + sent + n ==> Covers(all, x)
    {
      UnionCovers(ranges, Range(base + sent, base + sent + n), x);
    }
  }

  /** The machine's state as a function of the steps made since the request arrived. */
  type Reach = seq<Action> -> State

  ghost predicate StepsAt(reach: Reach, trace: seq<Action>, actions: seq<Action>) {
    reach(trace + actions) == Run(reach(trace), actions)
  }

  ghost predicate Machine(reach: Reach) { forall trace, actions :: StepsAt(reach, trace, actions) }

  ghost predicate FromAt(reach: Reach, st0: State, trace: seq<Action>) { reach(trace) == Run(st0, trace) }

  lemma ReachFrom(st0: State) returns (reach: Reach)
    ensures Machine(reach) && forall trace :: FromAt(reach, st0, trace)
  {
    reach := trace => Run(st0, trace);
    forall trace, actions
      ensures StepsAt(reach, trace, actions)
    {
      RunSplit(st0, trace, actions);
    }
    forall trace
      ensures FromAt(reach, st0, trace)
    {
    }
  }

  lemma RunSnoc(reach: Reach, trace: seq<Action>, a: Action)
    requires Machine(reach)
    ensures reach(trace + [a]) == Next(reach(trace), a)
  {
    var st := reach(trace);
    assert StepsAt(reach, trace, [a]);
    assert [a][1..] == [];
    assert Run(st, [a]) == Run(Next(st, a), []);
  }

  /** A slice that `write_at_batch` lets through is one `Slice` step of the machine; a refused one is an abort. */
  lemma SliceTracks(reach: Reach, trace: seq<Action>, sid: Sid, k: Sink, others: map<Sid, Sink>, d: Disk, log: seq<Sid>, data: seq<Byte>)
    requires Machine(reach) && reach(trace) == State(d, others[sid := k], log) && sid !in others
    requires k.file < |d.inodes| && data != []
    requires k.sent + |data| <= |k.body| && k.body[k.sent..k.sent + |data|] == data
    ensures var a := Slice(sid, |data|);
            if Fits(k.base, k.sent, |data|, k.size) then
              var d' := Record(WriteData(d, k.file, SatAdd(k.base, k.sent), data), sid, SatAdd(k.base, k.sent), data);
              reach(trace + [a]) == State(d', others[sid := k.(sent := k.sent + |data|, ranges := d'.Sidecar(sid))], log)
            else
              reach(trace + [a]) == State(Unlink(d, sid), others, log)
  {
    RunSnoc(reach, trace, Slice(sid, |data|));
    var st := reach(trace);
    assert HasBytes(st, sid, |data|);
    assert st.sinks - {sid} == others;
    var k' := Next(st, Slice(sid, |data|)).sinks;
    assert sid in k' ==> st.sinks[sid := k'[sid]] == others[sid := k'[sid]];
  }

  /** A write that fails after some of its bytes is one `Fail` step. */
  lemma FailTracks(reach: Reach, trace: seq<Action>, sid: Sid, k: Sink, others: map<Sid, Sink>, d: Disk, log: seq<Sid>, part: seq<Byte>)
    requires Machine(reach) && reach(trace) == State(d, others[sid := k], log) && sid !in others && k.file < |d.inodes|
    requires k.sent + |part| <= |k.body| && k.body[k.sent..k.sent + |part|] == part
    requires part != [] ==> Fits(k.base, k.sent, |part|, k.size)
    ensures reach(trace + [Fail(sid, |part|)]) ==
              State(Unlink(WriteData(d, k.file, SatAdd(k.base, k.sent), part), sid), others, log)
  {
    RunSnoc(reach, trace, Fail(sid, |part|));
    var st := reach(trace);
    assert st.sinks - {sid} == others;
    assert HasBytes(st, sid, |part|) <==> part != [];
    if part == [] { assert d.inodes[k.file := d.inodes[k.file]] == d.inodes; }
  }

  /** A written batch joins what was recorded before it. */
  lemma BatchRecorded(d: Disk, file: nat, sid: Sid, base: nat, written: nat, data: seq<Byte>)
    requires file < |d.inodes| && Canonical(d.Sidecar(sid))
    ensures var d' := Record(WriteData(d, file, base + written, data), sid, base + written, data);
            && (sid in d'.temps <==> sid in d.temps)
            && (RecordedUpTo(d.Sidecar(sid), base, written) ==> RecordedUpTo(d'.Sidecar(sid), base, written + |data|))
  {
    if RecordedUpTo(d.Sidecar(sid), base, written) { RecordedMore(d.Sidecar(sid), base, written, |data|); }
  }

  /** Written, refused or failed, a batch is one step of the machine. */
  lemma BatchTracks(reach: Reach, trace: seq<Action>, sid: Sid, k: Sink, others: map<Sid, Sink>, d: Disk, log: seq<Sid>,
                    data: seq<Byte>, failed: bool, torn: nat, d': Disk)
    returns (a: Action)
    requires Machine(reach) && reach(trace) == State(d, others[sid := k], log) && sid !in others && k.file < |d.inodes|
    requires data != [] && k.sent + |data| <= |k.body| && k.body[k.sent..k.sent + |data|] == data
    requires failed ==> torn <= |data| && (torn > 0 ==> Fits(k.base, k.sent, torn, k.size))
    requires var abs, fits := SatAdd(k.base, k.sent), Fits(k.base, k.sent, |data|, k.size);
             d' == if failed then WriteData(d, k.file, abs, data[..torn])
                   else if fits then Record(WriteData(d, k.file, abs, data), sid, abs, data) else d
    ensures a == Slice(sid, |data|) || (a.Fail? && a.sid == sid)
    ensures reach(trace + [a]) ==
              if failed || !Fits(k.base, k.sent, |data|, k.size) then State(Unlink(d', sid), others, log)
              else State(d', others[sid := k.(sent := k.sent + |data|, ranges := d'.Sidecar(sid))], log)
  {
    if failed {
      a := Fail(sid, torn);
      assert data[..torn] == k.body[k.sent..k.sent + torn];
      FailTracks(reach, trace, sid, k, others, d, log, data[..torn]);
    } else {
      a := Slice(sid, |data|);
      SliceTracks(reach, trace, sid, k, others, d, log, data);
    }
  }

  /** The closing actions of a request. */
  lemma CloseTracks(reach: Reach, trace: seq<Action>, sid: Sid, k: Sink, others: map<Sid, Sink>, d: Disk, log: seq<Sid>)
    requires Machine(reach) && reach(trace) == State(d, others[sid := k], log) && sid !in others && k.file < |d.inodes|
    ensures reach(trace + [Drop(sid)]) == State(d, others, log)
    ensures reach(trace + [Abort(sid)]) == State(Unlink(d, sid), others, log)
    ensures reach(trace + [Commit(sid)]) ==
              if Accepts(d.inodes[k.file], k.ranges, k.size) then
                State(CommitDisk(d, sid, k.mode).0, others, if CommitDisk(d, sid, k.mode).1 then log + [sid] else log)
              else State(Unlink(d, sid), others, log)
    ensures Accepts(d.inodes[k.file], k.ranges, k.size) ==>
              reach(trace + [CommitStops(sid)]) == State(d.(sidecars := d.sidecars - {sid}), others, log)
  {
    RunSnoc(reach, trace, Drop(sid));
    RunSnoc(reach, trace, Abort(sid));
    RunSnoc(reach, trace, Commit(sid));
    RunSnoc(reach, trace, CommitStops(sid));
    assert reach(trace).sinks - {sid} == others;
  }

  /** The handler's sum of the recorded lengths. */
  method SumLens(ranges: seq<Range>) returns (covered: nat)
    ensures covered == Total(ranges)
  {
    covered := 0;
    for i := 0 to |ranges|
      invariant covered + Total(ranges[i..]) == Total(ranges)
    {
      covered := covered + ranges[i].Len();
    }
  }

  /**
   * The machine reached by `trace` is this disk, with this request still open; unless its temp was
   * swept, everything delivered is recorded.
   */
  ghost predicate Tracks(reach: Reach, trace: seq<Action>, sink: FsSink, base: nat, size: nat, payload: seq<Byte>, sent: nat)
    reads sink, sink.store
  {
    && Machine(reach)
    && reach(trace) == State(sink.store.disk, sink.store.others[sink.sid := sink.AsSink(base, size, payload, sent)], sink.store.log)
    && sink.Valid() && sink.sid !in sink.store.others
    && (Sweep(sink.sid) !in trace ==>
          && sink.sid in sink.store.disk.temps
          && sink.ranges == sink.store.disk.Sidecar(sink.sid) && RecordedUpTo(sink.ranges, base, sent))
  }

  /** The handler waits for the next part of the body; others move on. */
  method Await(sink: FsSink, ghost base: nat, ghost size: nat, ghost reach: Reach, ghost open: Action,
               ghost trace: seq<Action>, ghost payload: seq<Byte>, ghost sent: nat)
    returns (ghost trace': seq<Action>)
    requires Tracks(reach, trace, sink, base, size, payload, sent) && RequestOn(trace, sink.sid, open)
    modifies sink.store`disk, sink.store`others, sink.store`log
    ensures Tracks(reach, trace', sink, base, size, payload, sent) && RequestOn(trace', sink.sid, open)
    ensures Publications(sink.store.log, sink.sid) == Publications(old(sink.store.log), sink.sid)
  {
    ghost var st, k := sink.store.At(), sink.AsSink(base, size, payload, sent);
    ghost var actions := sink.store.Rivals(sink.sid);
    trace' := trace + actions;
    assert StepsAt(reach, trace, actions);
    RunIgnores(st, actions, sink.sid, k);
    RunSpares(st, actions, sink.sid);
    OwnForeign(trace, actions, sink.sid);
  }

  /** One batch goes through `write_at_batch`: one `Slice` or one `Fail` step of the machine. */
  method BatchStep(sink: FsSink, maxUpload: nat, base: nat, size: nat, written: nat, data: seq<Byte>,
                   ghost reach: Reach, ghost trace: seq<Action>, ghost payload: seq<Byte>)
    returns (error: Option<ApiError>, written': nat, ghost a: Action)
    requires size <= maxUpload && sink.Valid() && sink.sid !in sink.store.others && Machine(reach)
    requires reach(trace) == State(sink.store.disk, sink.store.others[sink.sid := sink.AsSink(base, size, payload, written)], sink.store.log)
    requires data != [] && written + |data| <= |payload| && payload[written..written + |data|] == data
    modifies sink, sink.store`disk
    ensures a == Slice(sink.sid, |data|) || (a.Fail? && a.sid == sink.sid)
    ensures sink.Valid()
    ensures reach(trace + [a]) ==
              if error.Some? then State(Unlink(sink.store.disk, sink.sid), sink.store.others, sink.store.log)
              else State(sink.store.disk, sink.store.others[sink.sid := sink.AsSink(base, size, payload, written')], sink.store.log)
    ensures if error.None? then written' == written + |data| else error.value in {PayloadTooLarge, ExceedsDeclared, WriteFailed}
    ensures error.None? ==>
              && (sink.sid in sink.store.disk.temps <==> sink.sid in old(sink.store.disk).temps)
              && sink.ranges == sink.store.disk.Sidecar(sink.sid)
              && (old(RecordedUpTo(sink.store.disk.Sidecar(sink.sid), base, written)) ==> RecordedUpTo(sink.ranges, base, written'))
    ensures Takes(sink.store.calm, size) ==> Judged(error, base, size, written + |data|, None)
  {
    ghost var k, d, torn := sink.AsSink(base, size, payload, written), sink.store.disk, 0;
    BatchRecorded(d, sink.file, sink.sid, base, written, data);
    error, written', torn := WriteAtBatch(sink, maxUpload, base, size, written, data);
    a := BatchTracks(reach, trace, sink.sid, k, sink.store.others, d, sink.store.log, data, error == Some(WriteFailed), torn, sink.store.disk);
  }

  /** A slice that is written keeps the request tracked; any other ends it. */
  method WriteSlice(sink: FsSink, maxUpload: nat, base: nat, size: nat, written: nat, data: seq<Byte>,
                    ghost reach: Reach, ghost trace: seq<Action>, ghost payload: seq<Byte>)
    returns (error: Option<ApiError>, written': nat, ghost a: Action)
    requires size <= maxUpload
    requires Tracks(reach, trace, sink, base, size, payload, written)
    requires data != [] && written + |data| <= |payload| && payload[written..written + |data|] == data
    modifies sink, sink.store`disk
    ensures a == Slice(sink.sid, |data|) || (a.Fail? && a.sid == sink.sid)
    ensures error.None? ==>
              && written' == written + |data|
              && Tracks(reach, trace + [a], sink, base, size, payload, written')
    ensures error.Some? ==>
              && error.value in {PayloadTooLarge, ExceedsDeclared, WriteFailed}
              && reach(trace + [a]) == State(Unlink(sink.store.disk, sink.sid), sink.store.others, sink.store.log)
    ensures Takes(sink.store.calm, size) ==> Judged(error, base, size, written + |data|, None)
  {
    error, written', a := BatchStep(sink, maxUpload, base, size, written, data, reach, trace, payload);
  }

  /** The machine has seen the whole request so far; after a refused or failed slice, its end too. */
  ghost predicate Delivered(reach: Reach, trace: seq<Action>, open: Action, sink: FsSink,
                            base: nat, size: nat, payload: seq<Byte>, sent: nat, refused: bool)
    reads sink, sink.store
  {
    && Machine(reach) && RequestOn(trace, sink.sid, open)
    && if refused then
         reach(trace) == State(Unlink(sink.store.disk, sink.sid), sink.store.others, sink.store.log)
         && sink.sid !in sink.store.others
       else Tracks(reach, trace, sink, base, size, payload, sent)
  }

  /** What one read decoded, if anything, is written. */
  method Deliver(sink: FsSink, maxUpload: nat, base: nat, size: nat, written: nat, data: seq<Byte>,
                 ghost reach: Reach, ghost open: Action, ghost trace: seq<Action>, ghost payload: seq<Byte>)
    returns (error: Option<ApiError>, written': nat, ghost trace': seq<Action>)
    requires size <= maxUpload
    requires Delivered(reach, trace, open, sink, base, size, payload, written, false)
    requires written + |data| <= |payload| && payload[written..written + |data|] == data
    modifies sink, sink.store`disk
    ensures Delivered(reach, trace', open, sink, base, size, payload, written', error.Some?)
    ensures if error.None? then written' == written + |data| else error.value in {PayloadTooLarge, ExceedsDeclared, WriteFailed}
    ensures Takes(sink.store.calm, size) && Roomy(base, size, written) ==> Judged(error, base, size, written + |data|, None)
  {
    error, written', trace' := None, written, trace;
    if data != [] {
      ghost var a;
      error, written', a := WriteSlice(sink, maxUpload, base, size, written, data, reach, trace, payload);
      trace' := trace + [a];
      OwnSnoc(trace, sink.sid, a);
    }
  }

  /** Wait for one read of the body, and deal with it. */
  method ReadOne(sink: FsSink, maxUpload: nat, base: nat, size: nat, written: nat, event: BodyEvent,
                 ghost reach: Reach, ghost open: Action, ghost trace: seq<Action>, ghost payload: seq<Byte>)
    returns (error: Option<ApiError>, written': nat, ghost trace': seq<Action>, ghost refused: bool)
    requires size <= maxUpload
    requires Delivered(reach, trace, open, sink, base, size, payload, written, false)
    requires event.Decoded? ==>
               written + |event.data| <= |payload| && payload[written..written + |event.data|] == event.data
    modifies sink, sink.store`disk, sink.store`others, sink.store`log
    ensures Publications(sink.store.log, sink.sid) == Publications(old(sink.store.log), sink.sid)
    ensures Delivered(reach, trace', open, sink, base, size, payload, written', refused)
    ensures error.None? ==> event.Decoded? && !refused && written' == written + |event.data|
    ensures refused ==> error.Some? && error.value != Disconnected
    ensures error.Some? ==> error.value !in {AlreadyExists, CommitFailed}
    ensures event.Broken? ==> error == Some(Disconnected)
    ensures event.Corrupt? ==> error == Some(Undecodable)
    ensures event.Decoded? && Takes(sink.store.calm, size) && Roomy(base, size, written) ==>
              Judged(error, base, size, written + |event.data|, None)
  {
    trace' := Await(sink, base, size, reach, open, trace, payload, written);
    written', refused := written, false;
    match event {
    case Broken => error := Some(Disconnected);
    case Corrupt => error := Some(Undecodable);
    case Decoded(data) =>
      error, written', trace' := Deliver(sink, maxUpload, base, size, written, data, reach, open, trace', payload);
      refused := error.Some?;
    }
  }

  /** The next read's bytes are the next bytes of the payload. */
  lemma PayloadNext(body: seq<BodyEvent>, tail: Option<seq<Byte>>, i: nat, written: nat)
    requires i < |body| && (forall j :: 0 <= j < i ==> body[j].Decoded?) && written == |Payload(body[..i], None)|
    ensures body[i].Decoded? ==>
              var data, payload := body[i].data, Payload(body, tail);
              && written + |data| <= |payload| && payload[written..written + |data|] == data
              && written + |data| == |Payload(body[..i + 1], None)|
  {
    PayloadPrefix(body, tail, i);
    if body[i].Decoded? {
      var rest := Payload(body[i..], tail);
      assert body[i..][0] == body[i];
      assert rest[..|body[i].data|] == body[i].data;
    }
  }

  lemma PayloadTail(body: seq<BodyEvent>, tail: Option<seq<Byte>>, written: nat)
    requires (forall j :: 0 <= j < |body| ==> body[j].Decoded?) && written == |Payload(body, None)|
    ensures var payload := Payload(body, tail);
            if tail.None? then |payload| == written
            else written + |tail.value| == |payload| && payload[written..written + |tail.value|] == tail.value
  {
    PayloadPrefix(body, tail, |body|);
    assert body[..|body|] == body && body[|body|..] == [];
  }

  /** The first `i` reads all decoded, and `written` bytes in all. */
  ghost predicate ReadSoFar(body: seq<BodyEvent>, i: nat, written: nat) {
    && i <= |body| && (forall j :: 0 <= j < i ==> body[j].Decoded?)
    && written == |Payload(body[..i], None)|
  }

  /** The reads so far fit; or the body has been judged. */
  predicate JudgedAt(error: Option<ApiError>, base: nat, size: nat, body: seq<BodyEvent>, tail: Option<seq<Byte>>, written: nat) {
    if error.None? then Roomy(base, size, written)
    else Judged(error, base, size, |Payload(body, tail)|, Verdict(body, tail))
  }

  lemma ReadJudged(base: nat, size: nat, body: seq<BodyEvent>, tail: Option<seq<Byte>>, i: nat, written: nat, error: Option<ApiError>, written': nat)
    requires i < |body| && ReadSoFar(body, i, written) && Roomy(base, size, written)
    requires error.None? ==> body[i].Decoded? && written' == written + |body[i].data|
    requires body[i].Broken? ==> error == Some(Disconnected)
    requires body[i].Corrupt? ==> error == Some(Undecodable)
    requires body[i].Decoded? ==> Judged(error, base, size, written + |body[i].data|, None)
    ensures JudgedAt(error, base, size, body, tail, written')
  {
    PayloadNext(body, tail, i, written);
    VerdictAt(body, tail, i);
  }

  /** Read number `i` of the body. */
  method ReadAt(sink: FsSink, base: nat, size: nat, body: seq<BodyEvent>, i: nat, maxUpload: nat, written: nat,
                ghost reach: Reach, ghost open: Action, ghost trace: seq<Action>, ghost tail: Option<seq<Byte>>)
    returns (error: Option<ApiError>, written': nat, ghost trace': seq<Action>, ghost refused: bool)
    requires size <= maxUpload && i < |body| && ReadSoFar(body, i, written)
    requires Delivered(reach, trace, open, sink, base, size, Payload(body, tail), written, false)
    modifies sink, sink.store`disk, sink.store`others, sink.store`log
    ensures Publications(sink.store.log, sink.sid) == Publications(old(sink.store.log), sink.sid)
    ensures Delivered(reach, trace', open, sink, base, size, Payload(body, tail), written', refused)
    ensures error.None? ==> !refused && ReadSoFar(body, i + 1, written')
    ensures refused ==> error.Some? && error.value != Disconnected
    ensures error.Some? ==> error.value !in {AlreadyExists, CommitFailed}
    ensures Takes(sink.store.calm, size) && Roomy(base, size, written) ==> JudgedAt(error, base, size, body, tail, written')
  {
    PayloadNext(body, tail, i, written);
    error, written', trace', refused :=
      ReadOne(sink, maxUpload, base, size, written, body[i], reach, open, trace, Payload(body, tail));
    if Takes(sink.store.calm, size) && Roomy(base, size, written) {
      ReadJudged(base, size, body, tail, i, written, error, written');
    }
  }

  /** The reads of the body, up to the first that fails. */
  method ReadBody(sink: FsSink, base: nat, size: nat, body: seq<BodyEvent>, maxUpload: nat,
                  ghost reach: Reach, ghost open: Action, ghost tail: Option<seq<Byte>>)
    returns (error: Option<ApiError>, written: nat, ghost trace: seq<Action>, ghost refused: bool)
    requires size <= maxUpload
    requires Delivered(reach, [open], open, sink, base, size, Payload(body, tail), 0, false)
    modifies sink, sink.store`disk, sink.store`others, sink.store`log
    ensures Publications(sink.store.log, sink.sid) == Publications(old(sink.store.log), sink.sid)
    ensures Delivered(reach, trace, open, sink, base, size, Payload(body, tail), written, refused)
    ensures error.None? ==> !refused && written == |Payload(body, None)| && forall j :: 0 <= j < |body| ==> body[j].Decoded?
    ensures refused ==> error.Some? && error.value != Disconnected
    ensures error.Some? ==> error.value !in {AlreadyExists, CommitFailed}
    ensures Takes(sink.store.calm, size) ==> JudgedAt(error, base, size, body, tail, written)
  {
    trace, refused := [open], false;
    written := 0;
    var i := 0;
    error := None;
    while i < |body| && error.None?
      invariant i <= |body| && Publications(sink.store.log, sink.sid) == Publications(old(sink.store.log), sink.sid)
      invariant Delivered(reach, trace, open, sink, base, size, Payload(body, tail), written, refused)
      invariant error.None? ==> !refused && ReadSoFar(body, i, written)
      invariant refused ==> error.Some? && error.value != Disconnected
      invariant error.Some? ==> error.value !in {AlreadyExists, CommitFailed}
      invariant Takes(sink.store.calm, size) ==> JudgedAt(error, base, size, body, tail, written)
      decreases |body| - i
    {
      error, written, trace, refused := ReadAt(sink, base, size, body, i, maxUpload, written, reach, open, trace, tail);
      i := i + 1;
    }
    assert body[..|body|] == body;
  }

  /**
   * The part of `upload_session` that reads the body. Without an error the whole payload is
   * written and recorded; a refused or failed slice leaves the machine already aborted (`refused`).
   */
  method WriteBody(sink: FsSink, base: nat, size: nat, body: seq<BodyEvent>, tail: Option<seq<Byte>>, maxUpload: nat,
                   ghost reach: Reach, ghost open: Action)
    returns (error: Option<ApiError>, ghost trace: seq<Action>, ghost sent: nat, ghost refused: bool)
    requires size <= maxUpload
    requires Delivered(reach, [open], open, sink, base, size, Payload(body, tail), 0, false)
    modifies sink, sink.store`disk, sink.store`others, sink.store`log
    ensures Publications(sink.store.log, sink.sid) == Publications(old(sink.store.log), sink.sid)
    ensures Delivered(reach, trace, open, sink, base, size, Payload(body, tail), sent, refused)
    ensures error.None? ==> sent == |Payload(body, tail)| && tail.Some? && !refused
    ensures refused ==> error.Some? && error.value != Disconnected
    ensures error.Some? ==> error.value !in {AlreadyExists, CommitFailed}
    ensures Takes(sink.store.calm, size) ==> Judged(error, base, size, |Payload(body, tail)|, Verdict(body, tail))
  {
    var written;
    error, written, trace, refused := ReadBody(sink, base, size, body, maxUpload, reach, open, tail);
    sent := written;
    if error.Some? { return; }
    PayloadTail(body, tail, written);
    VerdictAt(body, tail, |body|);
    if tail.None? {
      error := Some(Truncated);
    } else {
      error, written, trace, refused :=
        ReadOne(sink, maxUpload, base, size, written, Decoded(tail.value), reach, open, trace, Payload(body, tail));
      sent := written;
    }
  }

  /** The answer to a commit request, given how long the temp is and what is recorded of it. */
  predicate CommitReply(r: Response, len: nat, ranges: seq<Range>, size: nat, mode: Mode, target: Option<nat>) {
    if len != size then r == Failed(WrongLength(len))
    else if ranges != [] && Total(ranges) != size then r == Failed(NotCovered(Total(ranges)))
    else r == Created || (r == Failed(AlreadyExists) && mode.Create? && target.Some?)
  }

  /** The end of `upload_session` for a commit request: length, coverage, rename. */
  method CheckAndCommit(sink: FsSink, size: nat) returns (r: Response)
    requires sink.Valid()
    modifies sink.store`disk, sink.store`log, sink.store`locked
    ensures sink.store.locked == old(sink.store.locked) - {sink.sid}
    ensures var d, sid := old(sink.store.disk), sink.sid;
            if !old(Accepts(d.inodes[sink.file], sink.ranges, size)) then
              && sink.store.disk == Unlink(d, sid) && sink.store.log == old(sink.store.log)
              && r == Failed(if |d.inodes[sink.file]| != size then WrongLength(|d.inodes[sink.file]|)
                             else NotCovered(Total(old(sink.ranges))))
            else if r == Failed(CommitFailed) then
              sink.store.disk == d.(sidecars := d.sidecars - {sid}) && sink.store.log == old(sink.store.log)
            else
              var (d', published) := CommitDisk(d, sid, sink.mode);
              && sink.store.disk == d'
              && sink.store.log == (if published then old(sink.store.log) + [sid] else old(sink.store.log))
              && (r == if published then Created else Failed(AlreadyExists))
              && (published || (sink.mode.Create? && d.target.Some?))
    ensures sink.store.calm && sink.sid in old(sink.store.disk).temps ==>
              CommitReply(r, |old(sink.store.disk.inodes[sink.file])|, sink.ranges, size, sink.mode, sink.store.disk.target)
  {
    var len := sink.Len();
    if len != size {
      sink.Abort();
      return Failed(WrongLength(len));
    }
    var received := sink.ReceivedRanges();
    if received != [] {
      var covered := SumLens(received);
      if covered != size {
        sink.Abort();
        return Failed(NotCovered(covered));
      }
    }
    var end := sink.Commit();
    r := match end case Published => Created case Exists => Failed(AlreadyExists) case Stopped => Failed(CommitFailed);
  }

  /** What the response tells the client about the disk; a sweep may have taken the temp meanwhile. */
  ghost predicate Answered(r: Response, d: Disk, sid: Sid, base: nat, payload: seq<Byte>, final: bool, swept: bool) {
    match r
    case Created => final || swept || (sid in d.temps && RecordedUpTo(d.Sidecar(sid), base, |payload|))
    case Failed(Disconnected) => swept || sid in d.temps
    case Failed(CommitFailed) => sid !in d.sidecars && (swept || sid in d.temps)
    case Failed(AlreadyExists) => sid !in d.temps
    case Failed(_) => sid !in d.temps && sid !in d.sidecars
    case Status(_) => false
  }

  /** How long the temp is, and what is recorded of it, once `payload` was written over what it held. */
  predicate Held(d: Disk, sid: Sid, base: nat, payload: seq<Byte>, len: nat, recorded: seq<Range>) {
    && len == Length(TempAt(d, sid), base, payload)
    && recorded == Union(RangesAt(d, sid), Range(base, base + |payload|))
  }

  /** The answer to a commit request whose `payload` was written over what the temp held before. */
  ghost predicate Honoured(r: Response, d: Disk, sid: Sid, base: nat, payload: seq<Byte>, size: nat, mode: Mode, target: Option<nat>) {
    forall len, recorded :: Held(d, sid, base, payload, len, recorded) ==> CommitReply(r, len, recorded, size, mode, target)
  }

  lemma HeldHonoured(r: Response, d: Disk, sid: Sid, base: nat, payload: seq<Byte>, size: nat, mode: Mode, target: Option<nat>,
                     len: nat, recorded: seq<Range>)
    requires Held(d, sid, base, payload, len, recorded) && CommitReply(r, len, recorded, size, mode, target)
    ensures Honoured(r, d, sid, base, payload, size, mode, target)
  {
    forall n, rs | Held(d, sid, base, payload, n, rs)
      ensures CommitReply(r, n, rs, size, mode, target)
    {
      assert n == len && rs == recorded;
    }
  }

  /** The answer to a body that was received and judged. */
  predicate BodyReply(r: Response, base: nat, size: nat, n: nat, verdict: Option<ApiError>, final: bool) {
    if !Roomy(base, size, n) then r in {Failed(PayloadTooLarge), Failed(ExceedsDeclared)}
    else if verdict.Some? then r == Failed(verdict.value)
    else !final ==> r == Created
  }

  /**
   * `upload_session`, one data or commit request. Whatever arrives, and whatever other sessions and
   * the sweep do between any two reads, it is one request of the machine: an open, slices, one close.
   * Unless its temp was swept, 201 on a data request means the whole body is recorded and a
   * disconnect or a failed commit keeps the temp; any other failure discards it; 201 on a commit
   * request means, and nothing else does, that the temp was published.
   *
   * When the disk never fails: a body that decodes, ends whole and stays within the declared size is
   * answered 201, and any other by its first failure; a commit request whose temp nobody swept is
   * answered 201 exactly when the temp, with the body written over it, has the declared length and
   * full coverage, unless it creates a file that has appeared meanwhile.
   */
  method UploadSession(storage: FsStorage, sid: Sid, offset: Option<nat>, size: nat, final: bool,
                       body: seq<BodyEvent>, tail: Option<seq<Byte>>, maxUpload: nat)
    returns (r: Response, ghost trace: seq<Action>)
    requires storage.Free(sid) && size <= maxUpload
    modifies storage
    ensures storage.locked == old(storage.locked) && sid !in storage.others
    ensures var base := if offset.Some? then offset.value else 0;
            var payload := Payload(body, tail);
            && RequestOn(trace, sid, Open(sid, if offset.Some? then Overwrite else Create, base, size, payload))
            && Run(old(storage.At()), trace) == storage.At()
            && Answered(r, storage.disk, sid, base, payload, final, Sweep(sid) in trace)
    ensures Publications(storage.log, sid) == Publications(old(storage.log), sid) + if final && r.Created? then 1 else 0
    ensures var mode := if offset.Some? then Overwrite else Create;
            var base := if offset.Some? then offset.value else 0;
            var payload := Payload(body, tail);
            var begun := OpenDisk(old(storage.disk), sid, mode);
            && (begun.None? ==> r == Failed(AlreadyExists))
            && (begun.Some? && storage.calm && size <= MAX_FILE ==>
                  && BodyReply(r, base, size, |payload|, Verdict(body, tail), final)
                  && (Roomy(base, size, |payload|) && Verdict(body, tail).None? && final
                      && old(Wired(storage.At())) && Sweep(sid) !in trace ==>
                        Honoured(r, old(storage.disk), sid, base, payload, size, mode, storage.disk.target)))
  {
    var base := if offset.Some? then offset.value else 0;
    var mode := if offset.Some? then Overwrite else Create;
    ghost var st0 := storage.At();
    ghost var open := Open(sid, mode, base, size, Payload(body, tail));
    var sink;
    ghost var reach;
    sink, reach := Begin(storage, sid, mode, base, size, open, Payload(body, tail));
    assert FromAt(reach, st0, [open]);
    if sink == null {
      return Failed(AlreadyExists), [open];
    }
    r, trace := Serve(sink, base, size, final, body, tail, maxUpload, reach, open, st0);
    assert FromAt(reach, st0, trace);
  }

  /** Opening the temp is the machine's first step. */
  method Begin(storage: FsStorage, sid: Sid, mode: Mode, ghost base: nat, ghost size: nat, ghost open: Action, ghost payload: seq<Byte>)
    returns (sink: FsSink?, ghost reach: Reach)
    requires storage.Free(sid) && open == Open(sid, mode, base, size, payload)
    modifies storage`disk, storage`locked
    ensures forall trace :: FromAt(reach, old(storage.At()), trace)
    ensures sink == null <==> OpenDisk(old(storage.disk), sid, mode).None?
    ensures RequestOn([open], sid, open)
    ensures if sink == null then reach([open]) == storage.At() && storage.locked == old(storage.locked)
            else && fresh(sink) && sink.store == storage && sink.sid == sid && sink.mode == mode
                 && storage.locked == old(storage.locked) + {sid}
                 && Delivered(reach, [open], open, sink, base, size, payload, 0, false)
  {
    ghost var st0 := storage.At();
    reach := ReachFrom(st0);
    Opening(st0, open);
    OpenedIs(st0, open);
    assert FromAt(reach, st0, [open]);
    sink := storage.WriteStreamSession(sid, mode);
  }

  /** Everything delivered is in the temp, and recorded. */
  lemma BodyHeld(sink: FsSink, base: nat, size: nat, payload: seq<Byte>, reach: Reach, open: Action, trace: seq<Action>, st0: State)
    requires Tracks(reach, trace, sink, base, size, payload, |payload|) && RequestOn(trace, sink.sid, open)
    requires open == Open(sink.sid, sink.mode, base, size, payload)
    requires FromAt(reach, st0, trace) && Wired(st0) && sink.sid !in st0.sinks && Sweep(sink.sid) !in trace
    requires OpenDisk(st0.disk, sink.sid, sink.mode).Some? && (sink.sid in st0.disk.temps ==> Canonical(st0.disk.Sidecar(sink.sid)))
    ensures sink.sid in sink.store.disk.temps
    ensures Held(st0.disk, sink.sid, base, payload, |sink.store.disk.inodes[sink.file]|, sink.ranges)
  {
    TempHolds(st0, open, trace, reach(trace));
  }

  /** The request once its temp is open: the body, then the end. */
  method Serve(sink: FsSink, base: nat, size: nat, final: bool, body: seq<BodyEvent>, tail: Option<seq<Byte>>, maxUpload: nat,
               ghost reach: Reach, ghost open: Action, ghost st0: State)
    returns (r: Response, ghost trace: seq<Action>)
    requires size <= maxUpload && open == Open(sink.sid, sink.mode, base, size, Payload(body, tail))
    requires Delivered(reach, [open], open, sink, base, size, Payload(body, tail), 0, false)
    requires (forall trace :: FromAt(reach, st0, trace)) && sink.sid !in st0.sinks
    requires OpenDisk(st0.disk, sink.sid, sink.mode).Some? && (sink.sid in st0.disk.temps ==> Canonical(st0.disk.Sidecar(sink.sid)))
    modifies sink, sink.store
    ensures sink.store.locked == old(sink.store.locked) - {sink.sid} && sink.sid !in sink.store.others
    ensures RequestOn(trace, sink.sid, open)
    ensures reach(trace) == sink.store.At()
    ensures Answered(r, sink.store.disk, sink.sid, base, Payload(body, tail), final, Sweep(sink.sid) in trace)
    ensures Publications(sink.store.log, sink.sid) ==
              Publications(old(sink.store.log), sink.sid) + if final && r.Created? then 1 else 0
    ensures Takes(sink.store.calm, size) ==> BodyReply(r, base, size, |Payload(body, tail)|, Verdict(body, tail), final)
    ensures Takes(sink.store.calm, size) && Roomy(base, size, |Payload(body, tail)|) && Verdict(body, tail).None? && final
            && Wired(st0) && Sweep(sink.sid) !in trace ==>
              Honoured(r, st0.disk, sink.sid, base, Payload(body, tail), size, sink.mode, sink.store.disk.target)
  {
    ghost var error, len, recorded;
    r, trace, error, len, recorded := ReceiveAndConclude(sink, base, size, final, body, tail, maxUpload, reach, open, st0);
    if error.None? && final && sink.store.calm && Wired(st0) && Sweep(sink.sid) !in trace {
      HeldHonoured(r, st0.disk, sink.sid, base, Payload(body, tail), size, sink.mode, sink.store.disk.target, len, recorded);
    }
  }

  /** The same, with the outcome of the body and what was in the temp. */
  method ReceiveAndConclude(sink: FsSink, base: nat, size: nat, final: bool, body: seq<BodyEvent>, tail: Option<seq<Byte>>,
                            maxUpload: nat, ghost reach: Reach, ghost open: Action, ghost st0: State)
    returns (r: Response, ghost trace: seq<Action>, ghost error: Option<ApiError>, ghost len: nat, ghost recorded: seq<Range>)
    requires size <= maxUpload && open == Open(sink.sid, sink.mode, base, size, Payload(body, tail))
    requires Delivered(reach, [open], open, sink, base, size, Payload(body, tail), 0, false)
    requires (forall trace :: FromAt(reach, st0, trace)) && sink.sid !in st0.sinks
    requires OpenDisk(st0.disk, sink.sid, sink.mode).Some? && (sink.sid in st0.disk.temps ==> Canonical(st0.disk.Sidecar(sink.sid)))
    modifies sink, sink.store
    ensures sink.store.locked == old(sink.store.locked) - {sink.sid} && sink.sid !in sink.store.others
    ensures RequestOn(trace, sink.sid, open)
    ensures reach(trace) == sink.store.At()
    ensures Answered(r, sink.store.disk, sink.sid, base, Payload(body, tail), final, Sweep(sink.sid) in trace)
    ensures Publications(sink.store.log, sink.sid) ==
              Publications(old(sink.store.log), sink.sid) + if final && r.Created? then 1 else 0
    ensures Takes(sink.store.calm, size) ==> Judged(error, base, size, |Payload(body, tail)|, Verdict(body, tail))
    ensures error.Some? ==> r == Failed(error.value)
    ensures error.None? && !final ==> r == Created
    ensures error.None? && final && sink.store.calm && Wired(st0) && Sweep(sink.sid) !in trace ==>
              && Held(st0.disk, sink.sid, base, Payload(body, tail), len, recorded)
              && CommitReply(r, len, recorded, size, sink.mode, sink.store.disk.target)
  {
    var e;
    ghost var sent, refused;
    e, trace, sent, refused, len, recorded := Receive(sink, base, size, body, tail, maxUpload, reach, open, st0);
    error := e;
    r, trace := Conclude(sink, size, final, e, reach, trace, open, base, Payload(body, tail), sent, refused);
  }

  /** The body, and what is then in the temp. */
  method Receive(sink: FsSink, base: nat, size: nat, body: seq<BodyEvent>, tail: Option<seq<Byte>>, maxUpload: nat,
                 ghost reach: Reach, ghost open: Action, ghost st0: State)
    returns (error: Option<ApiError>, ghost trace: seq<Action>, ghost sent: nat, ghost refused: bool,
             ghost len: nat, ghost recorded: seq<Range>)
    requires size <= maxUpload && open == Open(sink.sid, sink.mode, base, size, Payload(body, tail))
    requires Delivered(reach, [open], open, sink, base, size, Payload(body, tail), 0, false)
    requires (forall trace :: FromAt(reach, st0, trace)) && sink.sid !in st0.sinks
    requires OpenDisk(st0.disk, sink.sid, sink.mode).Some? && (sink.sid in st0.disk.temps ==> Canonical(st0.disk.Sidecar(sink.sid)))
    modifies sink, sink.store`disk, sink.store`others, sink.store`log
    ensures Publications(sink.store.log, sink.sid) == Publications(old(sink.store.log), sink.sid)
    ensures Delivered(reach, trace, open, sink, base, size, Payload(body, tail), sent, refused)
    ensures error.None? ==> sent == |Payload(body, tail)| && !refused
    ensures refused ==> error.Some? && error.value != Disconnected
    ensures error.Some? ==> error.value !in {AlreadyExists, CommitFailed}
    ensures Takes(sink.store.calm, size) ==> Judged(error, base, size, |Payload(body, tail)|, Verdict(body, tail))
    ensures error.None? ==> len == |sink.store.disk.inodes[sink.file]| && recorded == sink.ranges
    ensures error.None? && Wired(st0) && Sweep(sink.sid) !in trace ==>
              sink.sid in sink.store.disk.temps && Held(st0.disk, sink.sid, base, Payload(body, tail), len, recorded)
  {
    error, trace, sent, refused := WriteBody(sink, base, size, body, tail, maxUpload, reach, open);
    len, recorded := 0, [];
    if error.None? {
      len, recorded := |sink.store.disk.inodes[sink.file]|, sink.ranges;
      assert FromAt(reach, st0, trace);
      if Wired(st0) && Sweep(sink.sid) !in trace {
        BodyHeld(sink, base, size, Payload(body, tail), reach, open, trace, st0);
      }
    }
  }

  lemma Opening(st0: State, open: Action)
    requires open.Open?
    ensures Run(st0, [open]) == Next(st0, open) && RequestOn([open], open.sid, open)
  {
    assert [open][1..] == [] && [open][..0] == [];
  }

  /** The machine's first step: a refused open changes nothing, and any other adds the open request. */
  lemma OpenedIs(st0: State, open: Action)
    requires open.Open? && open.sid !in st0.sinks
    ensures match OpenDisk(st0.disk, open.sid, open.mode)
            case None => Run(st0, [open]) == st0
            case Some((d, file, ranges)) =>
              Run(st0, [open]) ==
              State(d, st0.sinks[open.sid := Sink(file, open.mode, open.base, open.size, open.body, 0, ranges)], st0.log)
  {
    Opening(st0, open);
  }

  /** How a request ends: a disconnect keeps the temp, any other failure discards it, success keeps or commits it. */
  method Conclude(sink: FsSink, size: nat, final: bool, error: Option<ApiError>,
                  ghost reach: Reach, ghost trace0: seq<Action>, ghost open: Action, ghost base: nat,
                  ghost payload: seq<Byte>, ghost sent: nat, ghost refused: bool)
    returns (r: Response, ghost trace: seq<Action>)
    requires Delivered(reach, trace0, open, sink, base, size, payload, sent, refused)
    requires error.None? ==> sent == |payload| && !refused
    requires refused ==> error.Some? && error.value != Disconnected
    requires error.Some? ==> error.value !in {AlreadyExists, CommitFailed}
    modifies sink.store`disk, sink.store`log, sink.store`locked
    ensures sink.store.locked == old(sink.store.locked) - {sink.sid} && sink.sid !in sink.store.others
    ensures RequestOn(trace, sink.sid, open)
    ensures reach(trace) == sink.store.At()
    ensures Answered(r, sink.store.disk, sink.sid, base, payload, final, Sweep(sink.sid) in trace)
    ensures sink.store.log == if final && r.Created? then old(sink.store.log) + [sink.sid] else old(sink.store.log)
    ensures error.Some? ==> r == Failed(error.value)
    ensures error.None? && !final ==> r == Created
    ensures error.None? && final && sink.store.calm && sink.sid in old(sink.store.disk).temps ==>
              CommitReply(r, |old(sink.store.disk.inodes[sink.file])|, sink.ranges, size, sink.mode, sink.store.disk.target)
    ensures forall a :: a in trace0 ==> a in trace
  {
    ghost var sid, store := sink.sid, sink.store;
    trace := trace0;
    if error.None? && final {
      r, trace := ConcludeCommit(sink, size, reach, trace0, open, base, payload);
      return;
    }
    if !refused {
      CloseTracks(reach, trace0, sid, sink.AsSink(base, size, payload, sent), store.others, store.disk, store.log);
    }
    ghost var close := if error.None? || error.value == Disconnected then Drop(sid) else Abort(sid);
    if error.Some? && error.value != Disconnected {
      sink.Abort();
    } else {
      sink.Release();
    }
    r := if error.Some? then Failed(error.value) else Created;
    if !refused { trace := trace0 + [close]; }
    OwnSnoc(trace0, sid, close);
  }

  /** A commit request whose whole body was delivered. */
  method ConcludeCommit(sink: FsSink, size: nat, ghost reach: Reach, ghost trace0: seq<Action>, ghost open: Action,
                        ghost base: nat, ghost payload: seq<Byte>)
    returns (r: Response, ghost trace: seq<Action>)
    requires Delivered(reach, trace0, open, sink, base, size, payload, |payload|, false)
    modifies sink.store`disk, sink.store`log, sink.store`locked
    ensures sink.store.locked == old(sink.store.locked) - {sink.sid} && sink.sid !in sink.store.others
    ensures RequestOn(trace, sink.sid, open)
    ensures reach(trace) == sink.store.At()
    ensures Answered(r, sink.store.disk, sink.sid, base, payload, true, Sweep(sink.sid) in trace)
    ensures sink.store.log == if r.Created? then old(sink.store.log) + [sink.sid] else old(sink.store.log)
    ensures sink.store.calm && sink.sid in old(sink.store.disk).temps ==>
              CommitReply(r, |old(sink.store.disk.inodes[sink.file])|, sink.ranges, size, sink.mode, sink.store.disk.target)
    ensures forall a :: a in trace0 ==> a in trace
  {
    ghost var sid, store := sink.sid, sink.store;
    CloseTracks(reach, trace0, sid, sink.AsSink(base, size, payload, |payload|), store.others, store.disk, store.log);
    r := CheckAndCommit(sink, size);
    ghost var close := if r == Failed(CommitFailed) then CommitStops(sid) else Commit(sid);
    trace := trace0 + [close];
    OwnSnoc(trace0, sid, close);
  }

  /** The status probe: creates the temp if there is none, and reports what its sidecar records. */
  method Probe(storage: FsStorage, sid: Sid, size: nat) returns (r: Response, ghost trace: seq<Action>)
    requires storage.Free(sid)
    modifies storage
    ensures storage.locked == old(storage.locked)
    ensures r == Status(storage.disk.Sidecar(sid)) && sid in storage.disk.temps
    ensures RequestOn(trace, sid, Open(sid, Overwrite, 0, size, []))
    ensures Run(old(storage.At()), trace) == storage.At()
  {
    ghost var st0, open := storage.At(), Open(sid, Overwrite, 0, size, []);
    ghost var reach := ReachFrom(st0);
    Opening(st0, open);
    assert FromAt(reach, st0, [open]);
    var sink := storage.WriteStreamSession(sid, Overwrite);
    var ranges := sink.ReceivedRanges();
    CloseTracks(reach, [open], sid, sink.AsSink(0, size, [], 0), storage.others, storage.disk, storage.log);
    sink.Release();
    OwnSnoc([open], sid, Drop(sid));
    assert FromAt(reach, st0, [open] + [Drop(sid)]);
    return Status(ranges), [open] + [Drop(sid)];
  }
}
