/**
 * The client's upload loop against the server, over a network that may lose, cut, delay or repeat
 * anything (crates/libfw-client/src/upload.rs and native/upload.rs).
 */
module UploadClient {
  import opened Wrappers
  import opened Bytes
  import opened Ranges
  import opened Plan
  import opened Session
  import opened SessionProofs
  import opened SessionRuns
  import opened TornWrites

  predicate By(actions: seq<Action>, writers: set<Sid>) {
    forall i :: 0 <= i < |actions| ==> actions[i].sid in writers
  }

  /** While a request of `sid` is open, others can only queue behind its guard, or sweep its temp. */
  predicate Spares(actions: seq<Action>, sid: Sid) {
    forall i :: 0 <= i < |actions| ==> actions[i].sid == sid ==> actions[i].Sweep? || actions[i].Open?
  }

  /** The publications between two states are all by `writers`. */
  ghost predicate Since(before: State, after: State, writers: set<Sid>) {
    before.log <= after.log && forall i :: |before.log| <= i < |after.log| ==> after.log[i] in writers
  }

  /** `sid` published something between the two states. */
  ghost predicate PublishedSince(before: State, after: State, sid: Sid) {
    exists i :: |before.log| <= i < |after.log| && after.log[i] == sid
  }

  lemma StepSince(st: State, a: Action, writers: set<Sid>)
    requires a.sid in writers
    ensures Since(st, Next(st, a), writers)
  {
  }

  lemma {:induction false} RunSince(st: State, actions: seq<Action>, writers: set<Sid>)
    requires By(actions, writers)
    ensures Since(st, Run(st, actions), writers)
    decreases |actions|
  {
    if actions != [] {
      StepSince(st, actions[0], writers);
      RunSince(Next(st, actions[0]), actions[1..], writers);
    }
  }

  lemma {:induction false} SparedSink(st: State, actions: seq<Action>, sid: Sid)
    requires sid in st.sinks && Spares(actions, sid)
    ensures sid in Run(st, actions).sinks && Run(st, actions).sinks[sid] == st.sinks[sid]
    decreases |actions|
  {
    if actions != [] {
      assert sid in Next(st, actions[0]).sinks && Next(st, actions[0]).sinks[sid] == st.sinks[sid];
      SparedSink(Next(st, actions[0]), actions[1..], sid);
    }
  }

  /** Every byte of the block is recorded for `sid`. */
  ghost predicate BlockIn(st: State, sid: Sid, block: Range) {
    forall x: nat :: block.Has(x) ==> Covers(st.disk.Sidecar(sid), x)
  }

  /** What belongs to `sid`, its record, its temp and its open request, is as before. */
  predicate SameSlot(st: State, st': State, sid: Sid) {
    && st'.disk.Sidecar(sid) == st.disk.Sidecar(sid) && (sid in st'.disk.temps <==> sid in st.disk.temps)
    && (sid in st'.sinks <==> sid in st.sinks) && (sid in st.sinks ==> st'.sinks[sid] == st.sinks[sid])
  }

  predicate AllOthers(actions: seq<Action>, sid: Sid) {
    forall i :: 0 <= i < |actions| ==> actions[i].sid != sid
  }

  lemma {:induction false} OthersKeep(st: State, actions: seq<Action>, sid: Sid)
    requires AllOthers(actions, sid)
    ensures SameSlot(st, Run(st, actions), sid)
    decreases |actions|
  {
    if actions != [] {
      GentleOther(st, actions[0], sid);
      OthersKeep(Next(st, actions[0]), actions[1..], sid);
    }
  }

  // ---------------------------------------------------------------------------
  // Faults
  // ---------------------------------------------------------------------------

  /**
   * What went wrong so far. A harm is a step of somebody else on our session, a write or a rename
   * that fails, or a request that waits behind a guard; a drop is a request that never arrives; a cut
   * is a body that ends early or an answer that is lost. `hits` counts the rounds, from one answered
   * probe to the next, in which any of these happened, and `now` says whether the present one is.
   */
  datatype Faults = Faults(hits: nat, now: bool, harms: nat, drops: nat, cuts: nat, lostProbes: nat, cancels: nat) {
    function Hit(): Faults { this.(hits := if now then hits else hits + 1, now := true) }
    function Harm(): Faults { Hit().(harms := harms + 1) }
    function Drop(): Faults { Hit().(drops := drops + 1) }
    function Cut(): Faults { Hit().(cuts := cuts + 1) }
    function Losses(): nat { drops + cuts }
    function Sum(): nat { harms + drops + cuts }

    /** None of these counts ever goes down. */
    predicate Later(f: Faults) {
      && f.hits <= hits && f.harms <= harms && f.drops <= drops && f.cuts <= cuts
      && f.lostProbes <= lostProbes && f.cancels <= cancels
    }

    /** `f`, and whatever has gone wrong since, in the same round. */
    predicate SameRound(f: Faults) {
      && Later(f) && lostProbes == f.lostProbes
      && (if Sum() == f.Sum() then hits == f.hits && now == f.now else now && hits == f.hits + if f.now then 0 else 1)
    }
  }

  datatype Reply = Lost | Rejected | Acked | Received(ranges: seq<Range>)

  /**
   * The server and everyone talking to it. Between any two steps of our request, other requests,
   * late or repeated requests of our own session, sweeps and commits may take place.
   */
  class Network {
    var st: State
    const src: Sources
    const sid: Sid
    const writers: set<Sid>
    const initial: Option<seq<Byte>>
    /** Requests may die between writing bytes and recording them. */
    const torn: bool
    ghost const holds: State -> bool
    ghost var faults: Faults
    ghost var probes: nat
    ghost var posts: nat
    ghost var commits: nat
    /** The bytes of all the blocks posted. */
    ghost var bytes: nat

    constructor (st: State, src: Sources, sid: Sid, writers: set<Sid>, initial: Option<seq<Byte>>, torn: bool)
      requires Inv(st, src) && Published(st, src, initial) && sid in writers
      requires if torn then AllHoley(st, src) && AllInvisible(src) else Whole(st, src)
      ensures Valid() && this.st == st && this.src == src && this.sid == sid
      ensures this.writers == writers && this.initial == initial && this.torn == torn
    {
      this.st, this.src, this.sid, this.writers, this.initial, this.torn := st, src, sid, writers, initial, torn;
      this.holds := s => Inv(s, src) && Published(s, src, initial) && if torn then AllHoley(s, src) else Whole(s, src);
      faults := Faults(0, false, 0, 0, 0, 0, 0);
      probes, posts, commits, bytes := 0, 0, 0, 0;
    }

    /** `holds` is the protocol's invariant, under a name of its own so that callers need not unfold it. */
    ghost predicate MeansAt(s: State) {
      holds(s) <==> Inv(s, src) && Published(s, src, initial) && if torn then AllHoley(s, src) else Whole(s, src)
    }

    ghost predicate Valid()
      reads this
    {
      holds(st) && sid in writers && (torn ==> AllInvisible(src)) && forall s :: MeansAt(s)
    }

    /** Our session's temp exists, no request of ours is open, and the file is not too large. */
    ghost predicate Ready()
      reads this
    {
      sid !in st.sinks && sid in st.disk.temps && |src(sid)| <= MAX_FILE
    }

    /** Every byte of the block, or of the file, is recorded. */
    ghost predicate HasBlock(block: Range)
      reads this
    {
      BlockIn(st, sid, block)
    }

    ghost predicate HasAll()
      reads this
    {
      forall x: nat :: x < |src(sid)| ==> Covers(st.disk.Sidecar(sid), x)
    }

    method Interfere(busy: bool)
      requires Valid() && (busy ==> sid in st.sinks)
      modifies this`st, this`faults
      ensures Valid() && Since(old(st), st, writers)
      ensures busy ==> sid in st.sinks && st.sinks[sid] == old(st.sinks[sid])
      ensures faults in {old(faults), old(faults).Harm()}
      ensures faults == old(faults) ==> SameSlot(old(st), st, sid)
    {
      var actions: seq<Action> := *;
      assert MeansAt(st);
      if AllHonest(actions, src) && (torn || NoneTorn(actions)) && By(actions, writers) && (busy ==> Spares(actions, sid)) {
        RunHolds(actions);
        RunSince(st, actions, writers);
        if busy { SparedSink(st, actions, sid); }
        if AllOthers(actions, sid) { OthersKeep(st, actions, sid); } else { faults := faults.Harm(); }
        st := Run(st, actions);
        assert MeansAt(st);
      }
    }

    lemma RunHolds(actions: seq<Action>)
      requires Valid() && AllHonest(actions, src) && (torn || NoneTorn(actions))
      ensures holds(Run(st, actions))
    {
      assert MeansAt(st) && MeansAt(Run(st, actions));
      if torn {
        AtomicWhenInvisible(st, actions, src, initial);
      } else {
        SidecarNeverLies(st, actions, src);
        Atomic(st, actions, src, initial);
      }
    }

    /** One step of our own request. */
    method Step(a: Action)
      requires Valid() && a.sid == sid && Honest(a, src) && (a.Torn? ==> torn)
      modifies this`st
      ensures Valid() && Since(old(st), st, writers) && st == Next(old(st), a)
    {
      var one := [a];
      assert one[1..] == [];
      assert Run(st, one) == Next(st, a);
      assert MeansAt(st);
      RunHolds(one);
      StepSince(st, a, writers);
      st := Next(st, a);
      assert MeansAt(st);
    }

    /** The body of our open request, slice by slice; `cut` when it ends before the last one. */
    method SendBody(length: nat) returns (cut: bool, reply: Reply)
      requires Valid() && sid in st.sinks
      modifies this`st, this`faults
      ensures Valid() && Since(old(st), st, writers)
      ensures cut ==> !reply.Acked?
      ensures faults.SameRound(old(faults)) && faults.drops == old(faults.drops) && faults.cancels == old(faults.cancels)
      ensures faults.harms == old(faults.harms) && old(Carrying(0, length)) ==>
                && SessionRuns.Grown(old(st), st, sid)
                && if cut then sid !in st.sinks && sid in st.disk.temps && faults.cuts > old(faults.cuts)
                   else Carrying(length, length) && st.sinks[sid].base == old(st.sinks[sid].base)
      ensures length == 0 ==> st == old(st) && faults == old(faults) && !cut
    {
      var left := length;
      while left > 0 && sid in st.sinks
        invariant Valid() && Since(old(st), st, writers)
        invariant 0 <= left <= length && (length == 0 ==> st == old(st) && faults == old(faults))
        invariant faults.SameRound(old(faults)) && faults.drops == old(faults.drops) && faults.cancels == old(faults.cancels)
        invariant faults.cuts == old(faults.cuts)
        invariant faults.harms == old(faults.harms) && old(Carrying(0, length)) ==>
                    && Carrying(length - left, length) && SessionRuns.Grown(old(st), st, sid)
                    && st.sinks[sid].base == old(st.sinks[sid].base)
      {
        Interfere(true);
        ghost var carrying := faults.harms == old(faults.harms) && old(Carrying(0, length));
        var over;
        over, left, reply := SendSlice(left, length, carrying);
        if over { return true, reply; }
      }
      return false, Lost;
    }

    /** The next slice of the body arrives, or the request ends here. */
    method SendSlice(left0: nat, ghost length: nat, ghost carrying: bool) returns (over: bool, left: nat, reply: Reply)
      requires Valid() && sid in st.sinks && 0 < left0 <= length && (carrying ==> Carrying(length - left0, length))
      modifies this`st, this`faults
      ensures Valid() && Since(old(st), st, writers) && !reply.Acked? && left < left0
      ensures faults.SameRound(old(faults)) && faults.drops == old(faults.drops) && faults.cancels == old(faults.cancels)
      ensures !over ==> faults.cuts == old(faults.cuts)
      ensures faults.harms == old(faults.harms) && carrying ==>
                && SessionRuns.Grown(old(st), st, sid)
                && if over then sid !in st.sinks && sid in st.disk.temps && faults.cuts > old(faults.cuts)
                   else Carrying(length - left, length) && st.sinks[sid].base == old(st.sinks[sid].base)
    {
      reply, left := Lost, 0;
      var broken: bool, failed: bool, died: bool, n: nat := *, *, *, *;
      if broken {
        faults := faults.Cut();
        Step(Drop(sid));
        return true, 0, Lost;
      }
      if failed {
        faults := faults.Harm();
        Step(Fail(sid, n));
        return true, 0, Rejected;
      }
      if !(0 < n <= left0) { n := left0; }
      ghost var before := st;
      if died && torn {
        faults := faults.Cut();
        Step(Torn(sid, n));
        if carrying { CarriedTorn(before, length - left0, n, length); }
        return true, 0, Lost;
      }
      Step(Slice(sid, n));
      if carrying { CarriedOn(before, length - left0, n, length); }
      left := left0 - n;
      over := false;
    }

    /** Our open request has delivered and recorded `sent` of its `length` bytes. */
    ghost predicate Carrying(sent: nat, length: nat)
      reads this
    {
      SessionRuns.SentRecorded(st, sid) && sid in st.sinks && st.sinks[sid].sent == sent && |st.sinks[sid].body| == length
    }

    lemma CarriedOn(before: State, sent: nat, n: nat, length: nat)
      requires holds(before) && sid in writers && (forall s :: MeansAt(s)) && st == Next(before, Slice(sid, n))
      requires n > 0 && sent + n <= length
      requires SessionRuns.SentRecorded(before, sid) && sid in before.sinks
      requires before.sinks[sid].sent == sent && |before.sinks[sid].body| == length
      ensures Carrying(sent + n, length) && SessionRuns.Grown(before, st, sid)
      ensures st.sinks[sid].base == before.sinks[sid].base
    {
      assert MeansAt(before) && SlotOk(before, sid, src(sid));
      GentleSlice(before, sid, n, src);
    }

    lemma CarriedTorn(before: State, sent: nat, n: nat, length: nat)
      requires holds(before) && sid in writers && (forall s :: MeansAt(s)) && st == Next(before, Torn(sid, n))
      requires n > 0 && sent + n <= length
      requires SessionRuns.SentRecorded(before, sid) && sid in before.sinks
      requires before.sinks[sid].sent == sent && |before.sinks[sid].body| == length
      ensures sid !in st.sinks && sid in st.disk.temps && SessionRuns.Grown(before, st, sid)
    {
      assert MeansAt(before) && SlotOk(before, sid, src(sid));
      GentleTorn(before, sid, n, src);
    }

    /** Our open request is a commit request whose whole file is recorded. */
    ghost predicate Full()
      reads this
    {
      && sid in st.disk.temps && sid in st.sinks && st.sinks[sid].mode == Overwrite && st.sinks[sid].size == |src(sid)|
      && forall x: nat :: x < |src(sid)| ==> Covers(st.sinks[sid].ranges, x)
    }

    /** The server's last step for our request, and its answer. */
    method Close(final: bool) returns (reply: Reply)
      requires Valid()
      modifies this`st, this`faults
      ensures Valid() && Since(old(st), st, writers)
      ensures final && reply.Acked? ==> PublishedSince(old(st), st, sid)
      ensures faults in {old(faults), old(faults).Harm(), old(faults).Harm().Harm()}
      ensures faults == old(faults) && sid in old(st.sinks) && !final ==>
                && reply.Acked? && sid !in st.sinks && st.disk.Sidecar(sid) == old(st.disk.Sidecar(sid))
                && (sid in st.disk.temps <==> sid in old(st.disk.temps))
      ensures faults == old(faults) && final && old(Full()) ==> reply.Acked?
    {
      if sid !in st.sinks { return Rejected; }
      Interfere(true);
      if !final {
        Step(Drop(sid));
        return Acked;
      }
      var count := |st.log|;
      var died: bool := *;
      if died {
        faults := faults.Harm();
        Step(CommitStops(sid));
      } else {
        if Full() { FullCommits(); }
        Step(Commit(sid));
      }
      if count < |st.log| {
        assert st.log[count] == sid;
        return Acked;
      }
      return Rejected;
    }

    /** A fully recorded temp passes the commit check. */
    lemma FullCommits()
      requires Valid() && Full()
      ensures Next(st, Commit(sid)).log == st.log + [sid]
    {
      assert MeansAt(st);
      FullSinkCommits(st, sid, src);
    }

    /**
     * One request: it may never arrive, be cut after any slice, fail, be answered, and the answer may
     * be lost. An acknowledged commit was published. While nobody harms the session, what was
     * recorded stays; a block is recorded and acknowledged unless the request, its body or the answer
     * was lost; and a fully recorded temp is published unless the request never arrived.
     */
    method Request(base: nat, body: seq<Byte>, final: bool) returns (reply: Reply)
      requires Valid() && HonestBody(base, body, src(sid))
      modifies this`st, this`faults
      ensures Valid() && Since(old(st), st, writers)
      ensures final && reply.Acked? ==> PublishedSince(old(st), st, sid)
      ensures faults.SameRound(old(faults)) && faults.cancels == old(faults.cancels)
      ensures faults.harms == old(faults.harms) && old(Ready()) && !final && base + |body| <= |src(sid)| ==>
                && Ready() && SessionRuns.Grown(old(st), st, sid)
                && if reply.Acked? then HasBlock(Range(base, base + |body|)) else faults.Losses() > old(faults).Losses()
      ensures final && base == |src(sid)| && body == [] && old(Ready() && HasAll()) ==>
                faults.harms == old(faults.harms) && faults.cuts == old(faults.cuts) ==>
                if reply.Acked? then faults.drops == old(faults.drops)
                else faults.drops == old(faults.drops) + 1 && Ready() && HasAll()
    {
      Interfere(false);
      var dropped: bool := *;
      if dropped {
        faults := faults.Drop();
        return Lost;
      }
      reply := Arrive(base, body, final);
    }

    /** A request that has arrived. */
    method Arrive(base: nat, body: seq<Byte>, final: bool) returns (reply: Reply)
      requires Valid() && HonestBody(base, body, src(sid))
      modifies this`st, this`faults
      ensures Valid() && Since(old(st), st, writers)
      ensures final && reply.Acked? ==> PublishedSince(old(st), st, sid)
      ensures faults.drops == old(faults.drops)
      ensures faults.SameRound(old(faults)) && faults.cancels == old(faults.cancels)
      ensures faults.harms == old(faults.harms) && old(Ready()) && !final && base + |body| <= |src(sid)| ==>
                && Ready() && SessionRuns.Grown(old(st), st, sid)
                && if reply.Acked? then HasBlock(Range(base, base + |body|)) else faults.Losses() > old(faults).Losses()
      ensures final && base == |src(sid)| && body == [] && old(Ready() && HasAll()) ==>
                faults.harms == old(faults.harms) && faults.cuts == old(faults.cuts) ==> reply.Acked?
    {
      if sid in st.sinks {  // still waiting for the guard when the client gives up
        faults := faults.Harm();
        return Lost;
      }
      reply := Serve(base, body, final);
      Interfere(false);
      var unanswered: bool := *;
      if unanswered {
        faults := faults.Cut();
        reply := Lost;
      }
    }

    /** A request that has got hold of the guard, from its open to its answer. */
    method Serve(base: nat, body: seq<Byte>, final: bool) returns (reply: Reply)
      requires Valid() && HonestBody(base, body, src(sid)) && sid !in st.sinks
      modifies this`st, this`faults
      ensures Valid() && Since(old(st), st, writers)
      ensures final && reply.Acked? ==> PublishedSince(old(st), st, sid)
      ensures faults.SameRound(old(faults)) && faults.cancels == old(faults.cancels) && faults.drops == old(faults.drops)
      ensures faults.harms == old(faults.harms) && old(Ready()) && !final && base + |body| <= |src(sid)| ==>
                && Ready() && SessionRuns.Grown(old(st), st, sid)
                && if reply.Acked? then HasBlock(Range(base, base + |body|)) else faults.cuts > old(faults.cuts)
      ensures faults.harms == old(faults.harms) && final && base == |src(sid)| && body == [] && old(Ready() && HasAll()) ==>
                reply.Acked?
    {
      ghost var before := st;
      Step(Open(sid, Overwrite, base, |src(sid)|, body));
      if sid !in st.sinks { return Rejected; }
      ghost var tidy := sid in before.disk.temps && |src(sid)| <= MAX_FILE && base + |body| <= |src(sid)|;
      if tidy { Opened(before, base, body); }
      reply := Attend(|body|, final);
    }

    /** An open request, to its answer. */
    method Attend(length: nat, final: bool) returns (reply: Reply)
      requires Valid() && sid in st.sinks
      modifies this`st, this`faults
      ensures Valid() && Since(old(st), st, writers)
      ensures final && reply.Acked? ==> PublishedSince(old(st), st, sid)
      ensures faults.SameRound(old(faults)) && faults.cancels == old(faults.cancels) && faults.drops == old(faults.drops)
      ensures faults.harms == old(faults.harms) && old(Carrying(0, length)) && !final ==>
                && sid !in st.sinks && sid in st.disk.temps && SessionRuns.Grown(old(st), st, sid)
                && if reply.Acked? then HasBlock(Range(old(st.sinks[sid].base), old(st.sinks[sid].base) + length))
                   else faults.cuts > old(faults.cuts)
      ensures faults.harms == old(faults.harms) && final && length == 0 && old(Full()) ==> reply.Acked?
    {
      var cut;
      cut, reply := SendBody(length);
      if cut { return; }
      ghost var carried := st;
      assert MeansAt(carried) && SlotOk(carried, sid, src(sid));
      reply := Close(final);
    }

    /** A request opened on a ready temp carries its block from the start. */
    lemma Opened(before: State, base: nat, body: seq<Byte>)
      requires sid !in before.sinks && sid in before.disk.temps && |src(sid)| <= MAX_FILE
      requires st == Next(before, Open(sid, Overwrite, base, |src(sid)|, body)) && base + |body| <= |src(sid)|
      ensures Carrying(0, |body|) && SessionRuns.Grown(before, st, sid) && st.sinks[sid].base == base
      ensures st.disk == before.disk && st.sinks[sid].ranges == before.disk.Sidecar(sid)
      ensures st.sinks[sid].mode == Overwrite && st.sinks[sid].size == |src(sid)|
    {
    }

    /**
     * The status probe, with which a new round begins. Its answer is what is recorded, and the temp is
     * ready, unless the new round has been hit already.
     */
    method Probe() returns (reply: Reply)
      requires Valid()
      modifies this`st, this`probes, this`faults
      ensures Valid() && Since(old(st), st, writers) && probes == old(probes) + 1
      ensures reply.Received? || reply.Lost?
      ensures reply.Received? ==> Canonical(reply.ranges) && Within(reply.ranges, |src(sid)|)
      ensures faults.Later(old(faults)) && faults.cancels == old(faults.cancels) && faults.Losses() == old(faults).Losses()
      ensures faults.lostProbes == old(faults.lostProbes) + if reply.Lost? then 1 else 0
      ensures reply.Received? && faults.now ==> faults.hits > old(faults.hits)
      ensures reply.Received? && !faults.now && |src(sid)| <= MAX_FILE ==> Ready() && reply.ranges == st.disk.Sidecar(sid)
      ensures reply.Received? && faults.harms == old(faults.harms) ==> !faults.now && faults.hits == old(faults.hits)
      ensures reply.Received? && faults.harms == old(faults.harms) && old(Ready()) ==>
                reply.ranges == st.disk.Sidecar(sid) == old(st.disk.Sidecar(sid))
    {
      probes := probes + 1;
      Interfere(false);
      var dropped: bool, unanswered: bool := *, *;
      if dropped || sid in st.sinks {
        faults := faults.(lostProbes := faults.lostProbes + 1);
        return Lost;
      }
      reply := Answer();
      if unanswered {
        faults := faults.(lostProbes := faults.lostProbes + 1);
        reply := Lost;
      }
    }

    /** A probe that has arrived is answered; then the new round has begun. */
    method Answer() returns (reply: Reply)
      requires Valid() && sid !in st.sinks
      modifies this`st, this`faults
      ensures Valid() && Since(old(st), st, writers)
      ensures reply.Received? && Canonical(reply.ranges) && Within(reply.ranges, |src(sid)|)
      ensures faults in {old(faults).(now := false), old(faults).(now := false).Harm()}
      ensures !faults.now ==> sid !in st.sinks && sid in st.disk.temps && reply.ranges == st.disk.Sidecar(sid)
      ensures sid in old(st.disk.temps) ==> reply.ranges == old(st.disk.Sidecar(sid))
    {
      var ranges := Status();
      reply := Received(ranges);
      faults := faults.(now := false);
      Interfere(false);
    }

    /** What the server does for a probe that arrives: it opens the temp, and reports what is recorded. */
    method Status() returns (ranges: seq<Range>)
      requires Valid() && sid !in st.sinks
      modifies this`st
      ensures Valid() && Since(old(st), st, writers)
      ensures sid !in st.sinks && sid in st.disk.temps && ranges == st.disk.Sidecar(sid)
      ensures Canonical(ranges) && Within(ranges, |src(sid)|)
      ensures sid in old(st.disk.temps) ==> ranges == old(st.disk.Sidecar(sid))
    {
      Step(Open(sid, Overwrite, 0, |src(sid)|, []));
      assert MeansAt(st) && SlotOk(st, sid, src(sid));
      ranges := st.sinks[sid].ranges;
      Step(Drop(sid));
    }

    /** Whether the client is cancelled here, or cannot read the local file. */
    method Cancels() returns (cancelled: bool)
      modifies this`faults
      ensures faults == if cancelled then old(faults).(cancels := old(faults.cancels) + 1) else old(faults)
    {
      cancelled := *;
      if cancelled { faults := faults.(cancels := faults.cancels + 1); }
    }
  }

  // ---------------------------------------------------------------------------
  // The client
  // ---------------------------------------------------------------------------

  datatype Outcome = Done(uploaded: nat) | Error

  datatype Task = Task(block: Range, attempts: nat)

  /** n times a budget: n * each, kept linear for the verifier. */
  function Times(n: nat, each: nat): nat { if n == 0 then 0 else Times(n - 1, each) + each }

  lemma {:induction false} TimesIsProduct(n: nat, each: nat)
    ensures Times(n, each) == n * each
  {
    if n > 0 {
      TimesIsProduct(n - 1, each);
      assert (n - 1) * each + each == n * each;
    }
  }

  lemma {:induction false} TimesMono(a: nat, b: nat, each: nat)
    requires a <= b
    ensures Times(a, each) <= Times(b, each)
  {
    if a < b { TimesMono(a, b - 1, each); }
  }

  lemma {:induction false} TimesSplit(a: nat, b: nat, each: nat)
    ensures Times(a + b, each) == Times(a, each) + Times(b, each)
  {
    if b > 0 { TimesSplit(a, b - 1, each); }
  }

  function Work(tasks: seq<Task>, maxRetries: nat): nat {
    if tasks == [] then 0
    else (if tasks[0].attempts <= maxRetries then maxRetries + 1 - tasks[0].attempts else 0) + Work(tasks[1..], maxRetries)
  }

  lemma {:induction false} WorkSplit(a: seq<Task>, b: seq<Task>, maxRetries: nat)
    ensures Work(a + b, maxRetries) == Work(a, maxRetries) + Work(b, maxRetries)
  {
    if a == [] {
      assert a + b == b;
    } else {
      assert (a + b)[1..] == a[1..] + b;
      WorkSplit(a[1..], b, maxRetries);
    }
  }

  lemma WorkAt(tasks: seq<Task>, i: nat, maxRetries: nat)
    requires i < |tasks| && tasks[i].attempts <= maxRetries
    ensures Work(tasks[..i] + tasks[i + 1..], maxRetries) < Work(tasks, maxRetries)
    ensures Work(tasks[i := tasks[i].(attempts := tasks[i].attempts + 1)], maxRetries) == Work(tasks, maxRetries) - 1
  {
    var pre, t, post := tasks[..i], tasks[i], tasks[i + 1..];
    var t' := t.(attempts := t.attempts + 1);
    assert tasks == pre + ([t] + post);
    assert tasks[i := t'] == pre + ([t'] + post);
    WorkSplit(pre, [t] + post, maxRetries);
    WorkSplit(pre, [t'] + post, maxRetries);
    WorkSplit(pre, post, maxRetries);
    assert ([t] + post)[1..] == post && ([t'] + post)[1..] == post;
  }

  /** The work list of one batch, no block attempted yet. */
  function Tasks(batch: seq<Range>): seq<Task> {
    if batch == [] then [] else [Task(batch[0], 0)] + Tasks(batch[1..])
  }

  lemma {:induction false} FreshWork(batch: seq<Range>, maxRetries: nat)
    ensures Work(Tasks(batch), maxRetries) == Times(|batch|, maxRetries + 1)
    ensures |Tasks(batch)| == |batch|
  {
    if batch != [] {
      FreshWork(batch[1..], maxRetries);
      assert Tasks(batch)[1..] == Tasks(batch[1..]);
    }
  }

  /** What is left of a work list: not out of attempts, and inside the file. */
  ghost predicate Pending(tasks: seq<Task>, maxRetries: nat, size: nat) {
    forall i :: 0 <= i < |tasks| ==> tasks[i].attempts <= maxRetries && tasks[i].block.start <= tasks[i].block.end <= size
  }

  lemma {:induction false} FreshPending(batch: seq<Range>, maxRetries: nat, size: nat)
    requires Within(batch, size) && AllNonEmpty(batch)
    ensures Pending(Tasks(batch), maxRetries, size)
  {
    if batch != [] {
      FreshPending(batch[1..], maxRetries, size);
    }
  }

  /** No block has been attempted more often than there were losses. */
  ghost predicate Spent(tasks: seq<Task>, losses: int) {
    forall i :: 0 <= i < |tasks| ==> tasks[i].attempts <= losses
  }

  lemma {:induction false} FreshSpent(batch: seq<Range>)
    ensures Spent(Tasks(batch), 0)
  {
    if batch != [] { FreshSpent(batch[1..]); }
  }

  /** The bytes of the blocks still to be sent. */
  function Load(tasks: seq<Task>): nat {
    if tasks == [] then 0 else tasks[0].block.Len() + Load(tasks[1..])
  }

  lemma {:induction false} LoadSplit(a: seq<Task>, b: seq<Task>)
    ensures Load(a + b) == Load(a) + Load(b)
  {
    if a == [] {
      assert a + b == b;
    } else {
      assert (a + b)[1..] == a[1..] + b;
      LoadSplit(a[1..], b);
    }
  }

  lemma LoadAt(tasks: seq<Task>, i: nat)
    requires i < |tasks|
    ensures Load(tasks[..i] + tasks[i + 1..]) + tasks[i].block.Len() == Load(tasks)
  {
    var pre, t, post := tasks[..i], tasks[i], tasks[i + 1..];
    assert tasks == pre + ([t] + post);
    LoadSplit(pre, [t] + post);
    LoadSplit(pre, post);
    assert ([t] + post)[1..] == post;
  }

  lemma {:induction false} FreshLoad(batch: seq<Range>)
    ensures Load(Tasks(batch)) == Total(batch)
  {
    if batch != [] {
      FreshLoad(batch[1..]);
      assert Tasks(batch)[1..] == Tasks(batch[1..]);
    }
  }

  /**
   * One batch of blocks in flight at once (`upload_one_chunk` under `buffer_unordered`): attempts of
   * different blocks interleave in any order, each block retried on its own. While nobody harms the
   * session or cancels, as many requests, bodies and answers may be lost as there are retries.
   */
  method SendBatch(net: Network, batch: seq<Range>, maxRetries: nat) returns (errors: nat)
    requires net.Valid() && Within(batch, |net.src(net.sid)|) && AllNonEmpty(batch)
    modifies net`st, net`posts, net`bytes, net`faults
    ensures net.Valid() && Since(old(net.st), net.st, net.writers)
    ensures net.posts <= old(net.posts) + Times(|batch|, maxRetries + 1)
    ensures errors <= |batch| && net.faults.SameRound(old(net.faults))
    ensures old(net.Ready()) && Unharmed(old(net.faults), net.faults) ==>
              && net.Ready() && SessionRuns.Grown(old(net.st), net.st, net.sid)
              && (net.faults.Losses() <= old(net.faults).Losses() + maxRetries ==> errors == 0 && AllIn(net.st, net.sid, batch))
              && (net.faults.Losses() == old(net.faults).Losses() ==> net.bytes == old(net.bytes) + Total(batch))
  {
    var tasks := Tasks(batch);
    FreshTasks(net.st, net.sid, batch, maxRetries, |net.src(net.sid)|);
    ghost var budget, losses := net.posts + Times(|batch|, maxRetries + 1), net.faults.Losses();
    errors := 0;
    while tasks != []
      invariant net.Valid() && Since(old(net.st), net.st, net.writers)
      invariant Pending(tasks, maxRetries, |net.src(net.sid)|)
      invariant net.posts + Work(tasks, maxRetries) <= budget
      invariant errors + |tasks| <= |batch| && net.faults.SameRound(old(net.faults))
      invariant old(net.Ready()) && Unharmed(old(net.faults), net.faults) ==>
                  && net.Ready() && SessionRuns.Grown(old(net.st), net.st, net.sid)
                  && Spent(tasks, net.faults.Losses() - losses)
                  && (net.faults.Losses() <= losses + maxRetries ==> errors == 0 && Progress(net.st, net.sid, batch, tasks))
                  && (net.faults.Losses() == losses ==> net.bytes + Load(tasks) == old(net.bytes) + Total(batch))
      decreases Work(tasks, maxRetries)
    {
      var i: nat := *;
      if !(0 <= i < |tasks|) { i := 0; }
      var failed;
      tasks, failed := TryTask(net, batch, tasks, i, maxRetries, losses);
      errors := errors + failed;
    }
  }

  /** Nobody harmed the session or cancelled. */
  predicate Unharmed(before: Faults, after: Faults) {
    after.harms == before.harms && after.cancels == before.cancels
  }

  lemma FreshTasks(st: State, sid: Sid, batch: seq<Range>, maxRetries: nat, size: nat)
    requires Within(batch, size) && AllNonEmpty(batch)
    ensures Work(Tasks(batch), maxRetries) == Times(|batch|, maxRetries + 1) && |Tasks(batch)| == |batch|
    ensures Pending(Tasks(batch), maxRetries, size) && Spent(Tasks(batch), 0)
    ensures Progress(st, sid, batch, Tasks(batch)) && Load(Tasks(batch)) == Total(batch)
  {
    FreshProgress(st, sid, batch);
    FreshWork(batch, maxRetries);
    FreshPending(batch, maxRetries, size);
    FreshSpent(batch);
    FreshLoad(batch);
  }

  /** One attempt at one of the blocks; it stays in flight until acknowledged or out of attempts. */
  method TryTask(net: Network, ghost batch: seq<Range>, tasks: seq<Task>, i: nat, maxRetries: nat, ghost losses: nat)
    returns (tasks': seq<Task>, errors: nat)
    requires net.Valid() && i < |tasks| && Pending(tasks, maxRetries, |net.src(net.sid)|)
    requires losses <= net.faults.Losses()
    modifies net`st, net`posts, net`bytes, net`faults
    ensures net.Valid() && Since(old(net.st), net.st, net.writers)
    ensures Pending(tasks', maxRetries, |net.src(net.sid)|)
    ensures Work(tasks', maxRetries) < Work(tasks, maxRetries)
    ensures net.posts + Work(tasks', maxRetries) <= old(net.posts) + Work(tasks, maxRetries)
    ensures errors + |tasks'| <= |tasks| && net.faults.SameRound(old(net.faults))
    ensures old(net.Ready()) && Unharmed(old(net.faults), net.faults) ==>
              && net.Ready() && SessionRuns.Grown(old(net.st), net.st, net.sid)
              && (net.faults.Losses() == old(net.faults).Losses() ==> net.bytes + Load(tasks') == old(net.bytes) + Load(tasks))
              && (Spent(tasks, old(net.faults).Losses() - losses) ==>
                    && Spent(tasks', net.faults.Losses() - losses)
                    && (net.faults.Losses() <= losses + maxRetries ==>
                          errors == 0 && (Progress(old(net.st), net.sid, batch, tasks) ==> Progress(net.st, net.sid, batch, tasks'))))
  {
    var task := tasks[i];
    assert task.attempts <= maxRetries;
    ghost var before := net.st;
    var unreadable, acked := TryBlock(net, task.block);
    errors := if unreadable || (!acked && task.attempts >= maxRetries) then 1 else 0;
    var gone := acked || unreadable || task.attempts >= maxRetries;
    tasks' := Settle(tasks, i, gone);
    SettleCounts(tasks, i, gone, maxRetries, |net.src(net.sid)|);
    if old(net.Ready()) && Unharmed(old(net.faults), net.faults) && Spent(tasks, old(net.faults).Losses() - losses) {
      TaskSettled(before, net.st, net.sid, batch, tasks, i, acked, gone, old(net.faults).Losses() - losses,
                  net.faults.Losses() - losses, maxRetries);
    }
  }

  /** The attempt itself, unless the client is cancelled or cannot read the local file. */
  method TryBlock(net: Network, block: Range) returns (unreadable: bool, acked: bool)
    requires net.Valid() && block.start <= block.end <= |net.src(net.sid)|
    modifies net`st, net`posts, net`bytes, net`faults
    ensures net.Valid() && Since(old(net.st), net.st, net.writers)
    ensures net.posts <= old(net.posts) + 1 && net.faults.SameRound(old(net.faults))
    ensures unreadable ==> !acked && net.faults.cancels > old(net.faults.cancels)
    ensures old(net.Ready()) && Unharmed(old(net.faults), net.faults) ==>
              && net.Ready() && SessionRuns.Grown(old(net.st), net.st, net.sid)
              && net.bytes == old(net.bytes) + block.Len()
              && if acked then BlockIn(net.st, net.sid, block) else net.faults.Losses() > old(net.faults).Losses()
  {
    acked := false;
    unreadable := net.Cancels();
    if !unreadable { acked := PostBlock(net, block); }
  }

  /** What settling a task does to the work left, and to the bytes left. */
  lemma SettleCounts(tasks: seq<Task>, i: nat, gone: bool, maxRetries: nat, size: nat)
    requires i < |tasks| && Pending(tasks, maxRetries, size) && (!gone ==> tasks[i].attempts < maxRetries)
    ensures Pending(Settle(tasks, i, gone), maxRetries, size)
    ensures Work(Settle(tasks, i, gone), maxRetries) < Work(tasks, maxRetries)
    ensures |Settle(tasks, i, gone)| == |tasks| - if gone then 1 else 0
    ensures gone ==> Load(Settle(tasks, i, gone)) + tasks[i].block.Len() == Load(tasks)
  {
    WorkAt(tasks, i, maxRetries);
    LoadAt(tasks, i);
  }

  /** A task is taken off the list, or tried once more. */
  function Settle(tasks: seq<Task>, i: nat, gone: bool): seq<Task>
    requires i < |tasks|
  {
    if gone then tasks[..i] + tasks[i + 1..] else tasks[i := tasks[i].(attempts := tasks[i].attempts + 1)]
  }

  /** While there are no more losses than retries, a task is taken off the list only once it is recorded. */
  lemma TaskSettled(st: State, st': State, sid: Sid, batch: seq<Range>, tasks: seq<Task>, i: nat, acked: bool, gone: bool,
                    losses: int, losses': int, maxRetries: nat)
    requires i < |tasks| && SessionRuns.Grown(st, st', sid) && Spent(tasks, losses) && losses <= losses'
    requires gone <==> acked || tasks[i].attempts >= maxRetries
    requires if acked then BlockIn(st', sid, tasks[i].block) else losses < losses'
    ensures Spent(Settle(tasks, i, gone), losses')
    ensures losses' <= maxRetries ==>
              (acked || !gone) && (Progress(st, sid, batch, tasks) ==> Progress(st', sid, batch, Settle(tasks, i, gone)))
  {
    assert tasks[i].attempts <= losses;
    if Progress(st, sid, batch, tasks) {
      if acked { ProgressStep(st, st', sid, batch, tasks, i); }
      if !gone { ProgressRetry(st, st', sid, batch, tasks, i); }
    }
  }

  ghost predicate AllIn(st: State, sid: Sid, blocks: seq<Range>) {
    forall i :: 0 <= i < |blocks| ==> BlockIn(st, sid, blocks[i])
  }

  ghost predicate Left(tasks: seq<Task>, block: Range) {
    exists k :: 0 <= k < |tasks| && tasks[k].block == block
  }

  /** Each block of the batch is recorded, or still to be sent. */
  ghost predicate Progress(st: State, sid: Sid, batch: seq<Range>, tasks: seq<Task>) {
    forall i :: 0 <= i < |batch| ==> BlockIn(st, sid, batch[i]) || Left(tasks, batch[i])
  }

  lemma {:induction false} TaskAt(batch: seq<Range>, i: nat)
    requires i < |batch|
    ensures |Tasks(batch)| == |batch| && Tasks(batch)[i].block == batch[i]
    decreases |batch|
  {
    if i > 0 { TaskAt(batch[1..], i - 1); } else if |batch| > 1 { TaskAt(batch[1..], 0); }
  }

  lemma FreshProgress(st: State, sid: Sid, batch: seq<Range>)
    ensures Progress(st, sid, batch, Tasks(batch))
  {
    forall i | 0 <= i < |batch|
      ensures Left(Tasks(batch), batch[i])
    {
      TaskAt(batch, i);
    }
  }

  lemma StaysIn(st: State, st': State, sid: Sid, block: Range)
    requires SessionRuns.Grown(st, st', sid) && BlockIn(st, sid, block)
    ensures BlockIn(st', sid, block)
  {
  }

  lemma ProgressStep(st: State, st': State, sid: Sid, batch: seq<Range>, tasks: seq<Task>, i: nat)
    requires Progress(st, sid, batch, tasks) && i < |tasks|
    requires SessionRuns.Grown(st, st', sid) && BlockIn(st', sid, tasks[i].block)
    ensures Progress(st', sid, batch, tasks[..i] + tasks[i + 1..])
  {
    var rest := tasks[..i] + tasks[i + 1..];
    forall j | 0 <= j < |batch|
      ensures BlockIn(st', sid, batch[j]) || Left(rest, batch[j])
    {
      if BlockIn(st, sid, batch[j]) {
        StaysIn(st, st', sid, batch[j]);
      } else {
        var k :| 0 <= k < |tasks| && tasks[k].block == batch[j];
        if k != i { assert rest[if k < i then k else k - 1] == tasks[k]; }
      }
    }
  }

  lemma ProgressRetry(st: State, st': State, sid: Sid, batch: seq<Range>, tasks: seq<Task>, i: nat)
    requires Progress(st, sid, batch, tasks) && i < |tasks| && SessionRuns.Grown(st, st', sid)
    ensures Progress(st', sid, batch, tasks[i := tasks[i].(attempts := tasks[i].attempts + 1)])
  {
    var again := tasks[i := tasks[i].(attempts := tasks[i].attempts + 1)];
    forall j | 0 <= j < |batch|
      ensures BlockIn(st', sid, batch[j]) || Left(again, batch[j])
    {
      if BlockIn(st, sid, batch[j]) {
        StaysIn(st, st', sid, batch[j]);
      } else {
        var k :| 0 <= k < |tasks| && tasks[k].block == batch[j];
        assert again[k].block == batch[j];
      }
    }
  }

  /** One attempt at one block. */
  method PostBlock(net: Network, block: Range) returns (acked: bool)
    requires net.Valid() && block.start <= block.end <= |net.src(net.sid)|
    modifies net`st, net`posts, net`bytes, net`faults
    ensures net.Valid() && Since(old(net.st), net.st, net.writers)
    ensures net.posts == old(net.posts) + 1 && net.bytes == old(net.bytes) + block.Len()
    ensures net.faults.SameRound(old(net.faults)) && net.faults.cancels == old(net.faults.cancels)
    ensures net.faults.harms == old(net.faults.harms) && old(net.Ready()) ==>
              && net.Ready() && SessionRuns.Grown(old(net.st), net.st, net.sid)
              && if acked then BlockIn(net.st, net.sid, block) else net.faults.Losses() > old(net.faults).Losses()
  {
    var source := net.src(net.sid);
    BlockIsHonest(block, source);
    var reply := net.Request(block.start, source[block.start..block.end], false);
    net.posts := net.posts + 1;
    net.bytes := net.bytes + block.Len();
    acked := reply.Acked?;
  }

  lemma BlockIsHonest(block: Range, source: seq<Byte>)
    requires block.start <= block.end <= |source|
    ensures HonestBody(block.start, source[block.start..block.end], source)
  {
  }

  /**
   * `commit_upload`: the commit request, retried up to `retries` times (0 in the native client). With
   * everything recorded it fails only when something else happens than a lost request, or when every
   * one of the attempts was lost.
   */
  method CommitUpload(net: Network, retries: nat) returns (ok: bool)
    requires net.Valid()
    modifies net`st, net`commits, net`faults
    ensures net.Valid() && Since(old(net.st), net.st, net.writers)
    ensures ok ==> PublishedSince(old(net.st), net.st, net.sid)
    ensures net.commits <= old(net.commits) + retries + 1
    ensures net.faults.SameRound(old(net.faults)) && net.faults.cancels == old(net.faults.cancels)
    ensures old(net.Ready() && net.HasAll()) && Uncut(old(net.faults), net.faults) ==>
              if ok then net.faults.drops <= old(net.faults.drops) + retries
              else net.faults.drops == old(net.faults.drops) + retries + 1 && net.Ready() && net.HasAll()
  {
    var attempts := 0;
    while true
      invariant net.Valid() && Since(old(net.st), net.st, net.writers)
      invariant attempts <= retries && net.commits == old(net.commits) + attempts
      invariant net.faults.SameRound(old(net.faults)) && net.faults.cancels == old(net.faults.cancels)
      invariant old(net.Ready() && net.HasAll()) && Uncut(old(net.faults), net.faults) ==>
                  net.faults.drops == old(net.faults.drops) + attempts && net.Ready() && net.HasAll()
      decreases retries - attempts
    {
      var reply := net.Request(|net.src(net.sid)|, [], true);
      net.commits := net.commits + 1;
      if reply.Acked? { return true; }
      if attempts >= retries { return false; }
      attempts := attempts + 1;
    }
  }

  /** Nothing but lost requests. */
  predicate Uncut(before: Faults, after: Faults) {
    Unharmed(before, after) && after.cuts == before.cuts
  }

  /** The blocks to send never outnumber the bytes of the file. */
  lemma {:induction false} FewBlocks(blocks: seq<Range>, lo: nat, hi: nat)
    requires Ordered(blocks) && Within(blocks, hi) && lo <= hi
    requires forall i :: 0 <= i < |blocks| ==> lo <= blocks[i].start
    ensures |blocks| <= hi - lo
  {
    if blocks != [] {
      FewBlocks(blocks[1..], blocks[0].end, hi);
    }
  }

  /** All the missing blocks of one round, in batches of the current window; without losses each is posted once. */
  method SendMissing(net: Network, missing: seq<Range>, maxRetries: nat) returns (errors: nat)
    requires net.Valid() && Ordered(missing) && Within(missing, |net.src(net.sid)|)
    modifies net`st, net`posts, net`bytes, net`faults
    ensures net.Valid() && Since(old(net.st), net.st, net.writers)
    ensures net.posts <= old(net.posts) + Times(|missing|, maxRetries + 1)
    ensures errors <= |missing| && net.faults.SameRound(old(net.faults))
    ensures old(net.Ready()) && Unharmed(old(net.faults), net.faults) ==>
              && net.Ready() && SessionRuns.Grown(old(net.st), net.st, net.sid)
              && (net.faults.Losses() <= old(net.faults).Losses() + maxRetries ==> AllIn(net.st, net.sid, missing))
              && (net.faults.Losses() == old(net.faults).Losses() ==> net.bytes == old(net.bytes) + Total(missing))
  {
    var done: nat := 0;
    errors := 0;
    while done < |missing|
      invariant net.Valid() && Since(old(net.st), net.st, net.writers)
      invariant errors <= done <= |missing| && net.faults.SameRound(old(net.faults))
      invariant old(net.Ready()) && Unharmed(old(net.faults), net.faults) ==>
                  && net.Ready() && SessionRuns.Grown(old(net.st), net.st, net.sid)
                  && (net.faults.Losses() <= old(net.faults).Losses() + maxRetries ==> AllIn(net.st, net.sid, missing[..done]))
                  && (net.faults.Losses() == old(net.faults).Losses() ==> net.bytes == old(net.bytes) + Total(missing[..done]))
      invariant net.posts + Times(|missing| - done, maxRetries + 1) <= old(net.posts) + Times(|missing|, maxRetries + 1)
    {
      ghost var before := done;
      var failed;
      failed, done := NextBatch(net, missing, done, maxRetries);
      TimesSplit(done - before, |missing| - done, maxRetries + 1);
      errors := errors + failed;
    }
    assert missing[..|missing|] == missing;
  }

  /** As many of the missing blocks as the window takes. */
  method NextBatch(net: Network, missing: seq<Range>, done: nat, maxRetries: nat) returns (failed: nat, done': nat)
    requires net.Valid() && Ordered(missing) && Within(missing, |net.src(net.sid)|) && done < |missing|
    modifies net`st, net`posts, net`bytes, net`faults
    ensures net.Valid() && Since(old(net.st), net.st, net.writers)
    ensures done < done' <= |missing| && failed <= done' - done && net.faults.SameRound(old(net.faults))
    ensures net.posts <= old(net.posts) + Times(done' - done, maxRetries + 1)
    ensures old(net.Ready()) && Unharmed(old(net.faults), net.faults) ==>
              && net.Ready() && SessionRuns.Grown(old(net.st), net.st, net.sid)
              && (net.faults.Losses() <= old(net.faults).Losses() + maxRetries && AllIn(old(net.st), net.sid, missing[..done]) ==>
                    AllIn(net.st, net.sid, missing[..done']))
              && (net.faults.Losses() == old(net.faults).Losses() ==>
                    net.bytes == old(net.bytes) + Total(missing[..done']) - Total(missing[..done]))
  {
    var window: nat := *;  // `upload_window` may have been retuned since the last batch
    var n := Min(|missing| - done, Max(window, 1));
    var batch := missing[done..done + n];
    ghost var before := net.st;
    BatchOf(missing, done, n, |net.src(net.sid)|);
    failed := SendBatch(net, batch, maxRetries);
    done' := done + n;
    if AllIn(before, net.sid, missing[..done]) && SessionRuns.Grown(before, net.st, net.sid) && AllIn(net.st, net.sid, batch) {
      MoreIn(before, net.st, net.sid, missing, done, n);
    }
  }

  lemma {:induction false} TotalSplit(missing: seq<Range>, done: nat, n: nat)
    requires done + n <= |missing|
    ensures Total(missing[..done + n]) == Total(missing[..done]) + Total(missing[done..done + n])
    decreases done
  {
    if done > 0 {
      TotalSplit(missing[1..], done - 1, n);
      assert missing[..done][1..] == missing[1..][..done - 1];
      assert missing[..done + n][1..] == missing[1..][..done - 1 + n];
      assert missing[done..done + n] == missing[1..][done - 1..done - 1 + n];
    }
  }

  lemma BatchOf(missing: seq<Range>, done: nat, n: nat, size: nat)
    requires Ordered(missing) && Within(missing, size) && done + n <= |missing|
    ensures Within(missing[done..done + n], size) && AllNonEmpty(missing[done..done + n])
    ensures Total(missing[..done + n]) == Total(missing[..done]) + Total(missing[done..done + n])
  {
    TotalSplit(missing, done, n);
  }

  lemma MoreIn(st: State, st': State, sid: Sid, missing: seq<Range>, done: nat, n: nat)
    requires done + n <= |missing| && SessionRuns.Grown(st, st', sid)
    requires AllIn(st, sid, missing[..done]) && AllIn(st', sid, missing[done..done + n])
    ensures AllIn(st', sid, missing[..done + n])
  {
    forall i | 0 <= i < done + n
      ensures BlockIn(st', sid, missing[i])
    {
      if i < done {
        assert missing[..done][i] == missing[i];
        StaysIn(st, st', sid, missing[i]);
      } else {
        assert missing[done..done + n][i - done] == missing[i];
      }
    }
  }

  /** Every byte of the file is recorded, or listed as missing. */
  ghost predicate Leaves(st: State, sid: Sid, size: nat, missing: seq<Range>) {
    forall x: nat :: x < size ==> Covers(st.disk.Sidecar(sid), x) || Covers(missing, x)
  }

  /** Recorded before, or missing and now sent: every byte is recorded. */
  lemma NothingMissing(st: State, st': State, sid: Sid, size: nat, missing: seq<Range>)
    requires SessionRuns.Grown(st, st', sid) && AllIn(st', sid, missing)
    requires Leaves(st, sid, size, missing)
    ensures forall x: nat :: x < size ==> Covers(st'.disk.Sidecar(sid), x)
  {
    forall x: nat | x < size
      ensures Covers(st'.disk.Sidecar(sid), x)
    {
      if !Covers(st.disk.Sidecar(sid), x) {
        var i :| 0 <= i < |missing| && missing[i].Has(x);
        assert BlockIn(st', sid, missing[i]);
      }
    }
  }

  /**
   * Send the missing blocks of one round, then commit. It fails only when something else happens than
   * a few lost requests; when just the commit requests were lost, everything is recorded.
   */
  method Round(net: Network, missing: seq<Range>, maxRetries: nat, commitRetries: nat) returns (ok: bool)
    requires net.Valid() && Ordered(missing) && Within(missing, |net.src(net.sid)|)
    modifies net`st, net`posts, net`bytes, net`commits, net`faults
    ensures net.Valid() && Since(old(net.st), net.st, net.writers)
    ensures ok ==> PublishedSince(old(net.st), net.st, net.sid)
    ensures net.commits <= old(net.commits) + (commitRetries + 1)
    ensures net.posts <= old(net.posts) + Times(|net.src(net.sid)|, maxRetries + 1)
    ensures net.faults.SameRound(old(net.faults))
    ensures old(net.Ready()) && Leaves(old(net.st), net.sid, |net.src(net.sid)|, missing)
            && Uncut(old(net.faults), net.faults) && net.faults.drops <= old(net.faults.drops) + Min(maxRetries, commitRetries + 1) ==>
              ok || (net.faults.drops == old(net.faults.drops) + commitRetries + 1 && net.Ready() && net.HasAll())
    ensures old(net.Ready()) && Unharmed(old(net.faults), net.faults) && net.faults.Losses() == old(net.faults).Losses() ==>
              net.bytes == old(net.bytes) + Total(missing)
  {
    FewBlocks(missing, 0, |net.src(net.sid)|);
    TimesMono(|missing|, |net.src(net.sid)|, maxRetries + 1);
    var errors := SendMissing(net, missing, maxRetries);
    ghost var sent := net.st;
    if SessionRuns.Grown(old(net.st), sent, net.sid) && AllIn(sent, net.sid, missing)
       && Leaves(old(net.st), net.sid, |net.src(net.sid)|, missing) {
      NothingMissing(old(net.st), sent, net.sid, |net.src(net.sid)|, missing);
    }
    ok := CommitUpload(net, commitRetries);
    assert ok ==> PublishedSince(sent, net.st, net.sid);
  }

  /**
   * After the last round: one probe decides between one more commit, when everything has arrived, and
   * giving up.
   */
  method LastChance(net: Network, chunkSize: nat, commitRetries: nat) returns (ok: bool)
    requires net.Valid() && chunkSize > 0
    modifies net`st, net`probes, net`commits, net`faults
    ensures net.Valid() && Since(old(net.st), net.st, net.writers)
    ensures ok ==> PublishedSince(old(net.st), net.st, net.sid)
    ensures net.probes == old(net.probes) + 1
    ensures net.commits <= old(net.commits) + (commitRetries + 1)
    ensures net.faults.Later(old(net.faults)) && net.faults.cancels == old(net.faults.cancels)
    ensures old(net.Ready() && net.HasAll()) && Uncut(old(net.faults), net.faults)
            && net.faults.lostProbes == old(net.faults.lostProbes) && net.faults.drops <= old(net.faults.drops) + commitRetries ==>
              ok
    ensures old(net.Ready() && !net.HasAll()) && net.faults.harms == old(net.faults.harms) ==> net.commits == old(net.commits)
  {
    var reply := net.Probe();
    if !reply.Received? { return false; }
    var missing := AlignedMissing(|net.src(net.sid)|, chunkSize, reply.ranges);
    LeavesMissing(net.st, net.sid, |net.src(net.sid)|, missing, chunkSize, reply.ranges);
    if missing != [] { return false; }
    ghost var probed := net.st;
    ok := CommitUpload(net, commitRetries);
    assert ok ==> PublishedSince(probed, net.st, net.sid);
  }

  /** What is missing of what a probe reported: nothing else is, and nothing at all when all is recorded. */
  lemma LeavesMissing(st: State, sid: Sid, size: nat, missing: seq<Range>, chunkSize: nat, ranges: seq<Range>)
    requires chunkSize > 0 && Blocks(missing, size, chunkSize, ranges)
    ensures ranges == st.disk.Sidecar(sid) ==> Leaves(st, sid, size, missing)
    ensures missing == [] <==> forall x: nat :: x < size ==> Covers(ranges, x)
  {
    if missing != [] {
      assert missing[0].Has(missing[0].start);
      assert Covers(missing, missing[0].start);
    }
  }

  datatype Verdict = Committed | GiveUp | Retry

  /** The round's first probe found the temp ready, and this is what it reported. */
  predicate Probed(st: State, sid: Sid, size: nat, received: seq<Range>) {
    sid !in st.sinks && sid in st.disk.temps && size <= MAX_FILE && received == st.disk.Sidecar(sid)
  }

  /**
   * One pass of the client's loop. `received` is the initial probe's answer, used in round 0. A pass
   * in which nothing goes wrong commits, whatever the passes before it left behind; the client gives
   * up only when it is cancelled, when a probe is lost, or after the last round.
   */
  method Attempt(net: Network, rounds: nat, maxRetries: nat, commitRetries: nat, received: seq<Range>) returns (verdict: Verdict)
    requires net.Valid() && rounds <= maxRetries
    requires Canonical(received) && Within(received, |net.src(net.sid)|)
    modifies net`st, net`probes, net`posts, net`bytes, net`commits, net`faults
    ensures net.Valid() && Since(old(net.st), net.st, net.writers)
    ensures verdict.Committed? ==> PublishedSince(old(net.st), net.st, net.sid)
    ensures verdict.Retry? ==> rounds < maxRetries
    ensures net.probes <= old(net.probes) + (if rounds > 0 then 1 else 0) + (if rounds == maxRetries then 1 else 0)
    ensures net.commits <= old(net.commits) + (commitRetries + 1) + (if rounds == maxRetries then commitRetries + 1 else 0)
    ensures net.posts <= old(net.posts) + Times(|net.src(net.sid)|, maxRetries + 1)
    ensures net.faults.Later(old(net.faults))
    ensures verdict.GiveUp? && rounds < maxRetries ==> Abandoned(old(net.faults), net.faults)
    ensures (rounds == 0 && !old(net.faults).now ==> Probed(old(net.st), net.sid, |net.src(net.sid)|, received)) && |net.src(net.sid)| <= MAX_FILE ==>
              || verdict.Committed? || Abandoned(old(net.faults), net.faults)
              || net.faults.hits >= old(net.faults.hits) + if rounds == 0 && old(net.faults).now then 0 else 1
    ensures rounds == maxRetries && old(net.Ready()) && (rounds == 0 ==> received == old(net.st.disk.Sidecar(net.sid)))
            && Uncut(old(net.faults), net.faults)
            && net.faults.lostProbes == old(net.faults.lostProbes)
            && net.faults.drops <= old(net.faults.drops) + Min(maxRetries, if old(net.HasAll()) then commitRetries else commitRetries + 1) ==>
              verdict.Committed?
    ensures rounds == 0 && Probed(old(net.st), net.sid, |net.src(net.sid)|, received) && Uncut(old(net.faults), net.faults)
            && net.faults.Sum() == old(net.faults).Sum() && net.faults.lostProbes == old(net.faults.lostProbes) ==>
              verdict.Committed? && net.bytes == old(net.bytes) + |net.src(net.sid)| - Total(received)
  {
    var cancelled := net.Cancels();
    if cancelled { return GiveUp; }
    var held := received;
    if rounds > 0 {
      var reply := net.Probe();
      if !reply.Received? { return GiveUp; }
      held := reply.ranges;
    }
    verdict := Pass(net, rounds, maxRetries, commitRetries, held);
  }

  /** The pass from there on, `held` being what the server holds. */
  method Pass(net: Network, rounds: nat, maxRetries: nat, commitRetries: nat, held: seq<Range>) returns (verdict: Verdict)
    requires net.Valid() && rounds <= maxRetries
    requires Canonical(held) && Within(held, |net.src(net.sid)|)
    modifies net`st, net`probes, net`posts, net`bytes, net`commits, net`faults
    ensures net.Valid() && Since(old(net.st), net.st, net.writers)
    ensures verdict.Committed? ==> PublishedSince(old(net.st), net.st, net.sid)
    ensures verdict.Retry? ==> rounds < maxRetries
    ensures verdict.GiveUp? ==> rounds == maxRetries
    ensures net.probes <= old(net.probes) + (if rounds == maxRetries then 1 else 0)
    ensures net.commits <= old(net.commits) + (commitRetries + 1) + (if rounds == maxRetries then commitRetries + 1 else 0)
    ensures net.posts <= old(net.posts) + Times(|net.src(net.sid)|, maxRetries + 1)
    ensures net.faults.Later(old(net.faults))
    ensures (!old(net.faults).now ==> Probed(old(net.st), net.sid, |net.src(net.sid)|, held)) ==>
              || verdict.Committed? || Abandoned(old(net.faults), net.faults)
              || net.faults.hits >= old(net.faults.hits) + if old(net.faults).now then 0 else 1
    ensures rounds == maxRetries && Probed(old(net.st), net.sid, |net.src(net.sid)|, held) && Uncut(old(net.faults), net.faults)
            && net.faults.lostProbes == old(net.faults.lostProbes)
            && net.faults.drops <= old(net.faults.drops) + Min(maxRetries, if old(net.HasAll()) then commitRetries else commitRetries + 1) ==>
              verdict.Committed?
    ensures Probed(old(net.st), net.sid, |net.src(net.sid)|, held) && Uncut(old(net.faults), net.faults)
            && net.faults.Sum() == old(net.faults).Sum() && net.faults.lostProbes == old(net.faults.lostProbes) ==>
              verdict.Committed? && net.bytes == old(net.bytes) + |net.src(net.sid)| - Total(held)
  {
    var chunkSize: nat := *;  // the tuned chunk size, at least 1
    chunkSize := Max(chunkSize, 1);
    var missing := AlignedMissing(|net.src(net.sid)|, chunkSize, held);
    LeavesMissing(net.st, net.sid, |net.src(net.sid)|, missing, chunkSize, held);
    MissingBytes(missing, |net.src(net.sid)|, chunkSize, held);
    var ok := Round(net, missing, maxRetries, commitRetries);
    if ok { return Committed; }
    if rounds < maxRetries { return Retry; }
    if missing == [] { return GiveUp; }
    ok := LastChance(net, chunkSize, commitRetries);
    return if ok then Committed else GiveUp;
  }

  /** The client was cancelled, or a probe was lost. */
  predicate Abandoned(before: Faults, after: Faults) {
    after.cancels > before.cancels || after.lostProbes > before.lostProbes
  }

  lemma MissingBytes(missing: seq<Range>, size: nat, chunkSize: nat, held: seq<Range>)
    requires chunkSize > 0 && Blocks(missing, size, chunkSize, held) && Canonical(held) && Within(held, size)
    ensures Total(missing) == size - Total(held)
  {
    Conservation(missing, size, chunkSize, held);
    CoveredIsTotal(held, size);
  }

  /** One more pass; `fair` and `probed` say how the rounds began, with the faults `f0`. */
  method NextRound(net: Network, rounds: nat, maxRetries: nat, commitRetries: nat, received: seq<Range>,
                   ghost f0: Faults, ghost fair: bool, ghost probed: bool, ghost bytes0: nat)
    returns (verdict: Verdict)
    requires net.Valid() && rounds <= maxRetries
    requires Canonical(received) && Within(received, |net.src(net.sid)|)
    requires net.faults.Later(f0) && (fair ==> |net.src(net.sid)| <= MAX_FILE && (f0.now || probed))
    requires if rounds == 0
             then net.faults == f0 && net.bytes == bytes0 && probed == Probed(net.st, net.sid, |net.src(net.sid)|, received)
             else && (fair ==> Abandoned(f0, net.faults) || net.faults.hits >= f0.hits + rounds - if f0.now then 1 else 0)
                  && (probed ==> Abandoned(f0, net.faults) || net.faults.Sum() > f0.Sum())
    modifies net`st, net`probes, net`posts, net`bytes, net`commits, net`faults
    ensures net.Valid() && Since(old(net.st), net.st, net.writers)
    ensures verdict.Committed? ==> PublishedSince(old(net.st), net.st, net.sid)
    ensures verdict.Retry? ==> rounds < maxRetries
    ensures net.probes <= old(net.probes) + (if rounds > 0 then 1 else 0) + (if rounds == maxRetries then 1 else 0)
    ensures net.commits <= old(net.commits) + (commitRetries + 1) + (if rounds == maxRetries then commitRetries + 1 else 0)
    ensures net.posts <= old(net.posts) + Times(|net.src(net.sid)|, maxRetries + 1)
    ensures net.faults.Later(f0)
    ensures verdict.GiveUp? && rounds < maxRetries ==> Abandoned(f0, net.faults)
    ensures fair && !verdict.Committed? ==>
              Abandoned(f0, net.faults) || net.faults.hits >= f0.hits + rounds + 1 - if f0.now then 1 else 0
    ensures probed && !Abandoned(f0, net.faults) && net.faults.Sum() == f0.Sum() ==>
              verdict.Committed? && net.bytes == bytes0 + |net.src(net.sid)| - Total(received)
  {
    verdict := Attempt(net, rounds, maxRetries, commitRetries, received);
  }

  /**
   * The rounds, until one commits, the client gives up, or `maxRetries` of them were retried. Unless
   * the client is cancelled or a probe is lost, they fail only when something went wrong in each.
   */
  method Rounds(net: Network, maxRetries: nat, commitRetries: nat, received: seq<Range>) returns (ok: bool)
    requires net.Valid()
    requires Canonical(received) && Within(received, |net.src(net.sid)|)
    modifies net`st, net`probes, net`posts, net`bytes, net`commits, net`faults
    ensures net.Valid() && Since(old(net.st), net.st, net.writers)
    ensures ok ==> PublishedSince(old(net.st), net.st, net.sid)
    ensures net.faults.Later(old(net.faults))
    ensures (!old(net.faults).now ==> Probed(old(net.st), net.sid, |net.src(net.sid)|, received)) && |net.src(net.sid)| <= MAX_FILE ==>
              || ok || Abandoned(old(net.faults), net.faults)
              || net.faults.hits >= old(net.faults.hits) + maxRetries + if old(net.faults).now then 0 else 1
    ensures Probed(old(net.st), net.sid, |net.src(net.sid)|, received) && Uncut(old(net.faults), net.faults)
            && net.faults.Sum() == old(net.faults).Sum() && net.faults.lostProbes == old(net.faults.lostProbes) ==>
              ok && net.bytes == old(net.bytes) + |net.src(net.sid)| - Total(received)
    ensures net.probes <= old(net.probes) + maxRetries + 1
    ensures net.commits <= old(net.commits) + Times(maxRetries + 2, commitRetries + 1)
    ensures net.posts <= old(net.posts) + Times(maxRetries + 1, Times(|net.src(net.sid)|, maxRetries + 1))
  {
    ghost var perRound, perCommit := Times(|net.src(net.sid)|, maxRetries + 1), commitRetries + 1;
    ghost var st0, f0, bytes0, probed := net.st, net.faults, net.bytes, Probed(net.st, net.sid, |net.src(net.sid)|, received);
    ghost var fair := (!f0.now ==> probed) && |net.src(net.sid)| <= MAX_FILE;
    for rounds := 0 to maxRetries + 1
      invariant net.Valid() && Since(st0, net.st, net.writers)
      invariant net.probes <= old(net.probes) + (if rounds == 0 then 0 else rounds - 1)
      invariant net.commits + Times(maxRetries + 2 - rounds, perCommit) <= old(net.commits) + Times(maxRetries + 2, perCommit)
      invariant net.posts + Times(maxRetries + 1 - rounds, perRound) <= old(net.posts) + Times(maxRetries + 1, perRound)
      invariant net.faults.Later(f0)
      invariant rounds == 0 ==> net.st == st0 && net.faults == f0 && net.bytes == bytes0
      invariant rounds > 0 && fair ==> Abandoned(f0, net.faults) || net.faults.hits >= f0.hits + rounds - if f0.now then 1 else 0
      invariant rounds > 0 && probed ==> Abandoned(f0, net.faults) || net.faults.Sum() > f0.Sum()
    {
      var verdict := NextRound(net, rounds, maxRetries, commitRetries, received, f0, fair, probed, bytes0);
      if verdict.GiveUp? { return false; }
      if verdict.Committed? { return true; }
    }
    return false;
  }

  /**
   * `upload_session_resumable`: probe, send exactly what is missing, commit; on rejection probe again
   * and refill, for at most `maxRetries` more rounds.
   *
   * Whatever the network does: success means the session was published during this call, and when no
   * other session writes the target, that the target now is the source, byte for byte. The loop ends
   * within its bounds on probes, commits and block attempts. The result is the number of bytes that
   * `held`, the first probe's answer, left to send.
   *
   * The upload fails only when the client is cancelled, when a probe is lost, or when something goes
   * wrong in each of `maxRetries + 1` rounds. When nothing goes wrong exactly the result is sent.
   */
  method UploadSession(net: Network, maxRetries: nat, commitRetries: nat)
    returns (result: Outcome, ghost held: seq<Range>)
    requires net.Valid()
    modifies net
    ensures net.Valid() && Since(old(net.st), net.st, net.writers)
    ensures result.Done? ==> PublishedSince(old(net.st), net.st, net.sid)
    ensures result.Done? && net.writers == {net.sid} ==> net.st.disk.Content() == Some(net.src(net.sid))
    ensures result.Done? ==>
              && Canonical(held) && Within(held, |net.src(net.sid)|) && Total(held) <= |net.src(net.sid)|
              && result.uploaded == |net.src(net.sid)| - Total(held)
    ensures result.Done? && old(net.Ready()) && net.faults.harms == old(net.faults.harms) ==> held == old(net.st.disk.Sidecar(net.sid))
    ensures result.Error? && |net.src(net.sid)| <= MAX_FILE ==>
              Abandoned(old(net.faults), net.faults) || net.faults.hits >= old(net.faults.hits) + maxRetries + 1
    ensures !Abandoned(old(net.faults), net.faults) && |net.src(net.sid)| <= MAX_FILE && net.faults.Sum() == old(net.faults).Sum() ==>
              result.Done? && net.bytes == old(net.bytes) + result.uploaded
    ensures net.probes <= old(net.probes) + maxRetries + 2
    ensures net.commits <= old(net.commits) + Times(maxRetries + 2, commitRetries + 1)
    ensures net.posts <= old(net.posts) + Times(maxRetries + 1, Times(|net.src(net.sid)|, maxRetries + 1))
  {
    var size := |net.src(net.sid)|;
    var reply := net.Probe();
    if !reply.Received? { return Error, []; }
    held := reply.ranges;
    var initialCovered := CoveredBytes(reply.ranges);
    CoveredIsTotal(held, size);
    initialCovered := Min(initialCovered, size);
    ghost var probed := net.st;
    var ok := Rounds(net, maxRetries, commitRetries, reply.ranges);
    if !ok { return Error, held; }
    assert PublishedSince(probed, net.st, net.sid);
    assert net.MeansAt(net.st);
    SoleWriter(old(net.st), net.st, net.src, net.initial, net.sid, net.writers);
    return Done(size - initialCovered), held;
  }

  /** Of a canonical list, the covered bytes are the sum of the lengths. */
  lemma CoveredIsTotal(ranges: seq<Range>, size: nat)
    requires Canonical(ranges) && Within(ranges, size)
    ensures Within(Normalized(ranges), size) && |CoveredSet(Normalized(ranges), size)| == Total(ranges) <= size
  {
    UprightIsSame(ranges, size);
    assert CoveredSet(Normalized(ranges), size) == CoveredSet(ranges, size);
    TotalCounts(ranges, size);
    SpanSize(0, size);
    SubsetSize(CoveredSet(ranges, size), Span(0, size));
  }

  lemma {:induction false} SubsetSize(a: set<nat>, b: set<nat>)
    requires a <= b
    ensures |a| <= |b|
  {
    if a != {} {
      var x :| x in a;
      SubsetSize(a - {x}, b - {x});
    }
  }

  /** If everything published lately was published by `sid`, the target is its source. */
  lemma SoleWriter(before: State, after: State, src: Sources, initial: Option<seq<Byte>>, sid: Sid, writers: set<Sid>)
    requires Published(after, src, initial) && Since(before, after, writers) && PublishedSince(before, after, sid)
    ensures writers == {sid} ==> after.disk.Content() == Some(src(sid))
  {
    if writers == {sid} {
      assert |after.log| > |before.log|;
      assert after.log[|after.log| - 1] in writers;
    }
  }
}
