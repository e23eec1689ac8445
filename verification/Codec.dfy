/**
 * The streaming codec (crates/libfw-core/src/compress.rs). The zstd library is a pair of
 * functions, `encode` and `decode`, of which only `CodecFacts` is known.
 */
module Codec {
  import opened Wrappers
  import opened Bytes
  import opened Frames

  type Decoder = seq<Byte> -> Option<seq<Byte>>
  type Encoder = seq<Byte> -> seq<Byte>

  // ---------------------------------------------------------------------------
  // Draining frames
  // ---------------------------------------------------------------------------

  datatype Head = HeadFrame(len: nat, data: seq<Byte>) | Wait | Corrupt

  /** What the front of the buffer holds: a decodable frame, the start of one, or neither. */
  function FrontOf(decode: Decoder, buf: seq<Byte>): (h: Head)
    ensures h.HeadFrame? ==> 8 <= h.len <= |buf|
  {
    match FrameBoundary(buf)
    case Incomplete => Wait
    case Invalid => Corrupt
    case Complete(len, contentSize) =>
      BoundaryStable(buf, []);
      assert buf + [] == buf;
      if contentSize.Some? && contentSize.value > MAX_FRAME_OUTPUT then Corrupt
      else match decode(buf[..len])
        case None => Corrupt
        case Some(data) => HeadFrame(len, data)
  }

  /** The codec's view of a buffer, as a function of the buffer alone. */
  type Front = seq<Byte> -> Head

  function FrontFor(decode: Decoder): Front { (buf: seq<Byte>) => FrontOf(decode, buf) }

  predicate ProgressAt(front: Front, buf: seq<Byte>) {
    front(buf).HeadFrame? ==> 0 < front(buf).len <= |buf|
  }

  predicate StableAt(front: Front, buf: seq<Byte>, ext: seq<Byte>) {
    !front(buf).Wait? ==> front(buf + ext) == front(buf)
  }

  predicate CutAt(front: Front, buf: seq<Byte>, k: nat) {
    k <= |buf| && front(buf).HeadFrame? && front(buf).len <= k ==> front(buf[..k]) == front(buf)
  }

  /** All the theory below needs: progress, and verdicts that later bytes do not change. */
  ghost predicate Coherent(front: Front) {
    && front([]).Wait?
    && (forall buf :: ProgressAt(front, buf))
    && (forall buf, ext :: StableAt(front, buf, ext))
    && (forall buf, k :: CutAt(front, buf, k))
  }

  lemma FrontCoherent(decode: Decoder)
    ensures Coherent(FrontFor(decode))
  {
    var front := FrontFor(decode);
    forall buf, ext
      ensures StableAt(front, buf, ext)
    {
      if !front(buf).Wait? { FrontStable(decode, buf, ext); }
    }
    forall buf, k: nat
      ensures CutAt(front, buf, k)
    {
      if k <= |buf| && front(buf).HeadFrame? && front(buf).len <= k {
        FrameWithin(buf, k);
        assert buf[..k][..front(buf).len] == buf[..front(buf).len];
      }
    }
  }

  /** What is known about the front of a buffer stays known when more arrives. */
  lemma FrontStable(decode: Decoder, buf: seq<Byte>, ext: seq<Byte>)
    requires !FrontOf(decode, buf).Wait?
    ensures FrontOf(decode, buf + ext) == FrontOf(decode, buf)
  {
    BoundaryStable(buf, ext);
    if FrameBoundary(buf).Complete? {
      var len := FrameBoundary(buf).len;
      assert (buf + ext)[..len] == buf[..len];
    }
  }

  datatype Drained = Drained(out: seq<Byte>, rest: seq<Byte>, ok: bool)

  /** All complete frames at the front, as long as the output stays within `budget`. */
  function Drain(front: Front, buf: seq<Byte>, budget: nat): Drained
    requires Coherent(front)
    decreases |buf|
  {
    assert ProgressAt(front, buf);
    match front(buf)
    case Wait => Drained([], buf, true)
    case Corrupt => Drained([], buf, false)
    case HeadFrame(len, data) =>
      if |data| > budget then Drained([], buf, false)
      else
        var r := Drain(front, buf[len..], budget - |data|);
        Drained(data + r.out, r.rest, r.ok)
  }

  /** The same, with no budget. */
  function DrainFree(front: Front, buf: seq<Byte>): Drained
    requires Coherent(front)
    decreases |buf|
  {
    assert ProgressAt(front, buf);
    match front(buf)
    case Wait => Drained([], buf, true)
    case Corrupt => Drained([], buf, false)
    case HeadFrame(len, data) =>
      var r := DrainFree(front, buf[len..]);
      Drained(data + r.out, r.rest, r.ok)
  }

  /** A budget never lets more through, and only bites when the whole output exceeds it. */
  lemma {:induction false} DrainBudget(front: Front, buf: seq<Byte>, budget: nat)
    requires Coherent(front)
    ensures |Drain(front, buf, budget).out| <= budget
    ensures Drain(front, buf, budget).ok <==> DrainFree(front, buf).ok && |DrainFree(front, buf).out| <= budget
    ensures Drain(front, buf, budget).ok ==> Drain(front, buf, budget) == DrainFree(front, buf)
    decreases |buf|
  {
    assert ProgressAt(front, buf);
    match front(buf)
    case Wait =>
    case Corrupt =>
    case HeadFrame(len, data) =>
      if |data| <= budget { DrainBudget(front, buf[len..], budget - |data|); }
  }

  // ---------------------------------------------------------------------------
  // The decompressor
  // ---------------------------------------------------------------------------

  datatype Status = Ok | Failed

  class ZripDecompressor {
    var pending: seq<Byte>
    var finished: bool
    const maxOutput: nat
    const front: Front

    /** `front` is the boundary parser followed by the frame decoder. */
    constructor (decode: Decoder, maxOutput: nat)
      ensures this.front == FrontFor(decode) && this.maxOutput == maxOutput && pending == [] && !finished && Valid()
    {
      FrontCoherent(decode);
      this.front, this.maxOutput := FrontFor(decode), maxOutput;
      this.pending, this.finished := [], false;
    }

    ghost predicate Valid() { Coherent(front) }

    /** `drain_frames`: a cursor over `pending`, compacted once at the end, and only on success. */
    method DrainFrames(out: seq<Byte>, maxAdd: nat) returns (status: Status, out': seq<Byte>)
      requires Valid()
      modifies this`pending
      ensures var r := Drain(front, old(pending), maxAdd);
              && out' == out + r.out
              && status.Ok? == r.ok
              && pending == if r.ok then r.rest else old(pending)
      ensures |out'| <= |out| + maxAdd
    {
      out' := out;
      var added, consumed := 0, 0;
      DrainBudget(front, pending, maxAdd);
      ghost var whole, done := Drain(front, pending, maxAdd), [];
      assert pending[0..] == pending;
      while true
        invariant consumed <= |pending| && added <= maxAdd && pending == old(pending)
        invariant out' == out + done && |done| == added
        invariant var r := Drain(front, pending[consumed..], maxAdd - added);
                  whole.out == done + r.out && r.ok == whole.ok && (r.ok ==> r.rest == whole.rest)
        decreases |pending| - consumed
      {
        var h := front(pending[consumed..]);
        assert ProgressAt(front, pending[consumed..]);
        if h.Wait? {
          pending := pending[consumed..];
          return Ok, out';
        }
        if h.Corrupt? || added + |h.data| > maxAdd {
          return Failed, out';
        }
        assert pending[consumed..][h.len..] == pending[consumed + h.len..];
        out' := out' + h.data;
        done := done + h.data;
        added := added + |h.data|;
        consumed := consumed + h.len;
      }
    }

    /** One network read. Whatever happens, at most the budget is appended. */
    method Decompress(input: seq<Byte>, out: seq<Byte>) returns (status: Status, out': seq<Byte>)
      requires Valid()
      modifies this`pending
      ensures !finished ==>
                var r := Feed(front, maxOutput, old(pending), input);
                status == r.status && out' == out + r.out && pending == r.pending
      ensures finished ==> status.Failed? && out' == out && pending == old(pending)
      ensures |out'| <= |out| + maxOutput
    {
      if finished { return Failed, out; }
      pending := pending + input;
      status, out' := DrainFrames(out, maxOutput);
      if status.Failed? { return; }
      if |pending| > MAX_PENDING_FRAME { status := Failed; }
    }

    /** The end of the stream: nothing may be left over. */
    method Finish(out: seq<Byte>) returns (status: Status, out': seq<Byte>)
      requires Valid()
      modifies this
      ensures finished
      ensures old(finished) ==> status.Ok? && out' == out && pending == old(pending)
      ensures !old(finished) ==>
                var r := Drain(front, old(pending), maxOutput);
                && out' == out + r.out && (status.Ok? <==> r.ok && r.rest == [])
      ensures |out'| <= |out| + maxOutput
    {
      if finished { return Ok, out; }
      finished := true;
      status, out' := DrainFrames(out, maxOutput);
      if status.Failed? { return; }
      if pending != [] { status := Failed; }
    }
  }

  datatype Fed = Fed(status: Status, out: seq<Byte>, pending: seq<Byte>)

  /** One `decompress` call, as a function of the buffer. */
  function Feed(front: Front, budget: nat, pending: seq<Byte>, input: seq<Byte>): Fed
    requires Coherent(front)
  {
    var r := Drain(front, pending + input, budget);
    if !r.ok then Fed(Failed, r.out, pending + input)
    else Fed(if |r.rest| > MAX_PENDING_FRAME then Failed else Ok, r.out, r.rest)
  }

  /** A run of calls that all succeed: everything they output, and what is left pending. */
  function FeedAll(front: Front, budget: nat, pending: seq<Byte>, chunks: seq<seq<Byte>>): Option<(seq<Byte>, seq<Byte>)>
    requires Coherent(front)
    decreases |chunks|
  {
    if chunks == [] then Some(([], pending))
    else
      var r := Feed(front, budget, pending, chunks[0]);
      if r.status.Failed? then None
      else match FeedAll(front, budget, r.pending, chunks[1..])
        case None => None
        case Some((out, left)) => Some((r.out + out, left))
  }

  /** A whole stream: every call succeeds, and so does `finish`. */
  function RunStream(front: Front, budget: nat, chunks: seq<seq<Byte>>): Option<seq<Byte>>
    requires Coherent(front)
  {
    match FeedAll(front, budget, [], chunks)
    case None => None
    case Some((out, left)) =>
      var last := Drain(front, left, budget);
      if last.ok && last.rest == [] then Some(out + last.out) else None
  }

  // ---------------------------------------------------------------------------
  // The reference: a string is a list of whole frames, or it is not
  // ---------------------------------------------------------------------------

  /** The decoded frames of `s`, in order; `None` unless `s` is whole, decodable frames. */
  function DecodeAll(front: Front, s: seq<Byte>): Option<seq<Byte>>
    requires Coherent(front)
    decreases |s|
  {
    assert ProgressAt(front, s);
    if s == [] then Some([])
    else match front(s)
      case HeadFrame(len, data) =>
        (match DecodeAll(front, s[len..])
         case None => None
         case Some(more) => Some(data + more))
      case _ => None
  }

  /** No frame of `s` is longer than the decompressor is willing to buffer. */
  predicate FramesFit(front: Front, s: seq<Byte>)
    requires Coherent(front)
    decreases |s|
  {
    assert ProgressAt(front, s);
    match front(s)
    case HeadFrame(len, _) => len <= MAX_PENDING_FRAME && FramesFit(front, s[len..])
    case _ => true
  }

  function Prepend(head: seq<Byte>, tail: Option<seq<Byte>>): Option<seq<Byte>> {
    match tail case None => None case Some(t) => Some(head + t)
  }

  /** Draining early and decoding later gives the same bytes as decoding at once. */
  lemma {:induction false} DrainThenDecode(front: Front, buf: seq<Byte>, ext: seq<Byte>)
    requires Coherent(front)
    ensures var r := DrainFree(front, buf);
            DecodeAll(front, buf + ext) == if r.ok then Prepend(r.out, DecodeAll(front, r.rest + ext)) else None
    decreases |buf|
  {
    assert ProgressAt(front, buf) && StableAt(front, buf, ext);
    var h := front(buf);
    if h.Wait? {
      assert Prepend([], DecodeAll(front, buf + ext)) == DecodeAll(front, buf + ext) by {
        if DecodeAll(front, buf + ext).Some? { assert [] + DecodeAll(front, buf + ext).value == DecodeAll(front, buf + ext).value; }
      }
    } else {
      if h.HeadFrame? {
        assert (buf + ext)[h.len..] == buf[h.len..] + ext;
        DrainThenDecode(front, buf[h.len..], ext);
        var r := DrainFree(front, buf[h.len..]);
        var later := DecodeAll(front, r.rest + ext);
        assert later.Some? ==> h.data + (r.out + later.value) == (h.data + r.out) + later.value;
      }
    }
  }

  /** One successful call outputs the frames it completed, and keeps the rest. */
  lemma FeedDecodes(front: Front, budget: nat, pending: seq<Byte>, input: seq<Byte>, later: seq<Byte>)
    requires Coherent(front) && Feed(front, budget, pending, input).status.Ok?
    ensures var r := Feed(front, budget, pending, input);
            DecodeAll(front, pending + input + later) == Prepend(r.out, DecodeAll(front, r.pending + later))
  {
    DrainBudget(front, pending + input, budget);
    DrainThenDecode(front, pending + input, later);
  }

  /** The calls so far have output exactly the frames already whole; the rest is pending. */
  lemma {:induction false} FeedAllDecodes(front: Front, budget: nat, pending: seq<Byte>, chunks: seq<seq<Byte>>, ext: seq<Byte>)
    requires Coherent(front)
    requires FeedAll(front, budget, pending, chunks).Some?
    ensures var (out, left) := FeedAll(front, budget, pending, chunks).value;
            DecodeAll(front, pending + Concat(chunks) + ext) == Prepend(out, DecodeAll(front, left + ext))
    decreases |chunks|
  {
    if chunks == [] {
      assert pending + Concat(chunks) + ext == pending + ext;
      PrependNothing(DecodeAll(front, pending + ext));
    } else {
      var r := Feed(front, budget, pending, chunks[0]);
      var rest := chunks[1..];
      FeedAllDecodes(front, budget, r.pending, rest, ext);
      FeedDecodes(front, budget, pending, chunks[0], Concat(rest) + ext);
      Regroup(pending, chunks[0], Concat(rest), ext, r.pending);
      var (more, left) := FeedAll(front, budget, r.pending, rest).value;
      PrependTwice(r.out, more, DecodeAll(front, left + ext));
    }
  }

  lemma Regroup(a: seq<Byte>, b: seq<Byte>, c: seq<Byte>, d: seq<Byte>, e: seq<Byte>)
    ensures a + (b + c) + d == a + b + (c + d) && e + (c + d) == e + c + d
  {
  }

  lemma PrependNothing(o: Option<seq<Byte>>)
    ensures Prepend([], o) == o
  {
    if o.Some? { assert [] + o.value == o.value; }
  }

  lemma PrependTwice(a: seq<Byte>, b: seq<Byte>, o: Option<seq<Byte>>)
    ensures Prepend(a, Prepend(b, o)) == Prepend(a + b, o)
  {
    if o.Some? { assert a + (b + o.value) == (a + b) + o.value; }
  }

  /**
   * Split independence: however a byte string is cut into calls, a run that succeeds outputs the
   * decoded frames of the whole string, in order; in particular the string is whole frames.
   */
  lemma SplitIndependent(front: Front, budget: nat, chunks: seq<seq<Byte>>)
    requires Coherent(front)
    requires RunStream(front, budget, chunks).Some?
    ensures DecodeAll(front, Concat(chunks)) == RunStream(front, budget, chunks)
  {
    var (out, left) := FeedAll(front, budget, [], chunks).value;
    FeedAllDecodes(front, budget, [], chunks, []);
    assert [] + Concat(chunks) + [] == Concat(chunks);
    DrainBudget(front, left, budget);
    DrainThenDecode(front, left, []);
    var last := DrainFree(front, left);
    assert left + [] == left && last.rest + [] == last.rest;
    assert DecodeAll(front, []) == Some([]);
    assert last.out + [] == last.out;
  }

  /** Whatever the first calls of a good stream deliver is a prefix of what the whole stream holds. */
  lemma DeliveredIsPrefix(front: Front, budget: nat, first: seq<seq<Byte>>, rest: seq<Byte>)
    requires Coherent(front)
    requires FeedAll(front, budget, [], first).Some?
    requires DecodeAll(front, Concat(first) + rest).Some?
    ensures FeedAll(front, budget, [], first).value.0 <= DecodeAll(front, Concat(first) + rest).value
  {
    FeedAllDecodes(front, budget, [], first, rest);
    assert [] + Concat(first) + rest == Concat(first) + rest;
  }

  // ---------------------------------------------------------------------------
  // Exactly when a stream goes through
  // ---------------------------------------------------------------------------

  /** No single call has more to output than its budget. */
  predicate CallsWithin(front: Front, budget: nat, pending: seq<Byte>, chunks: seq<seq<Byte>>)
    requires Coherent(front)
    decreases |chunks|
  {
    chunks == [] ||
    (var r := DrainFree(front, pending + chunks[0]);
     |r.out| <= budget && CallsWithin(front, budget, r.rest, chunks[1..]))
  }

  /** A drained buffer holds no whole frame. */
  lemma {:induction false} RestWaits(front: Front, buf: seq<Byte>)
    requires Coherent(front)
    requires DrainFree(front, buf).ok
    ensures front(DrainFree(front, buf).rest).Wait?
    decreases |buf|
  {
    assert ProgressAt(front, buf);
    var h := front(buf);
    if h.HeadFrame? { RestWaits(front, buf[h.len..]); }
  }

  lemma {:induction false} FitDrained(front: Front, buf: seq<Byte>, ext: seq<Byte>)
    requires Coherent(front)
    requires DrainFree(front, buf).ok && FramesFit(front, buf + ext)
    ensures FramesFit(front, DrainFree(front, buf).rest + ext)
    decreases |buf|
  {
    assert ProgressAt(front, buf) && StableAt(front, buf, ext);
    var h := front(buf);
    if h.HeadFrame? {
      assert (buf + ext)[h.len..] == buf[h.len..] + ext;
      FitDrained(front, buf[h.len..], ext);
    }
  }

  /** A partial frame that will be completed is shorter than the frame. */
  lemma WaitingIsShort(front: Front, buf: seq<Byte>, ext: seq<Byte>)
    requires Coherent(front)
    requires front(buf).Wait? && DecodeAll(front, buf + ext).Some? && FramesFit(front, buf + ext)
    ensures |buf| <= MAX_PENDING_FRAME
  {
    var whole := buf + ext;
    assert whole[..|buf|] == buf;
    assert ProgressAt(front, whole) && CutAt(front, whole, |buf|);
    assert |buf| == 0 || (front(whole).HeadFrame? && front(whole).len <= MAX_PENDING_FRAME);
  }

  lemma {:induction false} FeedAllSucceeds(front: Front, budget: nat, pending: seq<Byte>, chunks: seq<seq<Byte>>)
    requires Coherent(front)
    requires front(pending).Wait?
    requires DecodeAll(front, pending + Concat(chunks)).Some? && FramesFit(front, pending + Concat(chunks))
    ensures FeedAll(front, budget, pending, chunks).Some? <==> CallsWithin(front, budget, pending, chunks)
    ensures FeedAll(front, budget, pending, chunks).Some? ==> FeedAll(front, budget, pending, chunks).value.1 == []
    decreases |chunks|
  {
    if chunks == [] {
      assert pending + Concat(chunks) == pending;
    } else {
      var buf, later := pending + chunks[0], Concat(chunks[1..]);
      assert pending + Concat(chunks) == buf + later;
      DrainThenDecode(front, buf, later);
      DrainBudget(front, buf, budget);
      RestWaits(front, buf);
      FitDrained(front, buf, later);
      var r := DrainFree(front, buf);
      WaitingIsShort(front, r.rest, later);
      FeedAllSucceeds(front, budget, r.rest, chunks[1..]);
    }
  }

  /**
   * A stream whose frames fit the buffer goes through exactly when it is whole decodable frames
   * and no single call has more to output than its budget.
   */
  lemma StreamExact(front: Front, budget: nat, chunks: seq<seq<Byte>>)
    requires Coherent(front)
    requires FramesFit(front, Concat(chunks))
    ensures RunStream(front, budget, chunks).Some? <==>
              DecodeAll(front, Concat(chunks)).Some? && CallsWithin(front, budget, [], chunks)
  {
    assert [] + Concat(chunks) == Concat(chunks);
    if RunStream(front, budget, chunks).Some? {
      SplitIndependent(front, budget, chunks);
    }
    if DecodeAll(front, Concat(chunks)).Some? {
      FeedAllSucceeds(front, budget, [], chunks);
    }
  }

  /** A stream with no more output than one call's budget stays within it, however it is cut. */
  lemma {:induction false} SmallStreamWithin(front: Front, budget: nat, pending: seq<Byte>, chunks: seq<seq<Byte>>)
    requires Coherent(front)
    requires DecodeAll(front, pending + Concat(chunks)).Some?
    requires |DecodeAll(front, pending + Concat(chunks)).value| <= budget
    ensures CallsWithin(front, budget, pending, chunks)
    decreases |chunks|
  {
    if chunks != [] {
      var buf, later := pending + chunks[0], Concat(chunks[1..]);
      assert pending + Concat(chunks) == buf + later;
      DrainThenDecode(front, buf, later);
      SmallStreamWithin(front, budget, DrainFree(front, buf).rest, chunks[1..]);
    }
  }
}
