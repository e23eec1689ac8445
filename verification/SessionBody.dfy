/**
 * What the handler reads from a compressed request body (crates/libfw-server/src/handlers.rs:533-570):
 * the codec's calls as the events `SessionServer` works on.
 */
module SessionBody {
  import opened Wrappers
  import opened Bytes
  import opened Frames
  import opened Codec
  import opened CodecRoundTrip
  import opened Session
  import opened SessionServer

  /** One event for each read of the body, up to the first that fails; `broken` when the client goes away after them. */
  function EventsOf(front: Front, budget: nat, pending: seq<Byte>, chunks: seq<seq<Byte>>, broken: bool): seq<BodyEvent>
    requires Coherent(front)
    decreases |chunks|
  {
    if chunks == [] then (if broken then [Broken] else [])
    else
      var r := Feed(front, budget, pending, chunks[0]);
      if r.status.Failed? then [BodyEvent.Corrupt] else [Decoded(r.out)] + EventsOf(front, budget, r.pending, chunks[1..], broken)
  }

  /** What the end of the stream adds; `None` when it is refused. */
  function TailOf(front: Front, budget: nat, pending: seq<Byte>, chunks: seq<seq<Byte>>): Option<seq<Byte>>
    requires Coherent(front)
  {
    match FeedAll(front, budget, pending, chunks)
    case None => None
    case Some((_, left)) =>
      var last := Drain(front, left, budget);
      if last.ok && last.rest == [] then Some(last.out) else None
  }

  /** The receiving loop: each read is decompressed, and its output taken, on its own. */
  method ReadAll(d: ZripDecompressor, chunks: seq<seq<Byte>>) returns (events: seq<BodyEvent>, tail: Option<seq<Byte>>)
    requires d.Valid() && !d.finished && d.pending == []
    modifies d
    ensures events == EventsOf(d.front, d.maxOutput, [], chunks, false) && tail == TailOf(d.front, d.maxOutput, [], chunks)
  {
    events := [];
    ghost var whole := Remaining(d.front, d.maxOutput, [], [], chunks);
    assert chunks[0..] == chunks;
    assert whole.0 == EventsOf(d.front, d.maxOutput, [], chunks, false);
    for k := 0 to |chunks|
      invariant !d.finished
      invariant Remaining(d.front, d.maxOutput, events, d.pending, chunks[k..]) == whole
    {
      ghost var before, read := d.pending, events;
      var status, out := d.Decompress(chunks[k], []);
      RemainingStep(d.front, d.maxOutput, read, before, chunks[k..]);
      ghost var r := Feed(d.front, d.maxOutput, before, chunks[k]);
      assert chunks[k..][1..] == chunks[k + 1..] && [] + r.out == r.out;
      if status.Failed? { return events + [BodyEvent.Corrupt], None; }
      events := events + [Decoded(out)];
    }
    ghost var last := Drain(d.front, d.pending, d.maxOutput);
    assert chunks[|chunks|..] == [] && events + [] == events && [] + last.out == last.out;
    var status, out := d.Finish([]);
    tail := if status.Ok? then Some(out) else None;
  }

  /** Everything the handler will have seen, given what it has seen so far. */
  function Remaining(front: Front, budget: nat, read: seq<BodyEvent>, pending: seq<Byte>, chunks: seq<seq<Byte>>): (r: (seq<BodyEvent>, Option<seq<Byte>>))
    requires Coherent(front)
  {
    (read + EventsOf(front, budget, pending, chunks, false), TailOf(front, budget, pending, chunks))
  }

  lemma RemainingStep(front: Front, budget: nat, read: seq<BodyEvent>, pending: seq<Byte>, chunks: seq<seq<Byte>>)
    requires Coherent(front) && chunks != []
    ensures var r := Feed(front, budget, pending, chunks[0]);
            Remaining(front, budget, read, pending, chunks) ==
            if r.status.Failed? then (read + [BodyEvent.Corrupt], None)
            else Remaining(front, budget, read + [Decoded(r.out)], r.pending, chunks[1..])
  {
    TailStep(front, budget, pending, chunks);
    var r := Feed(front, budget, pending, chunks[0]);
    if r.status.Ok? {
      var more := EventsOf(front, budget, r.pending, chunks[1..], false);
      assert read + ([Decoded(r.out)] + more) == read + [Decoded(r.out)] + more;
    }
  }

  lemma TailStep(front: Front, budget: nat, pending: seq<Byte>, chunks: seq<seq<Byte>>)
    requires Coherent(front) && chunks != []
    ensures var r := Feed(front, budget, pending, chunks[0]);
            TailOf(front, budget, pending, chunks) ==
            if r.status.Failed? then None else TailOf(front, budget, r.pending, chunks[1..])
  {
  }

  lemma PayloadHead(event: BodyEvent, events: seq<BodyEvent>, tail: Option<seq<Byte>>)
    ensures Payload([event] + events, tail) == if event.Decoded? then event.data + Payload(events, tail) else []
  {
    assert ([event] + events)[1..] == events;
  }

  /** However a good stream is cut, and whether or not the client goes away, a prefix of it is delivered. */
  lemma {:induction false} DeliversPrefix(front: Front, budget: nat, pending: seq<Byte>, chunks: seq<seq<Byte>>, lost: seq<Byte>, broken: bool)
    requires Coherent(front) && DecodeAll(front, pending + Concat(chunks) + lost).Some?
    ensures Payload(EventsOf(front, budget, pending, chunks, broken), TailOf(front, budget, pending, chunks))
              <= DecodeAll(front, pending + Concat(chunks) + lost).value
    decreases |chunks|
  {
    if chunks == [] {
      assert pending + Concat(chunks) + lost == pending + lost;
      DrainBudget(front, pending, budget);
      DrainThenDecode(front, pending, lost);
    } else {
      var r := Feed(front, budget, pending, chunks[0]);
      var rest := chunks[1..];
      if r.status.Ok? {
        FeedDecodes(front, budget, pending, chunks[0], Concat(rest) + lost);
        Regroup(pending, chunks[0], Concat(rest), lost, r.pending);
        DeliversPrefix(front, budget, r.pending, rest, lost, broken);
        TailStep(front, budget, pending, chunks);
        PayloadHead(Decoded(r.out), EventsOf(front, budget, r.pending, rest, broken), TailOf(front, budget, r.pending, rest));
      }
    }
  }

  predicate AllDecoded(events: seq<BodyEvent>) { forall i :: 0 <= i < |events| ==> events[i].Decoded? }

  /** A stream that goes through is delivered whole. */
  lemma {:induction false} DeliversAll(front: Front, budget: nat, pending: seq<Byte>, chunks: seq<seq<Byte>>)
    requires Coherent(front) && FeedAll(front, budget, pending, chunks).Some? && TailOf(front, budget, pending, chunks).Some?
    ensures var events, tail := EventsOf(front, budget, pending, chunks, false), TailOf(front, budget, pending, chunks);
            AllDecoded(events) && Payload(events, tail) == FeedAll(front, budget, pending, chunks).value.0 + tail.value
    decreases |chunks|
  {
    var tail := TailOf(front, budget, pending, chunks);
    if chunks == [] {
      assert [] + tail.value == tail.value;
    } else {
      var r, rest := Feed(front, budget, pending, chunks[0]), chunks[1..];
      DeliversAll(front, budget, r.pending, rest);
      PayloadHead(Decoded(r.out), EventsOf(front, budget, r.pending, rest, false), tail);
      Associates(r.out, FeedAll(front, budget, r.pending, rest).value.0, tail.value);
    }
  }

  lemma Associates(a: seq<Byte>, b: seq<Byte>, c: seq<Byte>)
    ensures a + (b + c) == a + b + c
  {
  }

  /** What reaches the file of a body cut anywhere. */
  function Delivers(front: Front, budget: nat, chunks: seq<seq<Byte>>, broken: bool): seq<Byte>
    requires Coherent(front)
  {
    Payload(EventsOf(front, budget, [], chunks, broken), TailOf(front, budget, [], chunks))
  }

  lemma DeliversHonest(front: Front, budget: nat, source: seq<Byte>, start: nat, end: nat, chunks: seq<seq<Byte>>, lost: seq<Byte>, broken: bool)
    requires Coherent(front) && start <= end <= |source|
    requires DecodeAll(front, Concat(chunks) + lost) == Some(source[start..end])
    ensures Delivers(front, budget, chunks, broken) <= source[start..end]
    ensures HonestBody(start, Delivers(front, budget, chunks, broken), source)
  {
    assert [] + Concat(chunks) + lost == Concat(chunks) + lost;
    DeliversPrefix(front, budget, [], chunks, lost, broken);
    PrefixIsHonest(Delivers(front, budget, chunks, broken), source, start, end);
  }

  lemma PrefixIsHonest(payload: seq<Byte>, source: seq<Byte>, start: nat, end: nat)
    requires start <= end <= |source| && payload <= source[start..end]
    ensures HonestBody(start, payload, source)
  {
    forall j | 0 <= j < |payload| && start + j < |source|
      ensures payload[j] == source[start + j]
    {
      assert payload[j] == source[start..end][j];
    }
  }

  /**
   * The body of a block's request, compressed by the client and cut anywhere by the network, delivers
   * a prefix of the block: the request is an honest one.
   */
  lemma BodyIsHonest(encode: Encoder, decode: Decoder, source: seq<Byte>, start: nat, end: nat,
                     chunks: seq<seq<Byte>>, lost: seq<Byte>, broken: bool, budget: nat)
    requires CodecFacts(encode, decode) && start <= end <= |source|
    requires Concat(chunks) + lost == Wire(encode, Windows(source[start..end]))
    ensures Coherent(FrontFor(decode))
    ensures var payload := Delivers(FrontFor(decode), budget, chunks, broken);
            payload <= source[start..end] && HonestBody(start, payload, source)
  {
    var block := source[start..end];
    WireDecodes(encode, decode, Windows(block));
    DeliversHonest(FrontFor(decode), budget, source, start, end, chunks, lost, broken);
  }

  /** A block of up to 16 MiB whose whole body arrives is delivered whole, however it was cut. */
  lemma WholeBodyDelivered(encode: Encoder, decode: Decoder, block: seq<Byte>, chunks: seq<seq<Byte>>)
    requires CodecFacts(encode, decode) && |block| <= 16 * 1024 * 1024
    requires Concat(chunks) == Wire(encode, Windows(block))
    ensures Coherent(FrontFor(decode))
    ensures var front := FrontFor(decode);
            var events, tail := EventsOf(front, MAX_OUTPUT_PER_CALL, [], chunks, false), TailOf(front, MAX_OUTPUT_PER_CALL, [], chunks);
            AllDecoded(events) && tail.Some? && Payload(events, tail) == block
  {
    ChunkNeverTrips(encode, decode, block, chunks);
    DeliversAll(FrontFor(decode), MAX_OUTPUT_PER_CALL, [], chunks);
  }
}
