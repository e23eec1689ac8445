/**
 * The compressor, and what it and the decompressor promise each other
 * (crates/libfw-core/src/compress.rs:266-300, crates/libfw-client/src/native/mod.rs:663-672).
 */
module CodecRoundTrip {
  import opened Wrappers
  import opened Bytes
  import opened Frames
  import opened Codec

  // ---------------------------------------------------------------------------
  // What is known of the zstd library
  // ---------------------------------------------------------------------------

  /**
   * One encoded frame: the boundary parser sees it whole, it declares no size over the limit, the
   * decoder inverts it, and the frame of at most 64 KiB of input fits the pending buffer.
   */
  predicate FrameOf(encode: Encoder, decode: Decoder, x: seq<Byte>) {
    var b := FrameBoundary(encode(x));
    && b.Complete? && b.len == |encode(x)|
    && (b.contentSize.Some? ==> b.contentSize.value <= MAX_FRAME_OUTPUT)
    && decode(encode(x)) == Some(x)
    && (|x| <= STREAM_BUF_SIZE ==> |encode(x)| <= MAX_PENDING_FRAME)
  }

  /** The decoder refuses to expand a frame past `MAX_FRAME_OUTPUT`, so longer inputs are out. */
  ghost predicate CodecFacts(encode: Encoder, decode: Decoder) {
    forall x | |x| <= MAX_FRAME_OUTPUT :: FrameOf(encode, decode, x)
  }

  // ---------------------------------------------------------------------------
  // The compressor
  // ---------------------------------------------------------------------------

  /** `encoder` holds the bytes of the open frame; `None` once the compressor is finished. */
  class ZripCompressor {
    const encode: Encoder
    var encoder: Option<seq<Byte>>
    var dirty: bool
    ghost var inputs: seq<seq<Byte>>

    /** Everything written so far, in order, one frame each; the last one is still open. */
    ghost predicate Tracks(out: seq<Byte>)
      reads this
    {
      && encoder.Some?
      && (dirty <==> inputs != [])
      && (dirty ==> inputs[|inputs| - 1] == encoder.value && out == FramesFor(encode, inputs[..|inputs| - 1]))
      && (!dirty ==> encoder.value == [] && out == [])
    }

    constructor (encode: Encoder)
      ensures this.encode == encode && inputs == [] && Tracks([])
    {
      this.encode, encoder, dirty, inputs := encode, Some([]), false, [];
    }

    method Compress(input: seq<Byte>, out: seq<Byte>) returns (status: Status, out': seq<Byte>)
      modifies this
      ensures input == [] ==> status.Ok? && out' == out && encoder == old(encoder) && dirty == old(dirty) && inputs == old(inputs)
      ensures input != [] && old(encoder).None? ==>
                status.Failed? && out' == out && encoder.None? && dirty == old(dirty) && inputs == old(inputs)
      ensures input != [] && old(Tracks(out)) ==> status.Ok? && Tracks(out') && inputs == old(inputs) + [input]
    {
      if input == [] { return Ok, out; }
      if encoder.None? { return Failed, out; }
      out' := out;
      if dirty {
        var finished := encode(encoder.value);
        encoder := Some([]);
        out' := out' + finished;
        if inputs != [] { FramesForSnoc(encode, inputs[..|inputs| - 1], inputs[|inputs| - 1]); }
      }
      encoder := Some(encoder.value + input);
      dirty := true;
      inputs := inputs + [input];
      status := Ok;
      assert inputs[..|inputs| - 1] == old(inputs);
      assert old(inputs) != [] ==> old(inputs)[..|old(inputs)| - 1] + [old(inputs)[|old(inputs)| - 1]] == old(inputs);
    }

    /** Even a stream nothing was written to ends in a frame. */
    method Finish(out: seq<Byte>) returns (status: Status, out': seq<Byte>)
      modifies this
      ensures encoder.None? && inputs == old(inputs)
      ensures old(encoder).None? ==> status.Failed? && out' == out
      ensures old(Tracks(out)) ==> status.Ok? && out' == Wire(encode, inputs)
    {
      if encoder.None? { return Failed, out; }
      var tail := encode(encoder.value);
      encoder := None;
      out' := out + tail;
      dirty := false;
      status := Ok;
      if inputs != [] {
        FramesForSnoc(encode, inputs[..|inputs| - 1], inputs[|inputs| - 1]);
        assert inputs[..|inputs| - 1] + [inputs[|inputs| - 1]] == inputs;
      } else {
        ghost var empty: seq<Byte> := [];
        assert [] + [empty] == [empty];
        FramesForSnoc(encode, [], empty);
      }
    }
  }

  /** One frame for each input. */
  function FramesFor(encode: Encoder, inputs: seq<seq<Byte>>): seq<Byte> {
    if inputs == [] then [] else encode(inputs[0]) + FramesFor(encode, inputs[1..])
  }

  /** A finished stream. */
  function Wire(encode: Encoder, inputs: seq<seq<Byte>>): seq<Byte> {
    FramesFor(encode, if inputs == [] then [[]] else inputs)
  }

  lemma {:induction false} FramesForSnoc(encode: Encoder, inputs: seq<seq<Byte>>, x: seq<Byte>)
    ensures FramesFor(encode, inputs + [x]) == FramesFor(encode, inputs) + encode(x)
  {
    if inputs != [] {
      assert (inputs + [x])[1..] == inputs[1..] + [x];
      FramesForSnoc(encode, inputs[1..], x);
    } else {
      assert ([x])[1..] == [];
    }
  }

  // ---------------------------------------------------------------------------
  // Streams decode to what was written
  // ---------------------------------------------------------------------------

  predicate AllWithin(inputs: seq<seq<Byte>>, n: nat) {
    forall i :: 0 <= i < |inputs| ==> |inputs[i]| <= n
  }

  lemma OneFrame(encode: Encoder, decode: Decoder, x: seq<Byte>, tail: seq<Byte>)
    requires CodecFacts(encode, decode) && |x| <= MAX_FRAME_OUTPUT
    ensures FrontFor(decode)(encode(x) + tail) == HeadFrame(|encode(x)|, x)
    ensures |x| <= STREAM_BUF_SIZE ==> |encode(x)| <= MAX_PENDING_FRAME
  {
    assert FrameOf(encode, decode, x);
    var e := encode(x);
    assert e[..|e|] == e;
    FrontStable(decode, e, tail);
  }

  lemma {:induction false} FramesDecode(encode: Encoder, decode: Decoder, inputs: seq<seq<Byte>>)
    requires CodecFacts(encode, decode) && AllWithin(inputs, MAX_FRAME_OUTPUT) && Coherent(FrontFor(decode))
    ensures DecodeAll(FrontFor(decode), FramesFor(encode, inputs)) == Some(Concat(inputs))
    ensures AllWithin(inputs, STREAM_BUF_SIZE) ==> FramesFit(FrontFor(decode), FramesFor(encode, inputs))
    decreases |inputs|
  {
    var front, s := FrontFor(decode), FramesFor(encode, inputs);
    if inputs != [] {
      var e, tail := encode(inputs[0]), FramesFor(encode, inputs[1..]);
      OneFrame(encode, decode, inputs[0], tail);
      assert ProgressAt(front, s) && s[|e|..] == tail;
      FramesDecode(encode, decode, inputs[1..]);
    }
  }

  lemma WireDecodes(encode: Encoder, decode: Decoder, inputs: seq<seq<Byte>>)
    requires CodecFacts(encode, decode) && AllWithin(inputs, MAX_FRAME_OUTPUT)
    ensures Coherent(FrontFor(decode))
    ensures DecodeAll(FrontFor(decode), Wire(encode, inputs)) == Some(Concat(inputs))
    ensures AllWithin(inputs, STREAM_BUF_SIZE) ==> FramesFit(FrontFor(decode), Wire(encode, inputs))
  {
    FrontCoherent(decode);
    FramesDecode(encode, decode, if inputs == [] then [[]] else inputs);
    var empty: seq<Byte> := [];
    assert [empty][1..] == [];
    assert Concat([empty]) == [];
  }

  /**
   * Codec round trip, for every list of inputs and every re-splitting of the compressor's output:
   * a run that completes returns the concatenated inputs. With inputs of at most 64 KiB it
   * completes exactly when no single call has more than its budget to output.
   */
  lemma RoundTrip(encode: Encoder, decode: Decoder, inputs: seq<seq<Byte>>, chunks: seq<seq<Byte>>, budget: nat)
    requires CodecFacts(encode, decode) && AllWithin(inputs, MAX_FRAME_OUTPUT)
    requires Concat(chunks) == Wire(encode, inputs)
    ensures Coherent(FrontFor(decode))
    ensures var r := RunStream(FrontFor(decode), budget, chunks);
            && (r.Some? ==> r == Some(Concat(inputs)))
            && (AllWithin(inputs, STREAM_BUF_SIZE) ==>
                  (r.Some? <==> CallsWithin(FrontFor(decode), budget, [], chunks)))
            && (AllWithin(inputs, STREAM_BUF_SIZE) && |Concat(inputs)| <= budget ==> r == Some(Concat(inputs)))
  {
    WireDecodes(encode, decode, inputs);
    var front := FrontFor(decode);
    if RunStream(front, budget, chunks).Some? { SplitIndependent(front, budget, chunks); }
    if AllWithin(inputs, STREAM_BUF_SIZE) {
      StreamExact(front, budget, chunks);
      assert [] + Concat(chunks) == Concat(chunks);
      if |Concat(inputs)| <= budget { SmallStreamWithin(front, budget, [], chunks); }
    }
  }

  /** A stream cut after any of its calls has delivered a prefix of the inputs. */
  lemma CutDeliversPrefix(encode: Encoder, decode: Decoder, inputs: seq<seq<Byte>>, first: seq<seq<Byte>>, lost: seq<Byte>, budget: nat)
    requires CodecFacts(encode, decode) && AllWithin(inputs, MAX_FRAME_OUTPUT)
    requires Concat(first) + lost == Wire(encode, inputs)
    ensures Coherent(FrontFor(decode))
    ensures var r := FeedAll(FrontFor(decode), budget, [], first);
            r.Some? ==> r.value.0 <= Concat(inputs)
  {
    WireDecodes(encode, decode, inputs);
    var front := FrontFor(decode);
    if FeedAll(front, budget, [], first).Some? {
      DeliveredIsPrefix(front, budget, first, lost);
    }
  }

  // ---------------------------------------------------------------------------
  // A chunk on the wire
  // ---------------------------------------------------------------------------

  /** `raw.chunks(STREAM_BUF_SIZE)`: windows of 64 KiB, the last one shorter. */
  function Windows(raw: seq<Byte>): (ws: seq<seq<Byte>>)
    ensures Concat(ws) == raw && AllWithin(ws, STREAM_BUF_SIZE)
    ensures forall i :: 0 <= i < |ws| ==> ws[i] != []
    decreases |raw|
  {
    if raw == [] then []
    else
      var n := Min(STREAM_BUF_SIZE, |raw|);
      assert raw[..n] + raw[n..] == raw;
      [raw[..n]] + Windows(raw[n..])
  }

  /** `compress_chunk`. */
  method CompressChunk(encode: Encoder, raw: seq<Byte>) returns (out: seq<Byte>)
    ensures out == Wire(encode, Windows(raw))
  {
    var enc := new ZripCompressor(encode);
    out := [];
    var status: Status;
    var windows := Windows(raw);
    for k := 0 to |windows|
      invariant enc.encode == encode && enc.Tracks(out) && enc.inputs == windows[..k]
    {
      status, out := enc.Compress(windows[k], out);
      assert windows[..k] + [windows[k]] == windows[..k + 1];
    }
    assert windows[..|windows|] == windows;
    status, out := enc.Finish(out);
  }

  /** The receiving loop: every piece of a body in turn, then the end of the stream. */
  method DecompressAll(d: ZripDecompressor, chunks: seq<seq<Byte>>) returns (r: Option<seq<Byte>>)
    requires d.Valid() && !d.finished && d.pending == []
    modifies d
    ensures r == RunStream(d.front, d.maxOutput, chunks)
  {
    var out: seq<Byte> := [];
    var status: Status;
    ghost var whole := FeedAll(d.front, d.maxOutput, [], chunks);
    assert chunks[0..] == chunks;
    PrependNothing(if whole.Some? then Some(whole.value.0) else None);
    for k := 0 to |chunks|
      invariant !d.finished
      invariant whole == Later(out, FeedAll(d.front, d.maxOutput, d.pending, chunks[k..]))
    {
      ghost var was, before := out, d.pending;
      status, out := d.Decompress(chunks[k], out);
      FeedStep(d.front, d.maxOutput, before, chunks[k..], was);
      assert chunks[k..][1..] == chunks[k + 1..];
      if status.Failed? { return None; }
    }
    assert out + [] == out;
    status, out := d.Finish(out);
    r := if status.Ok? then Some(out) else None;
  }

  /** What a run still to come adds to what it has already output. */
  function Later(out: seq<Byte>, rest: Option<(seq<Byte>, seq<Byte>)>): Option<(seq<Byte>, seq<Byte>)> {
    match rest case None => None case Some((more, left)) => Some((out + more, left))
  }

  lemma FeedStep(front: Front, budget: nat, pending: seq<Byte>, chunks: seq<seq<Byte>>, out: seq<Byte>)
    requires Coherent(front) && chunks != []
    ensures var r := Feed(front, budget, pending, chunks[0]);
            Later(out, FeedAll(front, budget, pending, chunks)) ==
            if r.status.Failed? then None else Later(out + r.out, FeedAll(front, budget, r.pending, chunks[1..]))
  {
    var r := Feed(front, budget, pending, chunks[0]);
    if r.status.Ok? && FeedAll(front, budget, r.pending, chunks[1..]).Some? {
      var more := FeedAll(front, budget, r.pending, chunks[1..]).value.0;
      assert out + (r.out + more) == out + r.out + more;
    }
  }

  /**
   * A chunk of up to 16 MiB, framed in 64 KiB windows, never trips the frame, pending or per-call
   * limits, however the network splits or joins it.
   */
  lemma ChunkNeverTrips(encode: Encoder, decode: Decoder, raw: seq<Byte>, chunks: seq<seq<Byte>>)
    requires CodecFacts(encode, decode) && |raw| <= 16 * 1024 * 1024
    requires Concat(chunks) == Wire(encode, Windows(raw))
    ensures Coherent(FrontFor(decode)) && RunStream(FrontFor(decode), MAX_OUTPUT_PER_CALL, chunks) == Some(raw)
  {
    RoundTrip(encode, decode, Windows(raw), chunks, MAX_OUTPUT_PER_CALL);
  }

  // ---------------------------------------------------------------------------
  // The assumed facts can be met
  // ---------------------------------------------------------------------------

  /** An encoder that only stores: two raw blocks, no checksum, no declared size. */
  function Stored(x: seq<Byte>): Frame {
    Zstd(0, [0], [Raw(x[..|x| / 2]), Raw(x[|x| / 2..])], [])
  }

  function Unstored(s: seq<Byte>): Option<seq<Byte>> {
    if |s| < 12 then None else var half := (|s| - 12) / 2; Some(s[9..9 + half] + s[12 + half..])
  }

  lemma FactsConsistent()
    ensures CodecFacts(x => WriteFrame(Stored(x)), Unstored)
  {
    var encode: Encoder := x => WriteFrame(Stored(x));
    forall x: seq<Byte> | |x| <= MAX_FRAME_OUTPUT
      ensures FrameOf(encode, Unstored, x)
    {
      StoredFrame(x);
    }
  }

  lemma TwoBlocks(a: Block, b: Block) returns (one: seq<Byte>, two: seq<Byte>)
    ensures |one| == 3 && |two| == 3
    ensures WriteBlocks([a, b]) == one + a.content + two + b.content
  {
    assert [a, b][1..] == [b] && [b][1..] == [];
    one, two := ToLittleEndian(BlockHeader(a, false), 3), ToLittleEndian(BlockHeader(b, true), 3);
    assert WriteBlocks([b]) == two + b.content;
    assert WriteBlocks([a, b]) == one + a.content + WriteBlocks([b]);
  }

  lemma Sliced(magic: seq<Byte>, one: seq<Byte>, a: seq<Byte>, two: seq<Byte>, b: seq<Byte>)
    requires |magic| == 4 && |one| == 3 && |two| == 3 && |a| <= |b| <= |a| + 1
    ensures var s := magic + [0] + [0] + (one + a + two + b) + [];
            |s| == |a| + |b| + 12 && Unstored(s) == Some(a + b) && s[..4] == magic && s[4] == 0
  {
    var s := magic + [0] + [0] + (one + a + two + b) + [];
    assert s[9..9 + |a|] == a && s[12 + |a|..] == b;
  }

  lemma StoredShape(x: seq<Byte>)
    requires |x| <= MAX_FRAME_OUTPUT
    ensures var s := WriteFrame(Stored(x));
            |s| == |x| + 12 && Unstored(s) == Some(x) && s[..4] == ToLittleEndian(ZSTD_MAGIC, 4) && s[4] == 0
    ensures WellFormed(Stored(x))
  {
    var half := |x| / 2;
    var a, b := Raw(x[..half]), Raw(x[half..]);
    assert a.content + b.content == x;
    var one, two := TwoBlocks(a, b);
    Sliced(ToLittleEndian(ZSTD_MAGIC, 4), one, a.content, two, b.content);
  }

  lemma StoredFrame(x: seq<Byte>)
    requires |x| <= MAX_FRAME_OUTPUT
    ensures FrameOf(y => WriteFrame(Stored(y)), Unstored, x)
  {
    StoredShape(x);
    var s := WriteFrame(Stored(x));
    FrameRecognised(Stored(x), []);
    assert s + [] == s;
    MagicReadBack(ZSTD_MAGIC, s);
    NoDeclaredSize(s);
  }

  /** A zstd frame whose descriptor has no content-size field declares no size. */
  lemma NoDeclaredSize(s: seq<Byte>)
    requires |s| >= 5 && LittleEndian(s[..4]) == ZSTD_MAGIC && s[4] == 0
    requires FrameBoundary(s).Complete?
    ensures FrameBoundary(s).contentSize == None
  {
    assert FrameBoundary(s) == ZstdBoundary(s);
    assert FcsSize(0) == 0;
  }
}
