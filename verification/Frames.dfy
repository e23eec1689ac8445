/**
 * The frame-boundary parser of the streaming codec (crates/libfw-core/src/compress.rs), and the
 * frame layout of sections 3.1.1 and 3.1.2 of RFC 8878 it is meant to recognise.
 */
module Frames {
  import opened Wrappers
  import opened Bytes

  const CHUNK_SIZE: nat := 2 * 1024 * 1024
  const STREAM_BUF_SIZE: nat := 64 * 1024
  const MAX_FRAME_OUTPUT: nat := CHUNK_SIZE
  const MAX_PENDING_FRAME: nat := CHUNK_SIZE + STREAM_BUF_SIZE
  const MAX_OUTPUT_PER_CALL: nat := MAX_FRAME_OUTPUT * 8

  const ZSTD_MAGIC: nat := 0xFD2F_B528
  const SKIPPABLE_MAGIC: nat := 0x184D_2A50

  datatype Boundary = Complete(len: nat, contentSize: Option<nat>) | Incomplete | Invalid

  // ---------------------------------------------------------------------------
  // The parser
  // ---------------------------------------------------------------------------

  /** `frame_boundary`: the byte length of the next frame in `buf`, if it is all there. */
  function FrameBoundary(buf: seq<Byte>): Boundary {
    if |buf| < 4 then Incomplete
    else
      var magic := LittleEndian(buf[..4]);
      if magic == ZSTD_MAGIC then ZstdBoundary(buf)
      else if magic / 16 == SKIPPABLE_MAGIC / 16 then SkippableBoundary(buf)
      else Invalid
  }

  function SkippableBoundary(buf: seq<Byte>): Boundary {
    if |buf| < 8 then Incomplete
    else
      var total := 8 + LittleEndian(buf[4..8]);
      if |buf| >= total then Complete(total, Some(0)) else Incomplete
  }

  /** Bits 3 and 4 of the frame header descriptor. */
  predicate ReservedClear(descriptor: Byte) { descriptor / 8 % 4 == 0 }

  predicate SingleSegment(descriptor: Byte) { descriptor / 32 % 2 == 1 }

  predicate HasChecksum(descriptor: Byte) { descriptor / 4 % 2 == 1 }

  function DictIdSize(descriptor: Byte): nat {
    match descriptor % 4 case 0 => 0 case 1 => 1 case 2 => 2 case _ => 4
  }

  /** Bytes of the frame content size field. */
  function FcsSize(descriptor: Byte): nat {
    match descriptor / 64
    case 0 => if SingleSegment(descriptor) then 1 else 0
    case 1 => 2
    case 2 => 4
    case _ => 8
  }

  /** Magic, descriptor, and the optional header fields. */
  function HeaderLen(descriptor: Byte): nat {
    5 + (if SingleSegment(descriptor) then 0 else 1) + DictIdSize(descriptor) + FcsSize(descriptor)
  }

  /** The content size as the parser reads it: at byte 5, whatever precedes the field. */
  function ContentSize(buf: seq<Byte>, fcsSize: nat): Option<nat>
    requires 5 + fcsSize <= |buf|
  {
    if fcsSize > 0 then Some(LittleEndian(buf[5..5 + fcsSize])) else None
  }

  function ZstdBoundary(buf: seq<Byte>): Boundary {
    if |buf| < 5 then Incomplete
    else if !ReservedClear(buf[4]) then Invalid
    else
      var hdr := HeaderLen(buf[4]);
      if |buf| < hdr then Incomplete
      else match WalkBlocks(buf, hdr)
        case More => Incomplete
        case Bad => Invalid
        case End(off) =>
          var len := off + if HasChecksum(buf[4]) then 4 else 0;
          if |buf| < len then Incomplete else Complete(len, ContentSize(buf, FcsSize(buf[4])))
  }

  datatype Walk = End(off: nat) | More | Bad

  /** Block header: bit 0 last, bits 1 and 2 type, the rest size. */
  predicate IsLast(h: nat) { h % 2 == 1 }

  function BlockType(h: nat): nat { h / 2 % 4 }

  function BlockSize(h: nat): nat { h / 8 }

  /** Walk the blocks from `off` to the end of the last one. */
  function WalkBlocks(buf: seq<Byte>, off: nat): Walk
    decreases |buf| - off
  {
    if |buf| < off + 3 then More
    else
      var h := LittleEndian(buf[off..off + 3]);
      var next := off + 3 + BlockSize(h);
      if BlockType(h) == 3 then Bad
      else if next > MAX_PENDING_FRAME then Bad
      else if IsLast(h) then End(next)
      else WalkBlocks(buf, next)
  }

  /** `zstd_frame_boundary`: the loop over the blocks. */
  method ZstdFrameBoundary(buf: seq<Byte>) returns (b: Boundary)
    ensures b == ZstdBoundary(buf)
  {
    if |buf| < 5 { return Incomplete; }
    var descriptor := buf[4];
    if descriptor / 8 % 4 != 0 { return Invalid; }
    var hdrLen := 5;
    if !SingleSegment(descriptor) { hdrLen := hdrLen + 1; }
    hdrLen := hdrLen + DictIdSize(descriptor);
    var fcsSize := FcsSize(descriptor);
    hdrLen := hdrLen + fcsSize;
    if |buf| < hdrLen { return Incomplete; }
    var contentSize := ContentSize(buf, fcsSize);
    var off := hdrLen;
    while true
      invariant WalkBlocks(buf, off) == WalkBlocks(buf, hdrLen)
      decreases |buf| - off
    {
      if |buf| < off + 3 { return Incomplete; }
      var header := LittleEndian(buf[off..off + 3]);
      if BlockType(header) == 3 { return Invalid; }
      off := off + 3 + BlockSize(header);
      if off > MAX_PENDING_FRAME { return Invalid; }
      if IsLast(header) { break; }
    }
    if HasChecksum(descriptor) { off := off + 4; }
    if |buf| < off { return Incomplete; }
    return Complete(off, contentSize);
  }

  // ---------------------------------------------------------------------------
  // A prefix code
  // ---------------------------------------------------------------------------

  lemma {:induction false} WalkExtend(buf: seq<Byte>, ext: seq<Byte>, off: nat)
    requires !WalkBlocks(buf, off).More?
    ensures WalkBlocks(buf + ext, off) == WalkBlocks(buf, off)
    decreases |buf| - off
  {
    var h := LittleEndian(buf[off..off + 3]);
    assert (buf + ext)[off..off + 3] == buf[off..off + 3];
    if BlockType(h) != 3 && off + 3 + BlockSize(h) <= MAX_PENDING_FRAME && !IsLast(h) {
      WalkExtend(buf, ext, off + 3 + BlockSize(h));
    }
  }

  lemma {:induction false} WalkShorten(buf: seq<Byte>, k: nat, off: nat)
    requires k <= |buf| && WalkBlocks(buf, off).End?
    ensures WalkBlocks(buf[..k], off).More? || WalkBlocks(buf[..k], off) == WalkBlocks(buf, off)
    decreases |buf| - off
  {
    if k >= off + 3 {
      var h := LittleEndian(buf[off..off + 3]);
      assert buf[..k][off..off + 3] == buf[off..off + 3];
      if !IsLast(h) { WalkShorten(buf, k, off + 3 + BlockSize(h)); }
    }
  }

  lemma {:induction false} WalkAdvances(buf: seq<Byte>, off: nat)
    requires WalkBlocks(buf, off).End?
    ensures off + 3 <= WalkBlocks(buf, off).off
    decreases |buf| - off
  {
    var h := LittleEndian(buf[off..off + 3]);
    if !IsLast(h) { WalkAdvances(buf, off + 3 + BlockSize(h)); }
  }

  /** What follows a frame, and what follows a corrupt one, does not change the verdict. */
  lemma BoundaryStable(buf: seq<Byte>, ext: seq<Byte>)
    requires !FrameBoundary(buf).Incomplete?
    ensures FrameBoundary(buf + ext) == FrameBoundary(buf)
    ensures FrameBoundary(buf).Complete? ==> 8 <= FrameBoundary(buf).len <= |buf|
  {
    var all := buf + ext;
    assert all[..4] == buf[..4];
    var magic := LittleEndian(buf[..4]);
    if magic == ZSTD_MAGIC {
      assert all[4] == buf[4];
      if ReservedClear(buf[4]) {
        var hdr := HeaderLen(buf[4]);
        WalkExtend(buf, ext, hdr);
        assert all[5..5 + FcsSize(buf[4])] == buf[5..5 + FcsSize(buf[4])];
        if WalkBlocks(buf, hdr).End? { WalkAdvances(buf, hdr); }
      }
    } else if magic / 16 == SKIPPABLE_MAGIC / 16 {
      assert all[4..8] == buf[4..8];
    }
  }

  /** No proper prefix of a frame is a frame, or corrupt. */
  lemma ShorterIsIncomplete(buf: seq<Byte>, k: nat)
    requires FrameBoundary(buf).Complete? && k < FrameBoundary(buf).len
    ensures FrameBoundary(buf[..k]) == Incomplete
  {
    BoundaryStable(buf, []);
    if k >= 4 {
      assert buf[..k][..4] == buf[..4];
      var magic := LittleEndian(buf[..4]);
      if magic == ZSTD_MAGIC {
        if k >= 5 && k >= HeaderLen(buf[4]) { WalkShorten(buf, k, HeaderLen(buf[4])); }
      } else if k >= 8 {
        assert buf[..k][4..8] == buf[4..8];
      }
    }
  }

  /** A frame is recognised by itself, with nothing after it. */
  lemma FrameAlone(buf: seq<Byte>)
    requires FrameBoundary(buf).Complete?
    ensures var len := FrameBoundary(buf).len; 8 <= len <= |buf| && FrameBoundary(buf[..len]) == FrameBoundary(buf)
  {
    BoundaryStable(buf, []);
    var len := FrameBoundary(buf).len;
    var frame := buf[..len];
    assert buf == frame + buf[len..];
    assert frame[..4] == buf[..4];
    if LittleEndian(buf[..4]) == ZSTD_MAGIC {
      WalkShorten(buf, len, HeaderLen(buf[4]));
      WalkWhole(buf, len, HeaderLen(buf[4]));
      assert frame[5..5 + FcsSize(buf[4])] == buf[5..5 + FcsSize(buf[4])];
    } else {
      assert frame[4..8] == buf[4..8];
    }
  }

  /** A buffer cut anywhere after the frame still starts with that frame. */
  lemma FrameWithin(buf: seq<Byte>, k: nat)
    requires FrameBoundary(buf).Complete? && FrameBoundary(buf).len <= k <= |buf|
    ensures FrameBoundary(buf[..k]) == FrameBoundary(buf)
  {
    var len := FrameBoundary(buf).len;
    FrameAlone(buf);
    BoundaryStable(buf[..len], buf[len..k]);
    assert buf[..len] + buf[len..k] == buf[..k];
  }

  lemma {:induction false} WalkWhole(buf: seq<Byte>, k: nat, off: nat)
    requires k <= |buf| && WalkBlocks(buf, off).End? && WalkBlocks(buf, off).off <= k
    ensures WalkBlocks(buf[..k], off) == WalkBlocks(buf, off)
    decreases |buf| - off
  {
    WalkAdvances(buf, off);
    var h := LittleEndian(buf[off..off + 3]);
    assert buf[..k][off..off + 3] == buf[off..off + 3];
    if !IsLast(h) { WalkWhole(buf, k, off + 3 + BlockSize(h)); }
  }

  // ---------------------------------------------------------------------------
  // RFC 8878
  // ---------------------------------------------------------------------------

  /** Blocks whose size field is their length on the wire (section 3.1.1.2 of RFC 8878). */
  datatype Block = Raw(content: seq<Byte>) | Compressed(content: seq<Byte>)

  datatype Frame =
    | Zstd(descriptor: Byte, fields: seq<Byte>, blocks: seq<Block>, checksum: seq<Byte>)
    | Skippable(variant: nat, payload: seq<Byte>)

  function BlockHeader(b: Block, last: bool): nat {
    (if last then 1 else 0) + 2 * (if b.Raw? then 0 else 2) + 8 * |b.content|
  }

  function WriteBlocks(blocks: seq<Block>): seq<Byte> {
    if blocks == [] then []
    else ToLittleEndian(BlockHeader(blocks[0], |blocks| == 1), 3) + blocks[0].content + WriteBlocks(blocks[1..])
  }

  /** Section 3.1.1 (Zstandard frames) and section 3.1.2 (skippable frames) of RFC 8878. */
  function WriteFrame(f: Frame): seq<Byte> {
    match f
    case Zstd(d, fields, blocks, checksum) =>
      ToLittleEndian(ZSTD_MAGIC, 4) + [d] + fields + WriteBlocks(blocks) + checksum
    case Skippable(v, payload) =>
      ToLittleEndian(SKIPPABLE_MAGIC + v, 4) + ToLittleEndian(|payload|, 4) + payload
  }

  predicate BlocksFit(blocks: seq<Block>) {
    blocks != [] && forall i :: 0 <= i < |blocks| ==> |blocks[i].content| < 0x20_0000
  }

  predicate WellFormed(f: Frame) {
    match f
    case Zstd(d, fields, blocks, checksum) =>
      && ReservedClear(d) && |fields| == HeaderLen(d) - 5 && BlocksFit(blocks)
      && |checksum| == (if HasChecksum(d) then 4 else 0)
      && HeaderLen(d) + |WriteBlocks(blocks)| <= MAX_PENDING_FRAME
    case Skippable(v, payload) => v < 16 && |payload| < 0x1_0000_0000
  }

  lemma HeaderBits(last: nat, kind: nat, size: nat)
    requires last < 2 && kind < 4
    ensures var h := last + 2 * kind + 8 * size; h % 2 == last && h / 2 == kind + 4 * size && h / 2 % 4 == kind && h / 8 == size
  {
  }

  lemma HeaderReadBack(b: Block, last: bool)
    requires |b.content| < 0x20_0000
    ensures LittleEndian(ToLittleEndian(BlockHeader(b, last), 3)) == BlockHeader(b, last)
    ensures var h := BlockHeader(b, last);
            && IsLast(h) == last && BlockSize(h) == |b.content| && BlockType(h) == if b.Raw? then 0 else 2
  {
    assert Pow256(3) == 0x100_0000;
    LittleEndianRoundTrip(BlockHeader(b, last), 3);
    HeaderBits(if last then 1 else 0, if b.Raw? then 0 else 2, |b.content|);
  }

  /** One written block is walked over, header and content. */
  lemma WalkOne(buf: seq<Byte>, off: nat, b: Block, last: bool)
    requires |b.content| < 0x20_0000 && off + 3 + |b.content| <= MAX_PENDING_FRAME
    requires off + 3 <= |buf| && buf[off..off + 3] == ToLittleEndian(BlockHeader(b, last), 3)
    ensures WalkBlocks(buf, off) ==
              if last then End(off + 3 + |b.content|) else WalkBlocks(buf, off + 3 + |b.content|)
  {
    HeaderReadBack(b, last);
  }

  lemma {:induction false} WalkWritten(buf: seq<Byte>, off: nat, blocks: seq<Block>)
    requires BlocksFit(blocks) && off + |WriteBlocks(blocks)| <= MAX_PENDING_FRAME
    requires off + |WriteBlocks(blocks)| <= |buf| && buf[off..off + |WriteBlocks(blocks)|] == WriteBlocks(blocks)
    ensures WalkBlocks(buf, off) == End(off + |WriteBlocks(blocks)|)
    decreases |blocks|
  {
    var b, rest, last, all := blocks[0], blocks[1..], |blocks| == 1, WriteBlocks(blocks);
    var header := ToLittleEndian(BlockHeader(b, last), 3);
    assert all == header + b.content + WriteBlocks(rest);
    assert buf[off..off + 3] == all[..3] == header;
    WalkOne(buf, off, b, last);
    if last {
      assert rest == [];
    } else {
      var n := 3 + |b.content|;
      assert buf[off + n..off + |all|] == all[n..] == WriteBlocks(rest);
      WalkWritten(buf, off + n, rest);
    }
  }

  /** Every well-formed frame is recognised with exactly its own length, whatever follows. */
  lemma FrameRecognised(f: Frame, tail: seq<Byte>)
    requires WellFormed(f)
    ensures FrameBoundary(WriteFrame(f) + tail).Complete?
    ensures FrameBoundary(WriteFrame(f) + tail).len == |WriteFrame(f)|
  {
    match f
    case Zstd(_, _, _, _) => ZstdRecognised(f, tail);
    case Skippable(_, _) => SkippableRecognised(f, tail);
  }

  lemma MagicReadBack(magic: nat, buf: seq<Byte>)
    requires magic < 0x1_0000_0000 && |buf| >= 4 && buf[..4] == ToLittleEndian(magic, 4)
    ensures LittleEndian(buf[..4]) == magic
  {
    assert Pow256(4) == 0x1_0000_0000;
    LittleEndianRoundTrip(magic, 4);
  }

  lemma ZstdRecognised(f: Frame, tail: seq<Byte>)
    requires f.Zstd? && WellFormed(f)
    ensures FrameBoundary(WriteFrame(f) + tail).Complete?
    ensures FrameBoundary(WriteFrame(f) + tail).len == |WriteFrame(f)|
  {
    var buf, magic := WriteFrame(f) + tail, ToLittleEndian(ZSTD_MAGIC, 4);
    var pre, post := magic + [f.descriptor] + f.fields, f.checksum + tail;
    assert buf == pre + WriteBlocks(f.blocks) + post;
    assert pre[..4] == magic && pre[4] == f.descriptor;
    assert buf[..4] == magic && buf[4] == f.descriptor;
    MagicReadBack(ZSTD_MAGIC, buf);
    assert buf[|pre|..|pre| + |WriteBlocks(f.blocks)|] == WriteBlocks(f.blocks);
    WalkWritten(buf, |pre|, f.blocks);
  }

  lemma SkippableRecognised(f: Frame, tail: seq<Byte>)
    requires f.Skippable? && WellFormed(f)
    ensures FrameBoundary(WriteFrame(f) + tail).Complete?
    ensures FrameBoundary(WriteFrame(f) + tail).len == |WriteFrame(f)|
  {
    var buf, magic := WriteFrame(f) + tail, ToLittleEndian(SKIPPABLE_MAGIC + f.variant, 4);
    var size := ToLittleEndian(|f.payload|, 4);
    assert buf == magic + size + f.payload + tail;
    assert buf[..4] == magic && buf[4..8] == size;
    MagicReadBack(SKIPPABLE_MAGIC + f.variant, buf);
    MagicReadBack(|f.payload|, buf[4..]);
    assert buf[4..][..4] == buf[4..8];
  }

  /** The walk from `off` meets an RLE block (type 1), whose size field is not its length on the wire. */
  predicate MeetsRle(buf: seq<Byte>, off: nat)
    requires WalkBlocks(buf, off).End?
    decreases |buf| - off
  {
    var h := LittleEndian(buf[off..off + 3]);
    BlockType(h) == 1 || (!IsLast(h) && MeetsRle(buf, off + 3 + BlockSize(h)))
  }

  /** A block header is its last flag, its type and its size. */
  lemma HeaderParts(h: nat)
    ensures h == (if IsLast(h) then 1 else 0) + 2 * BlockType(h) + 8 * BlockSize(h)
  {
    var q := h / 2;
    assert h == 2 * q + h % 2;
    assert q == 4 * (q / 4) + q % 4;
    assert q / 4 == h / 8;
  }

  /** The block whose header and content start at `off`. */
  lemma BlockOf(buf: seq<Byte>, off: nat) returns (b: Block)
    requires off + 3 <= |buf|
    requires var h := LittleEndian(buf[off..off + 3]);
             off + 3 + BlockSize(h) <= |buf| && BlockType(h) in {0, 2}
    ensures var h := LittleEndian(buf[off..off + 3]);
            && |b.content| < 0x20_0000 && |b.content| == BlockSize(h)
            && ToLittleEndian(BlockHeader(b, IsLast(h)), 3) + b.content == buf[off..off + 3 + BlockSize(h)]
  {
    var raw := buf[off..off + 3];
    var h := LittleEndian(raw);
    ToLittleEndianOf(raw);
    assert Pow256(3) == 0x100_0000;
    var content := buf[off + 3..off + 3 + BlockSize(h)];
    b := if BlockType(h) == 0 then Raw(content) else Compressed(content);
    HeaderParts(h);
    assert raw + content == buf[off..off + 3 + BlockSize(h)];
  }

  lemma {:induction false} BlocksOf(buf: seq<Byte>, off: nat, end: nat) returns (blocks: seq<Block>)
    requires WalkBlocks(buf, off) == End(end) && off <= end <= |buf| && !MeetsRle(buf, off)
    ensures BlocksFit(blocks) && WriteBlocks(blocks) == buf[off..end]
    decreases |buf| - off
  {
    var h := LittleEndian(buf[off..off + 3]);
    var next := off + 3 + BlockSize(h);
    if !IsLast(h) { WalkAdvances(buf, next); }
    var b := BlockOf(buf, off);
    if IsLast(h) {
      blocks := [b];
      assert [b][1..] == [];
    } else {
      var rest := BlocksOf(buf, next, end);
      blocks := [b] + rest;
      assert blocks[1..] == rest;
      assert buf[off..end] == buf[off..next] + buf[next..end];
    }
  }

  /** Conversely, whatever is recognised without an RLE block is a frame of RFC 8878, of that length. */
  lemma RecognisedIsFrame(buf: seq<Byte>) returns (f: Frame)
    requires FrameBoundary(buf).Complete?
    requires LittleEndian(buf[..4]) == ZSTD_MAGIC ==> !MeetsRle(buf, HeaderLen(buf[4]))
    ensures WellFormed(f) && FrameBoundary(buf).len <= |buf|
    ensures WriteFrame(f) == buf[..FrameBoundary(buf).len]
  {
    BoundaryStable(buf, []);
    ToLittleEndianOf(buf[..4]);
    if LittleEndian(buf[..4]) == ZSTD_MAGIC {
      f := ZstdOf(buf);
    } else {
      f := SkippableOf(buf);
    }
  }

  lemma ZstdOf(buf: seq<Byte>) returns (f: Frame)
    requires FrameBoundary(buf).Complete? && LittleEndian(buf[..4]) == ZSTD_MAGIC
    requires ToLittleEndian(ZSTD_MAGIC, 4) == buf[..4] && FrameBoundary(buf).len <= |buf|
    requires !MeetsRle(buf, HeaderLen(buf[4]))
    ensures WellFormed(f) && WriteFrame(f) == buf[..FrameBoundary(buf).len]
  {
    var len, d := FrameBoundary(buf).len, buf[4];
    var hdr := HeaderLen(d);
    var end := WalkBlocks(buf, hdr).off;
    WalkAdvances(buf, hdr);
    WalkCapped(buf, hdr);
    var blocks := BlocksOf(buf, hdr, end);
    f := Zstd(d, buf[5..hdr], blocks, buf[end..len]);
    assert buf[..len] == buf[..4] + [d] + buf[5..hdr] + buf[hdr..end] + buf[end..len];
  }

  lemma SkippableOf(buf: seq<Byte>) returns (f: Frame)
    requires FrameBoundary(buf).Complete? && LittleEndian(buf[..4]) != ZSTD_MAGIC
    requires ToLittleEndian(LittleEndian(buf[..4]), 4) == buf[..4] && FrameBoundary(buf).len <= |buf|
    ensures WellFormed(f) && WriteFrame(f) == buf[..FrameBoundary(buf).len]
  {
    var len := FrameBoundary(buf).len;
    ToLittleEndianOf(buf[4..8]);
    assert Pow256(4) == 0x1_0000_0000;
    var magic := LittleEndian(buf[..4]);
    f := Skippable(magic - SKIPPABLE_MAGIC, buf[8..len]);
    assert buf[..len] == buf[..4] + buf[4..8] + buf[8..len];
  }

  lemma {:induction false} WalkCapped(buf: seq<Byte>, off: nat)
    requires WalkBlocks(buf, off).End?
    ensures WalkBlocks(buf, off).off <= MAX_PENDING_FRAME
    decreases |buf| - off
  {
    var h := LittleEndian(buf[off..off + 3]);
    if !IsLast(h) { WalkCapped(buf, off + 3 + BlockSize(h)); }
  }

  // ---------------------------------------------------------------------------
  // What is refused
  // ---------------------------------------------------------------------------

  /** Following the blocks from `from`, none of them the last, leads to one at `off`. */
  ghost predicate Leads(buf: seq<Byte>, from: nat, off: nat)
    decreases |buf| - from
  {
    from == off ||
    (from + 3 <= |buf| &&
     (var h := LittleEndian(buf[from..from + 3]);
      h % 2 == 0 && Leads(buf, from + 3 + h / 8, off)))
  }

  /** The block at `off` is of the reserved type, or runs past the largest frame accepted. */
  predicate BadBlock(buf: seq<Byte>, off: nat) {
    off + 3 <= |buf| &&
    (var h := LittleEndian(buf[off..off + 3]);
     h / 2 % 4 == 3 || off + 3 + h / 8 > MAX_PENDING_FRAME)
  }

  lemma {:induction false} WalkBadWhen(buf: seq<Byte>, from: nat, off: nat)
    requires Leads(buf, from, off) && BadBlock(buf, off)
    ensures WalkBlocks(buf, from).Bad?
    decreases |buf| - from
  {
    if from != off && !BadBlock(buf, from) {
      WalkBadWhen(buf, from + 3 + LittleEndian(buf[from..from + 3]) / 8, off);
    }
  }

  lemma {:induction false} WalkBadOnly(buf: seq<Byte>, from: nat) returns (off: nat)
    requires WalkBlocks(buf, from).Bad?
    ensures Leads(buf, from, off) && BadBlock(buf, off)
    decreases |buf| - from
  {
    off := from;
    if !BadBlock(buf, from) {
      off := WalkBadOnly(buf, from + 3 + LittleEndian(buf[from..from + 3]) / 8);
    }
  }

  /** The frame header is complete, its reserved bits are clear, and its blocks lead to a bad one. */
  ghost predicate BadBlocks(buf: seq<Byte>) {
    && |buf| >= 5 && buf[4] / 8 % 4 == 0 && |buf| >= HeaderLen(buf[4])
    && exists off: nat :: Leads(buf, HeaderLen(buf[4]), off) && BadBlock(buf, off)
  }

  /**
   * A buffer is refused if and only if its magic number is neither a frame's nor a skippable frame's,
   * a reserved bit of the descriptor is set, or its blocks lead to a bad one.
   */
  lemma InvalidExactly(buf: seq<Byte>)
    ensures FrameBoundary(buf).Invalid? <==>
              |buf| >= 4 &&
              (var magic := LittleEndian(buf[..4]);
               if magic == 0xFD2F_B528 then (|buf| >= 5 && buf[4] / 8 % 4 != 0) || BadBlocks(buf)
               else !(0x184D_2A50 <= magic <= 0x184D_2A5F))
  {
    if |buf| >= 5 && buf[4] / 8 % 4 == 0 && |buf| >= HeaderLen(buf[4]) {
      var from := HeaderLen(buf[4]);
      if WalkBlocks(buf, from).Bad? { var off := WalkBadOnly(buf, from); }
      if off: nat :| Leads(buf, from, off) && BadBlock(buf, off) { WalkBadWhen(buf, from, off); }
    }
  }

  lemma SizeRead(buf: seq<Byte>)
    requires |buf| >= 5 && LittleEndian(buf[..4]) == ZSTD_MAGIC && FrameBoundary(buf).Complete?
    ensures |buf| >= HeaderLen(buf[4]) && FrameBoundary(buf).contentSize == ContentSize(buf, FcsSize(buf[4]))
  {
    assert FrameBoundary(buf) == ZstdBoundary(buf);
  }

  lemma FieldsAt(f: Frame, tail: seq<Byte>)
    requires f.Zstd? && WellFormed(f)
    ensures var buf := WriteFrame(f) + tail;
            && |buf| >= 5 + |f.fields| && LittleEndian(buf[..4]) == ZSTD_MAGIC && buf[4] == f.descriptor
            && buf[5..5 + |f.fields|] == f.fields
  {
    var magic, rest := ToLittleEndian(ZSTD_MAGIC, 4), WriteBlocks(f.blocks) + f.checksum + tail;
    var buf := WriteFrame(f) + tail;
    assert buf == magic + [f.descriptor] + f.fields + rest;
    assert buf[..4] == magic;
    MagicReadBack(ZSTD_MAGIC, buf);
  }

  /** A single-segment frame without a dictionary declares the size its field holds. */
  lemma DeclaredSize(f: Frame, tail: seq<Byte>)
    requires f.Zstd? && WellFormed(f) && f.descriptor / 32 % 2 == 1 && f.descriptor % 4 == 0
    ensures FrameBoundary(WriteFrame(f) + tail).Complete?
    ensures FrameBoundary(WriteFrame(f) + tail).contentSize == Some(LittleEndian(f.fields))
  {
    var buf := WriteFrame(f) + tail;
    FrameRecognised(f, tail);
    FieldsAt(f, tail);
    SizeRead(buf);
  }
}
