/**
 * An archive reader after sections 4.3.16 (end record), 4.3.12 (central directory) and 4.3.7
 * (local header) of PKWARE's APPNOTE.TXT, and the proof that it recovers what the writer was given.
 */
module ZipReader {
  import opened Wrappers
  import opened Bytes
  import opened Zip
  import Crc

  function U16At(z: seq<Byte>, k: nat): nat
    requires k + 2 <= |z|
  {
    z[k] as nat + 0x100 * z[k + 1] as nat
  }

  function U32At(z: seq<Byte>, k: nat): nat
    requires k + 4 <= |z|
  {
    z[k] as nat + 0x100 * z[k + 1] as nat + 0x1_0000 * z[k + 2] as nat + 0x100_0000 * z[k + 3] as nat
  }

  // ---------------------------------------------------------------------------
  // The reader
  // ---------------------------------------------------------------------------

  /** The last position that holds an end record whose comment runs to the end of the file. */
  function FindEnd(z: seq<Byte>, k: nat): (end: Option<nat>)
    requires k + 22 <= |z|
    ensures end.Some? ==> end.value <= k && U32At(z, end.value) == END_MAGIC
  {
    if U32At(z, k) == END_MAGIC && k + 22 + U16At(z, k + 20) == |z| then Some(k)
    else if k == 0 then None
    else FindEnd(z, k - 1)
  }

  /** Bit 11 of the flags: the name is UTF-8. */
  predicate Utf8Name(flags: nat) { flags / 0x800 % 2 == 1 }

  /** The stored file behind one directory entry, if its local header agrees and its CRC matches. */
  function ReadLocal(crc32: CrcOf, z: seq<Byte>, offset: nat, name: seq<Byte>, crc: nat, size: nat): Option<Entry> {
    if offset + 30 > |z| || U32At(z, offset) != LOCAL_MAGIC || !Utf8Name(U16At(z, offset + 6)) || U16At(z, offset + 8) != 0 then None
    else
      var nameLen, extraLen := U16At(z, offset + 26), U16At(z, offset + 28);
      var start := offset + 30 + nameLen + extraLen;
      if start + size > |z| || z[offset + 30..offset + 30 + nameLen] != name then None
      else if U32At(z, offset + 14) != crc || U32At(z, offset + 18) != size || U32At(z, offset + 22) != size then None
      else
        var data := z[start..start + size];
        if crc32(data) != crc then None else Some(Entry(name, data))
  }

  datatype Found = Found(entry: Entry, next: nat)

  /** The directory entry at `pos`, with the file it points at, and where the next one starts. */
  function ReadEntry(crc32: CrcOf, z: seq<Byte>, pos: nat): Option<Found> {
    if pos + 46 > |z| || U32At(z, pos) != CENTRAL_MAGIC || !Utf8Name(U16At(z, pos + 8)) || U16At(z, pos + 10) != 0 then None
    else
      var nameLen, extraLen, commentLen := U16At(z, pos + 28), U16At(z, pos + 30), U16At(z, pos + 32);
      var next := pos + 46 + nameLen + extraLen + commentLen;
      if next > |z| || U32At(z, pos + 20) != U32At(z, pos + 24) then None
      else
        var name := z[pos + 46..pos + 46 + nameLen];
        match ReadLocal(crc32, z, U32At(z, pos + 42), name, U32At(z, pos + 16), U32At(z, pos + 24))
        case None => None
        case Some(e) => Some(Found(e, next))
  }

  function Reader(crc32: CrcOf, z: seq<Byte>): nat -> Option<Found> { (pos: nat) => ReadEntry(crc32, z, pos) }

  datatype Listing = Listing(entries: seq<Entry>, end: nat)

  /** `n` entries in a row, from `pos` on. */
  function ReadAll(read: nat -> Option<Found>, pos: nat, n: nat): Option<Listing>
    decreases n
  {
    if n == 0 then Some(Listing([], pos))
    else match read(pos)
      case None => None
      case Some(found) =>
        match ReadAll(read, found.next, n - 1)
        case None => None
        case Some(rest) => Some(Listing([found.entry] + rest.entries, rest.end))
  }

  datatype End = End(pos: nat, count: nat, cdSize: nat, cdOffset: nat)

  /** The end record of a single-disk archive. */
  function ReadEnd(z: seq<Byte>): Option<End> {
    if |z| < 22 then None
    else match FindEnd(z, |z| - 22)
      case None => None
      case Some(k) =>
        if U16At(z, k + 4) != 0 || U16At(z, k + 6) != 0 || U16At(z, k + 8) != U16At(z, k + 10) then None
        else Some(End(k, U16At(z, k + 10), U32At(z, k + 12), U32At(z, k + 16)))
  }

  /** The directory must fill exactly the space between its offset and the end record. */
  function Listed(read: nat -> Option<Found>, end: Option<End>): Option<seq<Entry>> {
    if end.None? then None
    else
      var e := end.value;
      match ReadAll(read, e.cdOffset, e.count)
      case None => None
      case Some(listing) =>
        if e.cdOffset + e.cdSize == e.pos && listing.end == e.pos then Some(listing.entries) else None
  }

  function ReadZip(crc32: CrcOf, z: seq<Byte>): Option<seq<Entry>> { Listed(Reader(crc32, z), ReadEnd(z)) }

  // ---------------------------------------------------------------------------
  // Fields of the writer's records
  // ---------------------------------------------------------------------------

  /** `s` stands at position `k`. */
  predicate At(z: seq<Byte>, k: nat, s: seq<Byte>) { k + |s| <= |z| && z[k..k + |s|] == s }

  lemma AtPart(z: seq<Byte>, k: nat, a: seq<Byte>, b: seq<Byte>)
    requires At(z, k, a + b)
    ensures At(z, k, a) && At(z, k + |a|, b)
  {
    var s := a + b;
    assert z[k..k + |a|] == s[..|a|] == a;
    assert z[k + |a|..k + |s|] == s[|a|..] == b;
  }

  lemma ReadU16(z: seq<Byte>, k: nat, v: nat)
    requires At(z, k, U16(v)) && v <= MAX_U16
    ensures U16At(z, k) == v
  {
    assert z[k..k + 2][0] == z[k] && z[k..k + 2][1] == z[k + 1];
  }

  lemma ReadU32(z: seq<Byte>, k: nat, v: nat)
    requires At(z, k, U32(v)) && v <= MAX_U32
    ensures U32At(z, k) == v
  {
    assert z[k..k + 4][0] == z[k] && z[k..k + 4][1] == z[k + 1];
    assert z[k..k + 4][2] == z[k + 2] && z[k..k + 4][3] == z[k + 3];
    FourDigits(v);
  }

  lemma FourDigits(v: nat)
    requires v <= MAX_U32
    ensures v % 0x100 + 0x100 * (v / 0x100 % 0x100) + 0x1_0000 * (v / 0x1_0000 % 0x100) + 0x100_0000 * (v / 0x100_0000 % 0x100) == v
  {
    var q1 := v / 0x100;
    var q2 := q1 / 0x100;
    var q3 := q2 / 0x100;
    assert v / 0x1_0000 == q2;
    assert v / 0x100_0000 == q3;
    assert q3 % 0x100 == q3;
  }

  lemma ReadSizes(z: seq<Byte>, k: nat, crc: nat, size: nat, nameLen: nat)
    requires At(z, k, Sizes(crc, size, nameLen)) && crc <= MAX_U32 && size <= MAX_U32 && nameLen <= MAX_U16
    ensures U32At(z, k) == crc && U32At(z, k + 4) == size && U32At(z, k + 8) == size && U16At(z, k + 12) == nameLen
  {
    AtPart(z, k, U32(crc) + U32(size) + U32(size), U16(nameLen));
    AtPart(z, k, U32(crc) + U32(size), U32(size));
    AtPart(z, k, U32(crc), U32(size));
    ReadU32(z, k, crc);
    ReadU32(z, k + 4, size);
    ReadU32(z, k + 8, size);
    ReadU16(z, k + 12, nameLen);
  }

  lemma ReadLocalStart(z: seq<Byte>, k: nat)
    requires At(z, k, LocalStart())
    ensures U32At(z, k) == LOCAL_MAGIC && Utf8Name(U16At(z, k + 6)) && U16At(z, k + 8) == 0
  {
    var a, b := U32(LOCAL_MAGIC) + U16(20) + U16(0x0800), U16(0) + U16(0) + U16(0x0021);
    assert LocalStart() == a + b;
    AtPart(z, k, a, b);
    AtPart(z, k, U32(LOCAL_MAGIC) + U16(20), U16(0x0800));
    AtPart(z, k, U32(LOCAL_MAGIC), U16(20));
    AtPart(z, k + 8, U16(0) + U16(0), U16(0x0021));
    AtPart(z, k + 8, U16(0), U16(0));
    ReadU32(z, k, LOCAL_MAGIC);
    ReadU16(z, k + 6, 0x0800);
    ReadU16(z, k + 8, 0);
  }

  lemma ReadCentralStart(z: seq<Byte>, k: nat)
    requires At(z, k, CentralStart())
    ensures U32At(z, k) == CENTRAL_MAGIC && Utf8Name(U16At(z, k + 8)) && U16At(z, k + 10) == 0
  {
    var a, b := U32(CENTRAL_MAGIC) + U16(20) + U16(20) + U16(0x0800), U16(0) + U16(0) + U16(0x0021);
    assert CentralStart() == a + b;
    AtPart(z, k, a, b);
    AtPart(z, k, U32(CENTRAL_MAGIC) + U16(20) + U16(20), U16(0x0800));
    AtPart(z, k, U32(CENTRAL_MAGIC) + U16(20), U16(20));
    AtPart(z, k, U32(CENTRAL_MAGIC), U16(20));
    AtPart(z, k + 10, U16(0) + U16(0), U16(0x0021));
    AtPart(z, k + 10, U16(0), U16(0));
    ReadU32(z, k, CENTRAL_MAGIC);
    ReadU16(z, k + 8, 0x0800);
    ReadU16(z, k + 10, 0);
  }

  lemma ReadCentralMiddle(z: seq<Byte>, k: nat)
    requires At(z, k, CentralMiddle())
    ensures U16At(z, k) == 0 && U16At(z, k + 2) == 0
  {
    AtPart(z, k, U16(0) + U16(0) + U16(0) + U16(0), U32(0));
    AtPart(z, k, U16(0) + U16(0) + U16(0), U16(0));
    AtPart(z, k, U16(0) + U16(0), U16(0));
    AtPart(z, k, U16(0), U16(0));
    ReadU16(z, k, 0);
    ReadU16(z, k + 2, 0);
  }

  /** Local headers read back: the file found behind one is the entry it was written for. */
  lemma LocalReadBack(crc32: CrcOf, z: seq<Byte>, k: nat, e: Entry)
    requires At(z, k, Record(crc32, e))
    requires |e.name| <= MAX_U16 && |e.data| <= MAX_U32 && crc32(e.data) <= MAX_U32
    ensures ReadLocal(crc32, z, k, e.name, crc32(e.data), |e.data|) == Some(e)
  {
    var start, sizes, rest := LocalStart(), Sizes(crc32(e.data), |e.data|, |e.name|), U16(0);
    AtPart(z, k, LocalHeader(e.name, crc32(e.data), |e.data|), e.data);
    AtPart(z, k, start + sizes + rest, e.name);
    AtPart(z, k, start + sizes, rest);
    AtPart(z, k, start, sizes);
    ReadLocalStart(z, k);
    ReadSizes(z, k + 14, crc32(e.data), |e.data|, |e.name|);
    ReadU16(z, k + 28, 0);
  }

  ghost predicate CentralFields(z: seq<Byte>, k: nat, c: Central) {
    && k + 46 + |c.name| <= |z|
    && U32At(z, k) == CENTRAL_MAGIC && Utf8Name(U16At(z, k + 8)) && U16At(z, k + 10) == 0
    && U32At(z, k + 16) == c.crc && U32At(z, k + 20) == c.size && U32At(z, k + 24) == c.size
    && U16At(z, k + 28) == |c.name| && U16At(z, k + 30) == 0 && U16At(z, k + 32) == 0
    && U32At(z, k + 42) == c.offset && z[k + 46..k + 46 + |c.name|] == c.name
  }

  lemma CentralReadBack(z: seq<Byte>, k: nat, c: Central)
    requires At(z, k, CentralHeader(c.name, c.crc, c.size, c.offset))
    requires |c.name| <= MAX_U16 && c.crc <= MAX_U32 && c.size <= MAX_U32 && c.offset <= MAX_U32
    ensures CentralFields(z, k, c)
  {
    var start, sizes, middle := CentralStart(), Sizes(c.crc, c.size, |c.name|), CentralMiddle();
    AtPart(z, k, start + sizes + middle + U32(c.offset), c.name);
    AtPart(z, k, start + sizes + middle, U32(c.offset));
    AtPart(z, k, start + sizes, middle);
    AtPart(z, k, start, sizes);
    ReadCentralStart(z, k);
    ReadSizes(z, k + 16, c.crc, c.size, |c.name|);
    ReadCentralMiddle(z, k + 30);
    ReadU32(z, k + 42, c.offset);
  }

  lemma EndReadBack(z: seq<Byte>, k: nat, count: nat, cdSize: nat, cdOffset: nat)
    requires At(z, k, EndRecord(count, cdSize, cdOffset))
    requires count <= MAX_U16 && cdSize <= MAX_U32 && cdOffset <= MAX_U32
    ensures U32At(z, k) == END_MAGIC && U16At(z, k + 4) == 0 && U16At(z, k + 6) == 0 && U16At(z, k + 20) == 0
    ensures U16At(z, k + 8) == count && U16At(z, k + 10) == count
    ensures U32At(z, k + 12) == cdSize && U32At(z, k + 16) == cdOffset
  {
    var disks, counts, dir := U32(END_MAGIC) + U16(0) + U16(0), U16(count) + U16(count), U32(cdSize) + U32(cdOffset);
    AtPart(z, k, disks + counts + dir, U16(0));
    AtPart(z, k, disks + counts, dir);
    AtPart(z, k, disks, counts);
    AtPart(z, k, U32(END_MAGIC) + U16(0), U16(0));
    AtPart(z, k, U32(END_MAGIC), U16(0));
    AtPart(z, k + 8, U16(count), U16(count));
    AtPart(z, k + 12, U32(cdSize), U32(cdOffset));
    ReadU32(z, k, END_MAGIC);
    ReadU16(z, k + 4, 0);
    ReadU16(z, k + 6, 0);
    ReadU16(z, k + 8, count);
    ReadU16(z, k + 10, count);
    ReadU32(z, k + 12, cdSize);
    ReadU32(z, k + 16, cdOffset);
    ReadU16(z, k + 20, 0);
  }

  // ---------------------------------------------------------------------------
  // The whole archive
  // ---------------------------------------------------------------------------

  /** The entries lie one after the other, from `pos` on. */
  ghost predicate Reads(read: nat -> Option<Found>, entries: seq<Entry>, pos: nat)
    decreases |entries|
  {
    entries == [] ||
    (read(pos) == Some(Found(entries[0], pos + 46 + |entries[0].name|)) &&
     Reads(read, entries[1..], pos + 46 + |entries[0].name|))
  }

  lemma {:induction false} ReadsAll(read: nat -> Option<Found>, entries: seq<Entry>, pos: nat)
    requires Reads(read, entries, pos)
    ensures ReadAll(read, pos, |entries|) == Some(Listing(entries, pos + HeadersSize(entries)))
    decreases |entries|
  {
    if entries != [] {
      ReadsAll(read, entries[1..], pos + 46 + |entries[0].name|);
      assert [entries[0]] + entries[1..] == entries;
    }
  }

  /** A record and its directory header, wherever they stand, read back as their entry. */
  ghost predicate ReadsBackAt(read: nat -> Option<Found>, record: Recorder, header: Describer, crc32: CrcOf,
                              z: seq<Byte>, e: Entry, offset: nat, pos: nat)
  {
    (&& At(z, offset, record(e)) && At(z, pos, header(Central(e.name, crc32(e.data), |e.data|, offset)))
     && |e.name| <= MAX_U16 && crc32(e.data) <= MAX_U32 && offset + RecordSize(e) <= MAX_U32)
    ==> read(pos) == Some(Found(e, pos + 46 + |e.name|))
  }

  /** Where the first entry's record, and those of the others, stand. */
  lemma FirstRecord(record: Recorder, z: seq<Byte>, entries: seq<Entry>, offset: nat)
    requires entries != [] && SizedAt(record, entries[0]) && At(z, offset, Body(record, entries))
    ensures At(z, offset, record(entries[0]))
    ensures At(z, offset + RecordSize(entries[0]), Body(record, entries[1..]))
  {
    AtPart(z, offset, record(entries[0]), Body(record, entries[1..]));
  }

  /** And their directory headers. */
  lemma FirstHeader(header: Describer, z: seq<Byte>, c: Central, later: seq<Central>, pos: nat)
    requires HeadedAt(header, c) && At(z, pos, Headers(header, [c] + later))
    ensures At(z, pos, header(c)) && At(z, pos + 46 + |c.name|, Headers(header, later))
  {
    assert ([c] + later)[1..] == later;
    AtPart(z, pos, header(c), Headers(header, later));
  }

  /** From any entry on: its record, its directory header, and all that follow. */
  lemma {:induction false} DirectoryReads(read: nat -> Option<Found>, record: Recorder, header: Describer, crc32: CrcOf,
                                          z: seq<Byte>, entries: seq<Entry>, offset: nat, pos: nat)
    requires forall e, o: nat, p: nat :: ReadsBackAt(read, record, header, crc32, z, e, o, p)
    requires (forall e :: SizedAt(record, e)) && (forall c :: HeadedAt(header, c))
    requires At(z, offset, Body(record, entries)) && At(z, pos, Headers(header, Centrals(crc32, entries, offset)))
    requires NamesFit(entries) && ChecksumsFit(crc32, entries) && offset + Size(entries) <= MAX_U32
    ensures Reads(read, entries, pos)
    decreases |entries|
  {
    if entries != [] {
      var e, rest := entries[0], entries[1..];
      var c := Central(e.name, crc32(e.data), |e.data|, offset);
      assert SizedAt(record, e) && HeadedAt(header, c);
      FirstRecord(record, z, entries, offset);
      FirstHeader(header, z, c, Centrals(crc32, rest, offset + RecordSize(e)), pos);
      assert ReadsBackAt(read, record, header, crc32, z, e, offset, pos);
      DirectoryReads(read, record, header, crc32, z, rest, offset + RecordSize(e), pos + 46 + |e.name|);
    }
  }

  lemma EntryFromFields(crc32: CrcOf, z: seq<Byte>, e: Entry, c: Central, pos: nat)
    requires CentralFields(z, pos, c) && c.name == e.name
    requires ReadLocal(crc32, z, c.offset, e.name, c.crc, c.size) == Some(e)
    ensures ReadEntry(crc32, z, pos) == Some(Found(e, pos + 46 + |e.name|))
  {
  }

  lemma FieldsReadBack(crc32: CrcOf, z: seq<Byte>, e: Entry, offset: nat, pos: nat) returns (c: Central)
    requires At(z, offset, Record(crc32, e)) && At(z, pos, CentralHeader(e.name, crc32(e.data), |e.data|, offset))
    requires |e.name| <= MAX_U16 && crc32(e.data) <= MAX_U32 && offset + RecordSize(e) <= MAX_U32
    ensures CentralFields(z, pos, c) && c.name == e.name
    ensures ReadLocal(crc32, z, c.offset, e.name, c.crc, c.size) == Some(e)
  {
    c := Central(e.name, crc32(e.data), |e.data|, offset);
    LocalReadBack(crc32, z, offset, e);
    CentralReadBack(z, pos, c);
  }

  lemma EntryReadBack(crc32: CrcOf, z: seq<Byte>, e: Entry, offset: nat, pos: nat)
    requires At(z, offset, Record(crc32, e)) && At(z, pos, CentralHeader(e.name, crc32(e.data), |e.data|, offset))
    requires |e.name| <= MAX_U16 && crc32(e.data) <= MAX_U32 && offset + RecordSize(e) <= MAX_U32
    ensures ReadEntry(crc32, z, pos) == Some(Found(e, pos + 46 + |e.name|))
  {
    var c := FieldsReadBack(crc32, z, e, offset, pos);
    EntryFromFields(crc32, z, e, c, pos);
  }

  lemma WritersReadBack(crc32: CrcOf, z: seq<Byte>)
    ensures forall e, o: nat, p: nat :: ReadsBackAt(Reader(crc32, z), RecordWith(crc32), CentralOf(), crc32, z, e, o, p)
  {
    forall e, o: nat, p: nat
      ensures ReadsBackAt(Reader(crc32, z), RecordWith(crc32), CentralOf(), crc32, z, e, o, p)
    {
      if At(z, o, Record(crc32, e)) && At(z, p, CentralHeader(e.name, crc32(e.data), |e.data|, o))
         && |e.name| <= MAX_U16 && crc32(e.data) <= MAX_U32 && o + RecordSize(e) <= MAX_U32 {
        EntryReadBack(crc32, z, e, o, p);
      }
    }
  }

  lemma EndFound(z: seq<Byte>, count: nat, cdSize: nat, cdOffset: nat)
    requires At(z, cdOffset + cdSize, EndRecord(count, cdSize, cdOffset)) && |z| == cdOffset + cdSize + 22
    requires count <= MAX_U16 && cdSize <= MAX_U32 && cdOffset <= MAX_U32
    ensures ReadEnd(z) == Some(End(cdOffset + cdSize, count, cdSize, cdOffset))
  {
    EndReadBack(z, cdOffset + cdSize, count, cdSize, cdOffset);
  }

  /** Any archive whose parts read back reads back. */
  lemma PartsReadBack(read: nat -> Option<Found>, record: Recorder, header: Describer, crc32: CrcOf,
                      z: seq<Byte>, entries: seq<Entry>, end: End)
    requires forall e, o: nat, p: nat :: ReadsBackAt(read, record, header, crc32, z, e, o, p)
    requires (forall e :: SizedAt(record, e)) && (forall c :: HeadedAt(header, c))
    requires Fits(entries) && ChecksumsFit(crc32, entries)
    requires At(z, 0, Body(record, entries)) && At(z, Size(entries), Headers(header, Centrals(crc32, entries, 0)))
    requires end == End(Size(entries) + HeadersSize(entries), |entries|, HeadersSize(entries), Size(entries))
    ensures Listed(read, Some(end)) == Some(entries)
  {
    DirectoryReads(read, record, header, crc32, z, entries, 0, Size(entries));
    ReadsAll(read, entries, Size(entries));
  }

  predicate ChecksumsFit(crc32: CrcOf, entries: seq<Entry>) {
    forall i :: 0 <= i < |entries| ==> crc32(entries[i].data) <= MAX_U32
  }

  /** The end record read back from an archive of three parts, as the other two are found. */
  lemma EndOf(z: seq<Byte>, tail: seq<Byte>, body: seq<Byte>, dir: seq<Byte>, count: nat)
    requires z == body + dir + tail && tail == EndRecord(count, |dir|, |body|)
    requires count <= MAX_U16 && |dir| <= MAX_U32 && |body| <= MAX_U32
    ensures ReadEnd(z) == Some(End(|body| + |dir|, count, |dir|, |body|))
  {
    var n, m := |body|, |dir|;
    ThreeParts(body, dir, tail);
    assert At(z, n + m, EndRecord(count, m, n)) && |z| == n + m + 22;
    EndFound(z, count, m, n);
  }

  /** Read-back with any checksum of at most 32 bits. */
  lemma ReadBack(crc32: CrcOf, entries: seq<Entry>)
    requires Fits(entries) && ChecksumsFit(crc32, entries)
    ensures ReadZip(crc32, Archive(crc32, entries)) == Some(entries)
  {
    var record, header, z := RecordWith(crc32), CentralOf(), Archive(crc32, entries);
    var body, dir := Body(record, entries), Headers(header, Centrals(crc32, entries, 0));
    RecordsSized(crc32);
    HeadersSized();
    BodySize(record, entries);
    HeadersOfSize(header, crc32, entries, 0);
    ThreeParts(body, dir, EndRecord(|entries|, |dir|, |body|));
    EndOf(z, EndRecord(|entries|, |dir|, |body|), body, dir, |entries|);
    WritersReadBack(crc32, z);
    PartsReadBack(Reader(crc32, z), record, header, crc32, z, entries, End(|body| + |dir|, |entries|, |dir|, |body|));
  }

  lemma ThreeParts(a: seq<Byte>, b: seq<Byte>, c: seq<Byte>)
    ensures var z := a + b + c; At(z, 0, a) && At(z, |a|, b) && At(z, |a| + |b|, c) && |z| == |a| + |b| + |c|
  {
    var z := a + b + c;
    assert z[0..|a|] == a && z[|a|..|a| + |b|] == b && z[|a| + |b|..] == c;
  }

  /**
   * Whatever the writer returns instead of throwing, a reader recovers exactly the names and data it
   * was given, in order, with matching CRCs: no count, length, size or offset was cut short.
   */
  method ZipAndRead(entries: seq<Entry>) returns (r: Outcome, back: Option<seq<Entry>>)
    ensures r.Blob? ==> back == Some(entries)
    ensures r.Blob? <==> Fits(entries)
  {
    r := CreateZip(entries);
    back := None;
    if r.Blob? {
      forall i | 0 <= i < |entries|
        ensures Crc.Crc32(entries[i].data) <= MAX_U32
      {
        Crc.CrcFits(entries[i].data);
      }
      ReadBack(Crc.Crc32, entries);
      back := ReadZip(Crc.Crc32, r.bytes);
    }
  }
}
