/**
 * The archive writer (sdk/zip.js:51-147), against a reader that follows sections 4.3.16, 4.3.12
 * and 4.3.7 of PKWARE's APPNOTE.TXT. Entry names are given as their UTF-8 bytes.
 */
module Zip {
  import opened Bytes
  import opened Crc

  datatype Entry = Entry(name: seq<Byte>, data: seq<Byte>)

  datatype ZipError = TooManyEntries | NameTooLong | ArchiveTooLarge | DirectoryTooLarge

  datatype Outcome = Blob(bytes: seq<Byte>) | Throws(error: ZipError)

  const MAX_U32: nat := 0xffffffff
  const MAX_U16: nat := 0xffff
  const LOCAL_MAGIC: nat := 0x04034b50
  const CENTRAL_MAGIC: nat := 0x02014b50
  const END_MAGIC: nat := 0x06054b50

  /** `setUint16` and `setUint32`, little-endian: higher bits are lost. */
  function U16(v: nat): seq<Byte> { [v % 0x100, v / 0x100 % 0x100] }

  function U32(v: nat): seq<Byte> { [v % 0x100, v / 0x100 % 0x100, v / 0x1_0000 % 0x100, v / 0x100_0000 % 0x100] }

  // ---------------------------------------------------------------------------
  // The records
  // ---------------------------------------------------------------------------

  /** Magic, version, flags (UTF-8 names), method (stored), time, date. */
  function LocalStart(): (b: seq<Byte>)
    ensures |b| == 14
  {
    U32(LOCAL_MAGIC) + U16(20) + U16(0x0800) + U16(0) + U16(0) + U16(0x0021)
  }

  function Sizes(crc: nat, size: nat, nameLen: nat): (b: seq<Byte>)
    ensures |b| == 14
  {
    U32(crc) + U32(size) + U32(size) + U16(nameLen)
  }

  function LocalHeader(name: seq<Byte>, crc: nat, size: nat): (b: seq<Byte>)
    ensures |b| == 30 + |name|
  {
    LocalStart() + Sizes(crc, size, |name|) + U16(0) + name
  }

  /** Magic, versions, flags, method, time, date. */
  function CentralStart(): (b: seq<Byte>)
    ensures |b| == 16
  {
    U32(CENTRAL_MAGIC) + U16(20) + U16(20) + U16(0x0800) + U16(0) + U16(0) + U16(0x0021)
  }

  /** No extra field, no comment, disk 0, no attributes. */
  function CentralMiddle(): (b: seq<Byte>)
    ensures |b| == 12
  {
    U16(0) + U16(0) + U16(0) + U16(0) + U32(0)
  }

  function CentralHeader(name: seq<Byte>, crc: nat, size: nat, offset: nat): (b: seq<Byte>)
    ensures |b| == 46 + |name|
  {
    CentralStart() + Sizes(crc, size, |name|) + CentralMiddle() + U32(offset) + name
  }

  function EndRecord(count: nat, cdSize: nat, cdOffset: nat): (b: seq<Byte>)
    ensures |b| == 22
  {
    (U32(END_MAGIC) + U16(0) + U16(0)) + (U16(count) + U16(count)) + (U32(cdSize) + U32(cdOffset)) + U16(0)
  }

  // ---------------------------------------------------------------------------
  // The archive of a list of entries
  // ---------------------------------------------------------------------------

  /** The checksum in use: `Crc32`, for the writer. */
  type CrcOf = seq<Byte> -> nat

  function Record(crc32: CrcOf, e: Entry): (b: seq<Byte>)
    ensures |b| == RecordSize(e)
  {
    LocalHeader(e.name, crc32(e.data), |e.data|) + e.data
  }

  function RecordSize(e: Entry): nat { 30 + |e.name| + |e.data| }

  function Size(entries: seq<Entry>): nat {
    if entries == [] then 0 else RecordSize(entries[0]) + Size(entries[1..])
  }

  type Recorder = Entry -> seq<Byte>

  function RecordWith(crc32: CrcOf): Recorder { (e: Entry) => Record(crc32, e) }

  function Body(record: Recorder, entries: seq<Entry>): seq<Byte> {
    if entries == [] then [] else record(entries[0]) + Body(record, entries[1..])
  }

  datatype Central = Central(name: seq<Byte>, crc: nat, size: nat, offset: nat)

  /** What the directory says of each entry, `offset` being where the first one's record starts. */
  function Centrals(crc32: CrcOf, entries: seq<Entry>, offset: nat): seq<Central>
    decreases |entries|
  {
    if entries == [] then []
    else
      var e := entries[0];
      [Central(e.name, crc32(e.data), |e.data|, offset)] + Centrals(crc32, entries[1..], offset + RecordSize(e))
  }

  type Describer = Central -> seq<Byte>

  function CentralOf(): Describer { (c: Central) => CentralHeader(c.name, c.crc, c.size, c.offset) }

  function Headers(header: Describer, cs: seq<Central>): seq<Byte> {
    if cs == [] then [] else header(cs[0]) + Headers(header, cs[1..])
  }

  function Archive(crc32: CrcOf, entries: seq<Entry>): seq<Byte> {
    var body, dir := Body(RecordWith(crc32), entries), Headers(CentralOf(), Centrals(crc32, entries, 0));
    body + dir + EndRecord(|entries|, |dir|, |body|)
  }

  function HeadersSize(entries: seq<Entry>): nat {
    if entries == [] then 0 else 46 + |entries[0].name| + HeadersSize(entries[1..])
  }

  predicate NamesFit(entries: seq<Entry>) {
    forall i :: 0 <= i < |entries| ==> |entries[i].name| <= MAX_U16
  }

  /** Every count, length, size and offset fits its field. */
  predicate Fits(entries: seq<Entry>) {
    && |entries| <= MAX_U16
    && NamesFit(entries)
    && Size(entries) <= MAX_U32
    && HeadersSize(entries) <= MAX_U32
  }

  // ---------------------------------------------------------------------------
  // The writer
  // ---------------------------------------------------------------------------

  lemma {:induction false} BodySnoc(record: Recorder, entries: seq<Entry>, e: Entry)
    ensures Body(record, entries + [e]) == Body(record, entries) + record(e)
  {
    if entries == [] {
      assert [e][1..] == [];
    } else {
      assert (entries + [e])[1..] == entries[1..] + [e];
      BodySnoc(record, entries[1..], e);
    }
  }

  lemma {:induction false} CentralsSnoc(crc32: CrcOf, entries: seq<Entry>, e: Entry, offset: nat)
    ensures Centrals(crc32, entries + [e], offset) ==
              Centrals(crc32, entries, offset) + [Central(e.name, crc32(e.data), |e.data|, offset + Size(entries))]
    decreases |entries|
  {
    if entries == [] {
      assert [e][1..] == [];
    } else {
      assert (entries + [e])[1..] == entries[1..] + [e];
      CentralsSnoc(crc32, entries[1..], e, offset + RecordSize(entries[0]));
    }
  }

  lemma {:induction false} HeadersSnoc(header: Describer, cs: seq<Central>, c: Central)
    ensures Headers(header, cs + [c]) == Headers(header, cs) + header(c)
  {
    if cs == [] {
      assert [c][1..] == [];
    } else {
      assert (cs + [c])[1..] == cs[1..] + [c];
      HeadersSnoc(header, cs[1..], c);
    }
  }

  /** A record takes 30 bytes, the name and the data. */
  ghost predicate SizedAt(record: Recorder, e: Entry) { |record(e)| == RecordSize(e) }

  lemma {:induction false} BodySize(record: Recorder, entries: seq<Entry>)
    requires forall e :: SizedAt(record, e)
    ensures |Body(record, entries)| == Size(entries)
  {
    if entries != [] {
      assert SizedAt(record, entries[0]);
      BodySize(record, entries[1..]);
    }
  }

  /** A directory header takes 46 bytes and the name. */
  ghost predicate HeadedAt(header: Describer, c: Central) { |header(c)| == 46 + |c.name| }

  lemma {:induction false} HeadersOfSize(header: Describer, crc32: CrcOf, entries: seq<Entry>, offset: nat)
    requires forall c :: HeadedAt(header, c)
    ensures |Headers(header, Centrals(crc32, entries, offset))| == HeadersSize(entries)
    decreases |entries|
  {
    if entries != [] {
      var e := entries[0];
      var c := Central(e.name, crc32(e.data), |e.data|, offset);
      assert HeadedAt(header, c);
      var later := Centrals(crc32, entries[1..], offset + RecordSize(e));
      assert ([c] + later)[1..] == later;
      HeadersOfSize(header, crc32, entries[1..], offset + RecordSize(e));
    }
  }

  lemma HeadersSized()
    ensures forall c :: HeadedAt(CentralOf(), c)
  {
  }

  lemma RecordsSized(crc32: CrcOf)
    ensures forall e :: SizedAt(RecordWith(crc32), e)
  {
  }

  lemma {:induction false} BodyGrows(entries: seq<Entry>, k: nat)
    requires k <= |entries|
    ensures Size(entries[..k]) <= Size(entries)
    decreases |entries|
  {
    if k > 0 {
      assert entries[..k][1..] == entries[1..][..k - 1];
      BodyGrows(entries[1..], k - 1);
    }
  }

  /** `createZip`: throws exactly when some field would be cut short. */
  method CreateZip(entries: seq<Entry>) returns (r: Outcome)
    ensures r.Blob? <==> Fits(entries)
    ensures r.Blob? ==> r.bytes == Archive(Crc32, entries)
  {
    if |entries| > MAX_U16 { return Throws(TooManyEntries); }
    var body: seq<Byte> := [];
    var central: seq<Central> := [];
    var offset: nat := 0;
    for i := 0 to |entries|
      invariant Written(Crc32, entries[..i], body, central, offset) && offset <= MAX_U32
      invariant NamesFit(entries[..i])
    {
      TakeNext(entries, i);
      if |entries[i].name| > MAX_U16 { return Throws(NameTooLong); }
      body, central, offset := WriteEntry(entries[..i], entries[i], body, central, offset);
      if offset > MAX_U32 {
        BodyGrows(entries, i + 1);
        return Throws(ArchiveTooLarge);
      }
    }
    assert entries[..|entries|] == entries;
    HeadersSized();
    HeadersOfSize(CentralOf(), Crc32, entries, 0);
    r := WriteDirectory(body, central);
  }

  lemma TakeNext(entries: seq<Entry>, i: nat)
    requires i < |entries|
    ensures entries[..i] + [entries[i]] == entries[..i + 1]
    ensures NamesFit(entries[..i]) && |entries[i].name| <= MAX_U16 ==> NamesFit(entries[..i + 1])
    ensures |entries[i].name| > MAX_U16 ==> !NamesFit(entries)
  {
  }

  lemma AppendAssociates(a: seq<Byte>, b: seq<Byte>, c: seq<Byte>)
    ensures a + b + c == a + (b + c)
  {
  }

  /** What the first loop has built for the entries so far. */
  ghost predicate Written(crc32: CrcOf, done: seq<Entry>, body: seq<Byte>, central: seq<Central>, offset: nat) {
    body == Body(RecordWith(crc32), done) && central == Centrals(crc32, done, 0) && |central| == |done| && offset == |body| == Size(done)
  }

  lemma WrittenSnoc(crc32: CrcOf, done: seq<Entry>, e: Entry, body: seq<Byte>, central: seq<Central>, offset: nat)
    requires Written(crc32, done, body, central, offset)
    ensures Written(crc32, done + [e], body + Record(crc32, e), central + [Central(e.name, crc32(e.data), |e.data|, offset)], offset + RecordSize(e))
  {
    BodySnoc(RecordWith(crc32), done, e);
    CentralsSnoc(crc32, done, e, 0);
    RecordsSized(crc32);
    BodySize(RecordWith(crc32), done + [e]);
  }

  method WriteEntry(ghost done: seq<Entry>, e: Entry, body0: seq<Byte>, central0: seq<Central>, offset0: nat)
    returns (body: seq<Byte>, central: seq<Central>, offset: nat)
    requires Written(Crc32, done, body0, central0, offset0)
    ensures Written(Crc32, done + [e], body, central, offset)
  {
    var crc := Checksum(e.data);
    var local := LocalHeader(e.name, crc, |e.data|);
    body := body0 + local + e.data;
    central := central0 + [Central(e.name, crc, |e.data|, offset0)];
    offset := offset0 + |local| + |e.data|;
    WrittenSnoc(Crc32, done, e, body0, central0, offset0);
    AppendAssociates(body0, local, e.data);
  }

  /** The second loop, and the end record. */
  method WriteDirectory(body: seq<Byte>, central: seq<Central>) returns (r: Outcome)
    ensures r.Blob? <==> |Headers(CentralOf(), central)| <= MAX_U32
    ensures r.Blob? ==> r.bytes == body + Headers(CentralOf(), central) + EndRecord(|central|, |Headers(CentralOf(), central)|, |body|)
  {
    var dir: seq<Byte> := [];
    for i := 0 to |central|
      invariant dir == Headers(CentralOf(), central[..i])
    {
      var c := central[i];
      assert central[..i] + [c] == central[..i + 1];
      HeadersSnoc(CentralOf(), central[..i], c);
      dir := dir + CentralHeader(c.name, c.crc, c.size, c.offset);
    }
    assert central[..|central|] == central;
    if |dir| > MAX_U32 { return Throws(DirectoryTooLarge); }
    return Blob(body + dir + EndRecord(|central|, |dir|, |body|));
  }
}
