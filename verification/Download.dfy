/**
 * Resumable range download into a local file (crates/libfw-client/src/native/download.rs).
 * The remote file may be replaced at any moment; any request, write or save may fail.
 */
module Download {
  import opened Wrappers
  import opened Bytes
  import opened Ranges
  import Plan

  datatype Error = Network | Restart | Protocol | Storage | Decompress

  datatype Outcome<T> = Ok(value: T) | Err(error: Error)

  const RESUME_SAVE_EVERY: nat := 4 * 1024 * 1024
  const MIN_PARALLEL_DOWNLOAD_BYTES: nat := 512 * 1024

  // ---------------------------------------------------------------------------
  // The remote file
  // ---------------------------------------------------------------------------

  type History = map<string, seq<Byte>>

  /** ETags keep their content, and one that was replaced never becomes current again. */
  ghost predicate Grown(h: History, etag: string, h': History, etag': string) {
    && (forall e | e in h :: e in h' && h'[e] == h[e])
    && (etag' == etag || etag' !in h)
  }

  class Remote {
    var etag: string
    var content: seq<Byte>
    var history: History
    /** How often the file was replaced, a range reply was lost or broken, and metadata was lost. */
    var replaced: nat
    var lost: nat
    var lostMeta: nat
    /** How many replacements and losses there are going to be at most. */
    const mayReplace: nat
    const mayLose: nat

    ghost predicate Valid()
      reads this
    {
      && etag in history && history[etag] == content && "" !in history
      && replaced <= mayReplace && lost + lostMeta <= mayLose
    }

    constructor (etag: string, content: seq<Byte>, mayReplace: nat, mayLose: nat)
      requires etag != ""
      ensures Valid() && this.etag == etag && this.content == content
      ensures this.mayReplace == mayReplace && this.mayLose == mayLose
    {
      this.etag, this.content, history := etag, content, map[etag := content];
      replaced, lost, lostMeta := 0, 0, 0;
      this.mayReplace, this.mayLose := mayReplace, mayLose;
    }

    /** What time does to the remote: it is the same version as long as nothing replaced it. */
    ghost predicate Since(history0: History, etag0: string, replaced0: nat, lost0: nat, lostMeta0: nat)
      reads this
    {
      && Grown(history0, etag0, history, etag)
      && replaced0 <= replaced && (replaced == replaced0 ==> etag == etag0) 
      && lost0 <= lost && lostMeta0 <= lostMeta
    }

    /** The file may be replaced, under an ETag never used before. */
    method Drift()
      requires Valid()
      modifies this`etag, this`content, this`history, this`replaced
      ensures Valid() && Since(old(history), old(etag), old(replaced), old(lost), old(lostMeta))
    {
      var replace: bool := *;
      var tag: string := *;
      var bytes: seq<Byte> := *;
      if replace && replaced < mayReplace && tag !in history && tag != "" {
        etag, content, history, replaced := tag, bytes, history[tag := bytes], replaced + 1;
      }
    }

    /** Whether a reply, or what is left of its body, fails to arrive intact. */
    method Loses() returns (bad: bool)
      requires Valid()
      modifies this`lost
      ensures Valid() && lost == old(lost) + if bad then 1 else 0
    {
      bad := *;
      bad := bad && lost + lostMeta < mayLose;
      if bad { lost := lost + 1; }
    }

    /** `HEAD`: the version current when the server answers. */
    method FetchMeta() returns (r: Outcome<(string, nat)>)
      requires Valid()
      modifies this
      ensures Valid() && Since(old(history), old(etag), old(replaced), old(lost), old(lostMeta))
      ensures lost == old(lost)
      ensures if r.Ok? then r.value == (etag, |content|) && lostMeta == old(lostMeta)
              else r.error == Network && lostMeta == old(lostMeta) + 1
    {
      Drift();
      var lose: bool := *;
      if lose && lost + lostMeta < mayLose {
        lostMeta := lostMeta + 1;
        r := Err(Network);
      } else {
        r := Ok((etag, |content|));
      }
    }

    /**
     * A `Range` GET under `If-Range`. The current file's bytes while its ETag is still `tag`; a
     * replaced file answers 200 and a shrunk one 416, which both mean "restart".
     */
    method RangeRequest(tag: string, start: nat, end: nat) returns (r: Outcome<seq<Byte>>)
      requires Valid() && tag in history && start < end
      modifies this
      ensures Valid() && Since(old(history), old(etag), old(replaced), old(lost), old(lostMeta))
      ensures lostMeta == old(lostMeta) && lost == old(lost) + if r == Err(Network) then 1 else 0
      ensures match r
              case Ok(body) => start < |history[tag]| && body == history[tag][start..Min(end, |history[tag]|)]
              case Err(e) => e == Network || (e == Restart && (start < |history[tag]| ==> etag != tag))
    {
      Drift();
      var lose := Loses();
      if lose {
        r := Err(Network);
      } else if etag != tag || start >= |content| {
        r := Err(Restart);
      } else {
        r := Ok(content[start..Min(end, |content|)]);
      }
      Drift();
    }
  }

  // ---------------------------------------------------------------------------
  // The local file and its resume sidecar
  // ---------------------------------------------------------------------------

  datatype Resume = Resume(etag: string, offset: nat)

  function Resized(file: seq<Byte>, size: nat): (r: seq<Byte>)
    ensures |r| == size
    ensures forall i :: 0 <= i < size ==> r[i] == if i < |file| then file[i] else 0
  {
    if |file| >= size then file[..size] else file + Zeros(size - |file|)
  }

  class Destination {
    var file: Option<seq<Byte>>
    var sidecar: Option<Resume>
    /** All the bytes ever written. */
    var written: nat
    /** No local operation ever fails. */
    const calm: bool

    constructor (file: Option<seq<Byte>>, calm: bool)
      ensures this.file == file && sidecar == None && this.calm == calm
    {
      this.file, sidecar, written, this.calm := file, None, 0, calm;
    }

    /** Open for writing, creating but never truncating. */
    method Open() returns (ok: bool)
      modifies this`file
      ensures ok ==> file == Some(if old(file).Some? then old(file).value else [])
      ensures !ok ==> file == old(file)
      ensures calm ==> ok
    {
      ok := *;
      ok := ok || calm;
      if ok && file.None? { file := Some([]); }
    }

    /** Seek and write all; a failed write may have written a part. */
    method WriteAll(offset: nat, data: seq<Byte>) returns (ok: bool)
      requires file.Some?
      modifies this`file, this`written
      ensures exists k: nat :: k <= |data| && (ok ==> k == |data|) && file == Some(WriteAt(old(file).value, offset, data[..k]))
      ensures written <= old(written) + |data| && (ok ==> written == old(written) + |data|)
      ensures calm ==> ok
    {
      ok := *;
      ok := ok || calm;
      var k: nat := *;
      if ok || !(0 <= k <= |data|) { k := |data|; }
      file := Some(WriteAt(file.value, offset, data[..k]));
      written := written + k;
    }

    method SetLen(size: nat) returns (ok: bool)
      requires file.Some?
      modifies this`file
      ensures file == Some(if ok then Resized(old(file).value, size) else old(file).value)
      ensures calm ==> ok
    {
      ok := *;
      ok := ok || calm;
      if ok { file := Some(Resized(file.value, size)); }
    }

    /** A save whose failure is ignored: the old entry, the new one, or an unreadable one is left. */
    method SaveResume(etag: string, offset: nat)
      modifies this`sidecar
      ensures sidecar in {old(sidecar), None, Some(Resume(etag, offset))}
      ensures calm ==> sidecar == Some(Resume(etag, offset))
    {
      var outcome: nat := *;
      if calm || outcome == 0 { sidecar := Some(Resume(etag, offset)); }
      if !calm && outcome == 1 { sidecar := None; }
    }
  }

  // ---------------------------------------------------------------------------
  // What a sidecar promises
  // ---------------------------------------------------------------------------

  /** The file's first `n` bytes are those of `content`. */
  ghost predicate Agrees(file: Option<seq<Byte>>, content: seq<Byte>, n: nat) {
    n <= |content| && (n > 0 ==> file.Some? && n <= |file.value| && file.value[..n] == content[..n])
  }

  /** A resume offset for the current version is backed by its bytes; any other is for a retired one. */
  ghost predicate Backed(dest: Destination, remote: Remote)
    reads dest, remote
  {
    dest.sidecar.Some? ==>
      var s := dest.sidecar.value;
      s.etag in remote.history && (s.etag == remote.etag ==> Agrees(dest.file, remote.content, s.offset))
  }

  /** While version `etag` is being downloaded: backed even if that version is retired meanwhile. */
  ghost predicate Tracking(dest: Destination, remote: Remote, etag: string, content: seq<Byte>)
    reads dest, remote
  {
    && remote.Valid()
    && etag in remote.history && remote.history[etag] == content
    && (dest.sidecar.Some? ==>
          var s := dest.sidecar.value;
          if s.etag == etag then Agrees(dest.file, content, s.offset)
          else s.etag in remote.history && s.etag != remote.etag)
  }

  /** The offset saved for this version: none is 0. */
  function SavedFor(sidecar: Option<Resume>, etag: string): nat {
    if sidecar.Some? && sidecar.value.etag == etag then sidecar.value.offset else 0
  }

  /**
   * Saved at `lastSaved` or later, and less than 4 MiB ago. `base` is where the pass started, less
   * what had been written by then.
   */
  ghost predicate Recent(dest: Destination, etag: string, lastSaved: nat, cursor: nat, base: int)
    reads dest
  {
    dest.calm ==>
      && lastSaved <= SavedFor(dest.sidecar, etag) && cursor < lastSaved + RESUME_SAVE_EVERY
      && cursor == base + dest.written
  }

  /** Of what this pass wrote, less than 4 MiB lies beyond the saved offset. */
  ghost predicate Resumable(dest: Destination, etag: string, base: int)
    reads dest
  {
    dest.calm ==> base + dest.written < SavedFor(dest.sidecar, etag) + RESUME_SAVE_EVERY
  }

  /** Writing a version's own bytes where the file already reaches keeps every agreement with it. */
  lemma WriteAgrees(file: seq<Byte>, content: seq<Byte>, cursor: nat, data: seq<Byte>, n: nat)
    requires cursor + |data| <= |content| && data == content[cursor..cursor + |data|]
    requires Agrees(Some(file), content, cursor) && Agrees(Some(file), content, n)
    ensures Agrees(Some(WriteAt(file, cursor, data)), content, n)
    ensures Agrees(Some(WriteAt(file, cursor, data)), content, cursor + |data|)
  {
    OneAgrees(file, content, cursor, data, n);
    OneAgrees(file, content, cursor, data, cursor);
    var r, end := WriteAt(file, cursor, data), cursor + |data|;
    forall i | 0 <= i < end
      ensures r[i] == content[i]
    {
      if i < cursor { assert r[..cursor][i] == content[..cursor][i]; }
    }
    assert r[..end] == content[..end];
  }

  /** The same for a write cut short after `k` bytes. */
  lemma PartAgrees(file: seq<Byte>, content: seq<Byte>, cursor: nat, data: seq<Byte>, k: nat, n: nat)
    requires cursor + |data| <= |content| && data == content[cursor..cursor + |data|] && k <= |data|
    requires Agrees(Some(file), content, cursor) && Agrees(Some(file), content, n)
    ensures var r := Some(WriteAt(file, cursor, data[..k]));
            Agrees(r, content, n) && Agrees(r, content, cursor) && Agrees(r, content, cursor + k)
  {
    var part := data[..k];
    assert part == content[cursor..cursor + k];
    WriteAgrees(file, content, cursor, part, n);
    WriteAgrees(file, content, cursor, part, cursor);
  }

  lemma OneAgrees(file: seq<Byte>, content: seq<Byte>, cursor: nat, data: seq<Byte>, n: nat)
    requires cursor + |data| <= |content| && data == content[cursor..cursor + |data|]
    requires Agrees(Some(file), content, n)
    ensures Agrees(Some(WriteAt(file, cursor, data)), content, n)
  {
    var r := WriteAt(file, cursor, data);
    forall i | 0 <= i < n
      ensures r[i] == content[i]
    {
      if !(cursor <= i < cursor + |data|) { assert file[..n][i] == content[..n][i]; }
    }
    assert r[..n] == content[..n];
  }

  lemma ResizeAgrees(file: seq<Byte>, content: seq<Byte>, n: nat)
    requires Agrees(Some(file), content, n)
    ensures Agrees(Some(Resized(file, |content|)), content, n)
    ensures n == |content| ==> Resized(file, |content|) == content
  {
    var r := Resized(file, |content|);
    forall i | 0 <= i < n
      ensures r[i] == content[i]
    {
      assert file[..n][i] == content[..n][i];
    }
    assert r[..n] == content[..n];
    if n == |content| { assert r[..n] == r && content[..n] == content; }
  }

  // ---------------------------------------------------------------------------
  // Pure decisions
  // ---------------------------------------------------------------------------

  predicate ShouldChunked(size: nat, resumeOffset: nat) {
    size >= MIN_PARALLEL_DOWNLOAD_BYTES && size - resumeOffset >= MIN_PARALLEL_DOWNLOAD_BYTES
  }

  function BatchSpan(remaining: nat, chunkSize: nat, window: nat): (n: nat)
    ensures 1 <= n <= Max(remaining, 1)
    ensures chunkSize > 0 && window > 0 && chunkSize * window <= Min(remaining, U64_MAX) ==> n == chunkSize * window
    ensures remaining > 0 && chunkSize >= remaining ==> n == remaining
  {
    var chunk, wide := Max(chunkSize, 1), Max(window, 1);
    Min(Max(Min(chunk * wide, U64_MAX), chunk), Max(remaining, 1))
  }

  /** Where a pass starts: the saved offset of this very version, if the file still reaches it. */
  function StartOffset(resume: Option<Resume>, etag: string, size: nat, localLen: nat, forceRestart: bool): (start: nat)
    ensures start <= size
    ensures start > 0 ==> !forceRestart && resume == Some(Resume(etag, start)) && start <= localLen
    ensures !forceRestart && resume.Some? && resume.value.etag == etag && resume.value.offset <= Min(size, localLen) ==>
              start == resume.value.offset
  {
    if resume.Some? && !forceRestart && resume.value.etag == etag
       && resume.value.offset <= size && localLen >= resume.value.offset
    then resume.value.offset else 0
  }

  function LocalLen(file: Option<seq<Byte>>): nat { if file.Some? then |file.value| else 0 }

  /**
   * The pass that finds nothing to fetch touches no file, so it leaves the remote's content exactly
   * when the local file exists at the remote's length. It is taken for an empty remote, and for a
   * saved offset at the end.
   */
  lemma ShortcutExactly(resume: Option<Resume>, file: Option<seq<Byte>>, etag: string, content: seq<Byte>, forceRestart: bool)
    requires resume.Some? && resume.value.etag == etag ==> Agrees(file, content, resume.value.offset)
    ensures var start := StartOffset(resume, etag, |content|, LocalLen(file), forceRestart);
            && Agrees(file, content, start)
            && (start == |content| <==> content == [] || (!forceRestart && resume == Some(Resume(etag, |content|))))
            && (start == |content| ==> (file == Some(content) <==> file.Some? && |file.value| == |content|))
  {
    var n := |content|;
    assert content[..n] == content;
    assert file.Some? && |file.value| == n ==> file.value[..n] == file.value;
  }

  /** There is nothing to fetch: an empty remote, or a saved offset at the end. */
  predicate NothingToFetch(resume: Option<Resume>, etag: string, size: nat) {
    size == 0 || resume == Some(Resume(etag, size))
  }

  // ---------------------------------------------------------------------------
  // Writes and saves that keep the promise
  // ---------------------------------------------------------------------------

  method WriteContent(dest: Destination, remote: Remote, etag: string, ghost content: seq<Byte>, cursor: nat, data: seq<Byte>)
    returns (ok: bool)
    requires Tracking(dest, remote, etag, content) && dest.file.Some? && Agrees(dest.file, content, cursor)
    requires cursor + |data| <= |content| && data == content[cursor..cursor + |data|]
    modifies dest`file, dest`written
    ensures Tracking(dest, remote, etag, content) && dest.file.Some? && Agrees(dest.file, content, cursor)
    ensures ok ==> Agrees(dest.file, content, cursor + |data|)
    ensures ok ==> dest.written == old(dest.written) + |data|
    ensures dest.calm ==> ok
    ensures |dest.file.value| >= |old(dest.file.value)|
  {
    ghost var before := dest.file.value;
    ok := dest.WriteAll(cursor, data);
    ghost var k: nat :| k <= |data| && (ok ==> k == |data|) && dest.file == Some(WriteAt(before, cursor, data[..k]));
    PartAgrees(before, content, cursor, data, k,
               if dest.sidecar.Some? && dest.sidecar.value.etag == etag then dest.sidecar.value.offset else 0);
  }

  method SaveOffset(dest: Destination, remote: Remote, etag: string, ghost content: seq<Byte>, offset: nat)
    requires Tracking(dest, remote, etag, content) && Agrees(dest.file, content, offset)
    modifies dest`sidecar
    ensures Tracking(dest, remote, etag, content)
    ensures dest.calm ==> dest.sidecar == Some(Resume(etag, offset))
  {
    dest.SaveResume(etag, offset);
  }

  // ---------------------------------------------------------------------------
  // One batch of chunks, finishing in any order
  // ---------------------------------------------------------------------------

  type Reorder = map<nat, seq<Byte>>

  /** Adjacent, non-empty chunks from `from` to `to`. */
  ghost predicate Tiles(chunks: seq<Range>, from: nat, to: nat) {
    && chunks != [] && chunks[0].start == from && chunks[|chunks| - 1].end == to
    && (forall i :: 0 <= i < |chunks| ==> chunks[i].start < chunks[i].end <= to)
    && (forall i :: 0 <= i < |chunks| - 1 ==> chunks[i].end == chunks[i + 1].start)
    && (forall i, j :: 0 <= i < j < |chunks| ==> chunks[i].start < chunks[j].start)
  }

  lemma GridTiles(from: nat, to: nat, chunkSize: nat)
    requires chunkSize > 0 && from < to
    ensures Tiles(Plan.Chunks(from, to, chunkSize), from, to)
  {
    Plan.ChunksTile(from, to, chunkSize);
  }

  /** Chunks before `j` are in the file; of the rest, exactly those that finished are pending. */
  ghost predicate BufferedAt(chunks: seq<Range>, content: seq<Byte>, j: nat, finished: set<nat>, pending: Reorder, i: nat)
    requires i < |chunks|
  {
    var c := chunks[i];
    if i < j then i in finished
    else
      && (i in finished <==> c.start in pending)
      && (i in finished ==> c.start <= c.end <= |content| && pending[c.start] == content[c.start..c.end])
  }

  ghost predicate Buffered(chunks: seq<Range>, content: seq<Byte>, j: nat, finished: set<nat>, pending: Reorder) {
    && chunks != [] && j <= |chunks|
    && (forall k | k in pending :: k < chunks[|chunks| - 1].end)
    && (forall i :: 0 <= i < |chunks| ==> BufferedAt(chunks, content, j, finished, pending, i))
  }

  /** Where chunk `j` starts; past the last one, where the batch ends. */
  function Edge(chunks: seq<Range>, j: nat): nat
    requires j <= |chunks| && chunks != []
  {
    if j < |chunks| then chunks[j].start else chunks[|chunks| - 1].end
  }

  /** The pending data at the cursor is the next chunk, and writing it moves on to the one after. */
  lemma NextIsContiguous(chunks: seq<Range>, content: seq<Byte>, j: nat, finished: set<nat>, pending: Reorder)
    requires chunks != [] && Tiles(chunks, chunks[0].start, chunks[|chunks| - 1].end)
    requires Buffered(chunks, content, j, finished, pending) && Edge(chunks, j) in pending
    ensures var cursor, data := Edge(chunks, j), pending[Edge(chunks, j)];
            && j < |chunks| && cursor + |data| <= |content| && data == content[cursor..cursor + |data|]
            && Buffered(chunks, content, j + 1, finished, pending - {cursor})
            && Edge(chunks, j + 1) == cursor + |data|
  {
    assert j < |chunks|;
    assert BufferedAt(chunks, content, j, finished, pending, j);
    var next, left := j + 1, pending - {chunks[j].start};
    forall i | 0 <= i < |chunks|
      ensures BufferedAt(chunks, content, next, finished, left, i)
    {
      assert BufferedAt(chunks, content, j, finished, pending, i);
      if i > j { assert chunks[j].start < chunks[i].start; }
    }
  }

  /** Write out everything that is now contiguous, saving the offset every few megabytes. */
  method FlushContiguous(dest: Destination, remote: Remote, etag: string, ghost content: seq<Byte>,
                         ghost chunks: seq<Range>, ghost finished: set<nat>, ghost j0: nat,
                         pending0: Reorder, cursor0: nat, lastSaved0: nat, ghost base: int)
    returns (ok: bool, pending: Reorder, cursor: nat, lastSaved: nat, ghost j: nat)
    requires Tracking(dest, remote, etag, content) && chunks != [] && Tiles(chunks, chunks[0].start, chunks[|chunks| - 1].end)
    requires Buffered(chunks, content, j0, finished, pending0) && cursor0 == Edge(chunks, j0)
    requires dest.file.Some? && Agrees(dest.file, content, cursor0) && Recent(dest, etag, lastSaved0, cursor0, base)
    modifies dest
    ensures Tracking(dest, remote, etag, content) && dest.file.Some?
    ensures Buffered(chunks, content, j, finished, pending) && cursor == Edge(chunks, j)
    ensures Agrees(dest.file, content, cursor) && cursor >= cursor0
    ensures ok ==> j == |chunks| || j !in finished
    ensures Recent(dest, etag, lastSaved, cursor, base)
    ensures dest.calm ==> ok
    ensures |dest.file.value| >= |old(dest.file.value)|
  {
    pending, cursor, lastSaved, j := pending0, cursor0, lastSaved0, j0;
    while cursor in pending
      invariant Tracking(dest, remote, etag, content) && dest.file.Some?
      invariant Buffered(chunks, content, j, finished, pending) && cursor == Edge(chunks, j)
      invariant Agrees(dest.file, content, cursor) && cursor >= cursor0
      invariant Recent(dest, etag, lastSaved, cursor, base)
      invariant |dest.file.value| >= |old(dest.file.value)|
      decreases |chunks| - j
    {
      var data := pending[cursor];
      NextIsContiguous(chunks, content, j, finished, pending);
      var written := WriteContent(dest, remote, etag, content, cursor, data);
      if !written { return false, pending, cursor, lastSaved, j; }
      pending := pending - {cursor};
      cursor := cursor + |data|;
      j := j + 1;
      if cursor >= lastSaved + RESUME_SAVE_EVERY {
        lastSaved := cursor;
        SaveOffset(dest, remote, etag, content, cursor);
      }
    }
    assert j < |chunks| ==> BufferedAt(chunks, content, j, finished, pending, j);
    ok := true;
  }

  /**
   * One range with its retries; only a body of exactly the requested length is accepted. A range
   * inside the file is fetched unless the file was replaced or every one of the attempts was lost.
   */
  method GetRangeWithRetry(remote: Remote, etag: string, start: nat, end: nat, maxRetries: nat)
    returns (r: Outcome<seq<Byte>>)
    requires remote.Valid() && etag in remote.history && start < end
    modifies remote
    ensures remote.Valid() && remote.Since(old(remote.history), old(remote.etag), old(remote.replaced), old(remote.lost), old(remote.lostMeta))
    ensures r.Ok? ==> end <= |remote.history[etag]| && r.value == remote.history[etag][start..end]
    ensures r == Err(Restart) && start < |remote.history[etag]| ==> remote.etag != etag
    ensures remote.lostMeta == old(remote.lostMeta)
    ensures old(remote.lost) <= remote.lost <= old(remote.lost) + maxRetries + 1
    ensures end <= |remote.history[etag]| && remote.lost <= old(remote.lost) + maxRetries ==> r.Ok? || r == Err(Restart)
  {
    var attempt := 0;
    while true
      invariant attempt <= maxRetries && remote.Valid()
      invariant remote.Since(old(remote.history), old(remote.etag), old(remote.replaced), old(remote.lost), old(remote.lostMeta))
      invariant remote.lost == old(remote.lost) + attempt && remote.lostMeta == old(remote.lostMeta)
      decreases maxRetries - attempt
    {
      var got := remote.RangeRequest(etag, start, end);
      var garbled := false;
      if got.Ok? { garbled := remote.Loses(); }
      if got.Ok? && !garbled {
        return if |got.value| != end - start then Err(Protocol) else got;
      }
      if got.Err? && got.error.Restart? { return got; }
      if attempt >= maxRetries { return Err(if got.Err? then got.error else Decompress); }
      attempt := attempt + 1;
    }
  }

  /** Chunk `i` has finished exactly when it was issued and is no longer in flight. */
  ghost predicate AccountedAt(issued: nat, inflight: set<nat>, finished: set<nat>, i: nat) {
    (i in finished <==> i < issued && i !in inflight) && (i in inflight ==> i < issued)
  }

  ghost predicate Accounted(n: nat, issued: nat, inflight: set<nat>, finished: set<nat>) {
    issued <= n && forall i: nat :: AccountedAt(issued, inflight, finished, i)
  }

  /** Start requests, in order, until the window is full. */
  method FillWindow(n: nat, window: nat, issued0: nat, inflight0: set<nat>, ghost finished: set<nat>)
    returns (issued: nat, inflight: set<nat>)
    requires window > 0 && Accounted(n, issued0, inflight0, finished) && (issued0 < n || inflight0 != {})
    ensures Accounted(n, issued, inflight, finished) && inflight != {}
    ensures |inflight| <= Max(window, |inflight0|) && (issued == n || |inflight| >= window)
    ensures 2 * (n - issued) + |inflight| <= 2 * (n - issued0) + |inflight0|
  {
    issued, inflight := issued0, inflight0;
    while issued < n && |inflight| < window
      invariant Accounted(n, issued, inflight, finished) && (issued < n || inflight != {})
      invariant |inflight| <= Max(window, |inflight0|)
      invariant 2 * (n - issued) + |inflight| <= 2 * (n - issued0) + |inflight0|
      decreases n - issued
    {
      assert AccountedAt(issued, inflight, finished, issued);
      var more, wider := issued + 1, inflight + {issued};
      forall i: nat
        ensures AccountedAt(more, wider, finished, i)
      {
        assert AccountedAt(issued, inflight, finished, i);
      }
      inflight, issued := wider, more;
    }
  }

  /** A request in flight completes. */
  lemma CompleteOne(n: nat, issued: nat, inflight: set<nat>, finished: set<nat>, i: nat)
    requires Accounted(n, issued, inflight, finished) && i in inflight
    ensures i < n && i !in finished && Accounted(n, issued, inflight - {i}, finished + {i})
  {
    assert AccountedAt(issued, inflight, finished, i);
    var fewer, more := inflight - {i}, finished + {i};
    forall k: nat
      ensures AccountedAt(issued, fewer, more, k)
    {
      assert AccountedAt(issued, inflight, finished, k);
    }
  }

  /** Fill the window; then any one of the requests in flight completes. */
  method NextCompletion(n: nat, window: nat, issued0: nat, inflight0: set<nat>, ghost finished: set<nat>)
    returns (issued: nat, inflight: set<nat>, i: nat)
    requires window > 0 && Accounted(n, issued0, inflight0, finished) && (issued0 < n || inflight0 != {})
    ensures i < n && i !in finished && Accounted(n, issued, inflight, finished + {i})
    ensures |inflight| < Max(window, |inflight0|) && (issued == n || |inflight| + 1 >= window)
    ensures 2 * (n - issued) + |inflight| < 2 * (n - issued0) + |inflight0|
  {
    issued, inflight := FillWindow(n, window, issued0, inflight0, finished);
    i :| i in inflight;
    CompleteOne(n, issued, inflight, finished, i);
    inflight := inflight - {i};
  }

  /** `download_batch`: at most `window` requests in flight, completing in any order. */
  method DownloadBatch(dest: Destination, remote: Remote, etag: string, ghost content: seq<Byte>,
                       from: nat, to: nat, window: nat, chunkSize: nat, maxRetries: nat, ghost base: int)
    returns (r: Outcome<nat>)
    requires Tracking(dest, remote, etag, content) && window > 0 && chunkSize > 0
    requires from < to <= |content| && dest.file.Some? && Agrees(dest.file, content, from)
    requires Recent(dest, etag, from, from, base)
    modifies dest, remote
    ensures Tracking(dest, remote, etag, content) && dest.file.Some?
    ensures remote.Since(old(remote.history), old(remote.etag), old(remote.replaced), old(remote.lost), old(remote.lostMeta)) && remote.lostMeta == old(remote.lostMeta)
    ensures r.Ok? ==> r.value == to - from && Agrees(dest.file, content, to)
    ensures r == Err(Restart) ==> remote.etag != etag
    ensures dest.calm && remote.lost <= old(remote.lost) + maxRetries ==> r.Ok? || r == Err(Restart)
    ensures Resumable(dest, etag, base) && (r.Ok? && dest.calm ==> to == base + dest.written)
    ensures |dest.file.value| >= |old(dest.file.value)|
  {
    var chunks := Plan.ChunkBounds(to, chunkSize, from);
    GridTiles(from, to, chunkSize);
    var pending: Reorder := map[];
    var cursor, lastSaved, issued := from, from, 0;
    var inflight: set<nat> := {};
    ghost var j := 0;
    ghost var finished: set<nat> := {};
    while issued < |chunks| || inflight != {}
      invariant Tracking(dest, remote, etag, content) && dest.file.Some?
      invariant remote.Since(old(remote.history), old(remote.etag), old(remote.replaced), old(remote.lost), old(remote.lostMeta)) && remote.lostMeta == old(remote.lostMeta)
      invariant Buffered(chunks, content, j, finished, pending) && cursor == Edge(chunks, j) && cursor >= from
      invariant Agrees(dest.file, content, cursor)
      invariant Recent(dest, etag, lastSaved, cursor, base)
      invariant |dest.file.value| >= |old(dest.file.value)|
      invariant j == |chunks| || j !in finished
      invariant Accounted(|chunks|, issued, inflight, finished) && |inflight| <= window
      decreases 2 * (|chunks| - issued) + |inflight|
    {
      var i;
      issued, inflight, i := NextCompletion(|chunks|, window, issued, inflight, finished);
      var status;
      status, pending, cursor, lastSaved, j :=
        OneChunk(dest, remote, etag, content, chunks, i, maxRetries, finished, j, pending, cursor, lastSaved, base);
      if status.Err? { return Err(status.error); }
      finished := finished + {i};
    }
    assert AccountedAt(issued, inflight, finished, j);
    return Ok(cursor - from);
  }

  /** One completion: its bytes join the buffer, and whatever became contiguous is flushed. */
  method OneChunk(dest: Destination, remote: Remote, etag: string, ghost content: seq<Byte>,
                  chunks: seq<Range>, i: nat, maxRetries: nat, ghost finished: set<nat>, ghost j0: nat,
                  pending0: Reorder, cursor0: nat, lastSaved0: nat, ghost base: int)
    returns (status: Outcome<()>, pending: Reorder, cursor: nat, lastSaved: nat, ghost j: nat)
    requires Tracking(dest, remote, etag, content) && chunks != [] && Tiles(chunks, chunks[0].start, chunks[|chunks| - 1].end)
    requires Buffered(chunks, content, j0, finished, pending0) && cursor0 == Edge(chunks, j0)
    requires i < |chunks| && i !in finished
    requires dest.file.Some? && Agrees(dest.file, content, cursor0) && Recent(dest, etag, lastSaved0, cursor0, base)
    modifies dest, remote
    ensures Tracking(dest, remote, etag, content) && dest.file.Some?
    ensures remote.Since(old(remote.history), old(remote.etag), old(remote.replaced), old(remote.lost), old(remote.lostMeta)) && remote.lostMeta == old(remote.lostMeta)
    ensures status.Ok? ==>
              && Buffered(chunks, content, j, finished + {i}, pending) && cursor == Edge(chunks, j)
              && Agrees(dest.file, content, cursor) && cursor >= cursor0
              && (j == |chunks| || j !in finished + {i})
    ensures Recent(dest, etag, lastSaved, cursor, base)
    ensures status == Err(Restart) && chunks[i].end <= |content| ==> remote.etag != etag
    ensures dest.calm && remote.lost <= old(remote.lost) + maxRetries && chunks[i].end <= |content| ==>
              status.Ok? || status == Err(Restart)
    ensures |dest.file.value| >= |old(dest.file.value)|
  {
    pending, cursor, lastSaved, j := pending0, cursor0, lastSaved0, j0;
    var got := GetRangeWithRetry(remote, etag, chunks[i].start, chunks[i].end, maxRetries);
    if got.Err? { return Err(got.error), pending, cursor, lastSaved, j; }
    BufferOne(chunks, content, j, finished, pending, i);
    pending := pending[chunks[i].start := got.value];
    var ok;
    ok, pending, cursor, lastSaved, j :=
      FlushContiguous(dest, remote, etag, content, chunks, finished + {i}, j, pending, cursor, lastSaved, base);
    status := if ok then Ok(()) else Err(Storage);
  }

  lemma BufferOne(chunks: seq<Range>, content: seq<Byte>, j: nat, finished: set<nat>, pending: Reorder, i: nat)
    requires chunks != [] && Tiles(chunks, chunks[0].start, chunks[|chunks| - 1].end)
    requires Buffered(chunks, content, j, finished, pending)
    requires i < |chunks| && i !in finished && chunks[i].end <= |content|
    ensures Buffered(chunks, content, j, finished + {i}, pending[chunks[i].start := content[chunks[i].start..chunks[i].end]])
  {
    assert BufferedAt(chunks, content, j, finished, pending, i);
    var c := chunks[i];
    var more, buffer := finished + {i}, pending[c.start := content[c.start..c.end]];
    forall k | 0 <= k < |chunks|
      ensures BufferedAt(chunks, content, j, more, buffer, k)
    {
      assert BufferedAt(chunks, content, j, finished, pending, k);
      if k < i { assert chunks[k].start < c.start; } else if k > i { assert c.start < chunks[k].start; }
    }
  }

  // ---------------------------------------------------------------------------
  // A whole file
  // ---------------------------------------------------------------------------

  /** The batch loop: window and chunk size are re-read, and may have changed, before every batch. */
  method DownloadChunked(dest: Destination, remote: Remote, etag: string, ghost content: seq<Byte>,
                         start: nat, size: nat, maxRetries: nat, ghost base: int)
    returns (r: Outcome<nat>)
    requires Tracking(dest, remote, etag, content) && size == |content| && start < size
    requires dest.file.Some? && Agrees(dest.file, content, start) && Recent(dest, etag, start, start, base)
    modifies dest, remote
    ensures Tracking(dest, remote, etag, content) && dest.file.Some?
    ensures remote.Since(old(remote.history), old(remote.etag), old(remote.replaced), old(remote.lost), old(remote.lostMeta)) && remote.lostMeta == old(remote.lostMeta)
    ensures r.Ok? ==> r.value == size - start && Agrees(dest.file, content, size)
    ensures r == Err(Restart) ==> remote.etag != etag
    ensures dest.calm && remote.lost <= old(remote.lost) + maxRetries ==> r.Ok? || r == Err(Restart)
    ensures Resumable(dest, etag, base) && (r.Ok? && dest.calm ==> size == base + dest.written)
    ensures |dest.file.value| >= |old(dest.file.value)|
  {
    var cursor, moved := start, 0;
    while cursor < size
      invariant Tracking(dest, remote, etag, content) && dest.file.Some?
      invariant remote.Since(old(remote.history), old(remote.etag), old(remote.replaced), old(remote.lost), old(remote.lostMeta)) && remote.lostMeta == old(remote.lostMeta)
      invariant start <= cursor <= size && moved == cursor - start && Agrees(dest.file, content, cursor)
      invariant Recent(dest, etag, cursor, cursor, base)
      invariant |dest.file.value| >= |old(dest.file.value)|
    {
      var window: nat, chunkSize: nat := *, *;
      window, chunkSize := Max(window, 1), Max(chunkSize, 1);
      var end := cursor + BatchSpan(size - cursor, chunkSize, window);
      var got := DownloadBatch(dest, remote, etag, content, cursor, end, window, chunkSize, maxRetries, base);
      if got.Err? { return got; }
      if got.value == 0 { break; }
      cursor, moved := cursor + got.value, moved + got.value;
      SaveOffset(dest, remote, etag, content, cursor);
    }
    return Ok(moved);
  }

  /** One streamed request; the body may end early, break, or fail to decompress after any piece. */
  method DownloadSequential(dest: Destination, remote: Remote, etag: string, ghost content: seq<Byte>,
                            start: nat, size: nat, ghost base: int)
    returns (r: Outcome<nat>)
    requires Tracking(dest, remote, etag, content) && size == |content| && start < size
    requires dest.file.Some? && Agrees(dest.file, content, start) && Recent(dest, etag, start, start, base)
    modifies dest, remote
    ensures Tracking(dest, remote, etag, content) && dest.file.Some?
    ensures remote.Since(old(remote.history), old(remote.etag), old(remote.replaced), old(remote.lost), old(remote.lostMeta)) && remote.lostMeta == old(remote.lostMeta)
    ensures r.Ok? ==> start + r.value <= size && Agrees(dest.file, content, start + r.value)
    ensures r == Err(Restart) ==> remote.etag != etag
    ensures dest.calm && remote.lost == old(remote.lost) ==> r == Err(Restart) || (r.Ok? && start + r.value == size)
    ensures |content| - start < RESUME_SAVE_EVERY ==> Resumable(dest, etag, base)
    ensures r.Ok? && dest.calm ==> start + r.value == base + dest.written && start <= SavedFor(dest.sidecar, etag)
    ensures |dest.file.value| >= |old(dest.file.value)|
  {
    var body := remote.RangeRequest(etag, start, size);
    if body.Err? { return Err(body.error); }
    r := StreamBody(dest, remote, etag, content, body.value, start, base);
  }

  method StreamBody(dest: Destination, remote: Remote, etag: string, ghost content: seq<Byte>, body: seq<Byte>, start: nat,
                    ghost base: int)
    returns (r: Outcome<nat>)
    requires Tracking(dest, remote, etag, content) && dest.file.Some?
    requires start <= |content| && body == content[start..] && Agrees(dest.file, content, start)
    requires Paced(dest, etag, start, start, base)
    modifies dest, remote`lost
    ensures Tracking(dest, remote, etag, content) && dest.file.Some?
    ensures r.Ok? ==> r.value <= |body| && Agrees(dest.file, content, start + r.value)
    ensures remote.lost >= old(remote.lost) && r != Err(Restart)
    ensures dest.calm && remote.lost == old(remote.lost) ==> r.Ok? && r.value == |body|
    ensures |content| - start < RESUME_SAVE_EVERY ==> Resumable(dest, etag, base)
    ensures r.Ok? && dest.calm ==> start + r.value == base + dest.written && start <= SavedFor(dest.sidecar, etag)
    ensures |dest.file.value| >= |old(dest.file.value)|
  {
    var moved: nat, lastSaved: nat := 0, 0;
    var pieces := ReadCount();
    for read := 0 to pieces
      invariant Tracking(dest, remote, etag, content) && dest.file.Some?
      invariant moved <= |body| && Agrees(dest.file, content, start + moved)
      invariant Paced(dest, etag, start, start + moved, base) && remote.lost == old(remote.lost)
      invariant |dest.file.value| >= |old(dest.file.value)|
    {
      var broken := remote.Loses();
      if broken { return Err(Network); }
      var ok;
      ok, moved, lastSaved := ReadPiece(dest, remote, etag, content, body, start, moved, lastSaved, base);
      if !ok { return Err(Storage); }
    }
    var short := remote.Loses();
    var noticed: bool := *;
    if short && noticed { return Err(Decompress); }
    var ok, n := AppendPiece(dest, remote, etag, content, body, start, moved, !short);
    return if ok then Ok(moved + n) else Err(Storage);
  }

  /** Saved at the start of the pass or later. */
  ghost predicate Paced(dest: Destination, etag: string, start: nat, cursor: nat, base: int)
    reads dest
  {
    dest.calm ==> start <= SavedFor(dest.sidecar, etag) && cursor == base + dest.written
  }

  /** What one read brings is appended, and the offset saved every few megabytes. */
  method ReadPiece(dest: Destination, remote: Remote, etag: string, ghost content: seq<Byte>,
                   body: seq<Byte>, start: nat, moved0: nat, lastSaved0: nat, ghost base: int)
    returns (ok: bool, moved: nat, lastSaved: nat)
    requires Tracking(dest, remote, etag, content) && dest.file.Some?
    requires start <= |content| && body == content[start..] && moved0 <= |body|
    requires Agrees(dest.file, content, start + moved0) && Paced(dest, etag, start, start + moved0, base)
    modifies dest
    ensures Tracking(dest, remote, etag, content) && dest.file.Some?
    ensures ok ==> moved <= |body| && Agrees(dest.file, content, start + moved)
    ensures (dest.calm ==> ok) && (ok ==> Paced(dest, etag, start, start + moved, base))
    ensures |dest.file.value| >= |old(dest.file.value)|
  {
    var n;
    moved, lastSaved := moved0, lastSaved0;
    ok, n := AppendPiece(dest, remote, etag, content, body, start, moved, false);
    if !ok || n == 0 { return; }
    moved := moved + n;
    if start + moved >= lastSaved + RESUME_SAVE_EVERY {
      lastSaved := start + moved;
      SaveOffset(dest, remote, etag, content, start + moved);
    }
  }

  /** Decompress what one read brought, and append it. */
  method AppendPiece(dest: Destination, remote: Remote, etag: string, ghost content: seq<Byte>,
                     body: seq<Byte>, start: nat, moved: nat, rest: bool)
    returns (ok: bool, n: nat)
    requires Tracking(dest, remote, etag, content) && dest.file.Some?
    requires start <= |content| && body == content[start..] && moved <= |body| && Agrees(dest.file, content, start + moved)
    modifies dest`file, dest`written
    ensures Tracking(dest, remote, etag, content) && dest.file.Some?
    ensures ok ==> moved + n <= |body| && Agrees(dest.file, content, start + moved + n)
    ensures (dest.calm ==> ok) && (rest ==> moved + n == |body|)
    ensures ok ==> dest.written == old(dest.written) + n
    ensures |dest.file.value| >= |old(dest.file.value)|
  {
    var out := Piece(body, moved, rest);
    n := |out|;
    if out == [] { return true, 0; }
    ok := WriteContent(dest, remote, etag, content, start + moved, out);
  }

  /** However many reads the network makes of a body. */
  method ReadCount() returns (n: nat) { n := *; }

  /** Whatever one read yields once decompressed: some of the bytes that follow, perhaps none. */
  method Piece(body: seq<Byte>, from: nat, rest: bool) returns (out: seq<Byte>)
    requires from <= |body|
    ensures from + |out| <= |body| && out == body[from..from + |out|]
    ensures rest ==> from + |out| == |body|
  {
    var n: nat := *;
    out := body[from..if rest then |body| else from + Min(n, |body| - from)];
  }

  /**
   * `download_once`. On success the version seen at the start was `etag`. The file is left as it was
   * when there was nothing to fetch, and holds exactly that version otherwise; so it holds that
   * version if and only if there was something to fetch or the file already had that length. While
   * the local disk works the pass fails only when a reply was lost, or when the file was replaced,
   * which is what a restart says; whatever becomes of it, it can be resumed.
   */
  method DownloadOnce(dest: Destination, remote: Remote, maxRetries: nat, forceRestart: bool)
    returns (r: Outcome<nat>, ghost etag: string, ghost start: nat)
    requires remote.Valid() && Backed(dest, remote)
    modifies dest, remote
    ensures remote.Valid() && Backed(dest, remote)
    ensures remote.Since(old(remote.history), old(remote.etag), old(remote.replaced), old(remote.lost), old(remote.lostMeta))
    ensures r.Ok? ==>
              && etag in remote.history && (etag == old(remote.etag) || etag !in old(remote.history))
              && start <= |remote.history[etag]| && r.value == |remote.history[etag]| - start
              && start == (if forceRestart then 0 else SavedFor(old(dest.sidecar), etag))
              && Agrees(dest.file, remote.history[etag], |remote.history[etag]|)
    ensures r.Ok? ==>
              && (start == |remote.history[etag]| <==>
                    if forceRestart then remote.history[etag] == []
                    else NothingToFetch(old(dest.sidecar), etag, |remote.history[etag]|))
              && (start == |remote.history[etag]| ==> dest.file == old(dest.file) && dest.sidecar == old(dest.sidecar))
    ensures r.Ok? ==>
              (dest.file == Some(remote.history[etag]) <==>
               (start < |remote.history[etag]| ||
                (old(dest.file).Some? && |old(dest.file).value| == |remote.history[etag]|)))
    ensures r.Ok? && start < |remote.history[etag]| && dest.calm ==>
              dest.sidecar == Some(Resume(etag, |remote.history[etag]|))
    ensures r == Err(Restart) ==>
              dest.file.Some? && |dest.file.value| >= LocalLen(old(dest.file)) && remote.replaced > old(remote.replaced)
    ensures dest.calm && remote.lostMeta == old(remote.lostMeta) ==>
              && etag in remote.history && start <= |remote.history[etag]|
              && (remote.lost == old(remote.lost) ==> r.Ok? || r == Err(Restart))
              && (start + MIN_PARALLEL_DOWNLOAD_BYTES <= |remote.history[etag]| && remote.lost <= old(remote.lost) + maxRetries ==>
                    r.Ok? || r == Err(Restart))
    ensures r.Ok? || r == Err(Restart) ==> remote.lostMeta == old(remote.lostMeta)
    ensures remote.lostMeta == old(remote.lostMeta) ==>
              && (remote.replaced == old(remote.replaced) ==> etag == remote.etag)
              && (remote.replaced == old(remote.replaced) + 1 ==> etag in {old(remote.etag), remote.etag})
    ensures Resumable(dest, etag, start - old(dest.written))
  {
    etag, start := "", 0;
    var meta := remote.FetchMeta();
    if meta.Err? { return Err(meta.error), etag, start; }
    var tag, size := meta.value.0, meta.value.1;
    ghost var content := remote.content;
    etag := tag;
    var from := StartOffset(dest.sidecar, tag, size, LocalLen(dest.file), forceRestart);
    start := from;
    if from == size {
      ShortcutExactly(dest.sidecar, dest.file, tag, content, forceRestart);
      return Ok(0), etag, start;
    }
    r := FetchFrom(dest, remote, tag, content, from, size, maxRetries);
  }

  /** Open the file, fetch what follows `start` in one stream or in batches, and finish it. */
  method FetchFrom(dest: Destination, remote: Remote, etag: string, ghost content: seq<Byte>,
                   start: nat, size: nat, maxRetries: nat)
    returns (r: Outcome<nat>)
    requires Tracking(dest, remote, etag, content) && size == |content| && start < size
    requires Agrees(dest.file, content, start) && start <= SavedFor(dest.sidecar, etag)
    modifies dest, remote
    ensures Tracking(dest, remote, etag, content) && remote.lostMeta == old(remote.lostMeta)
    ensures remote.Since(old(remote.history), old(remote.etag), old(remote.replaced), old(remote.lost), old(remote.lostMeta))
    ensures r.Ok? ==> r.value == size - start && dest.file == Some(content)
    ensures r.Ok? && dest.calm ==> dest.sidecar == Some(Resume(etag, size))
    ensures r == Err(Restart) ==>
              dest.file.Some? && |dest.file.value| >= LocalLen(old(dest.file)) && remote.etag != etag
    ensures dest.calm && remote.lost == old(remote.lost) ==> r.Ok? || r == Err(Restart)
    ensures dest.calm && start + MIN_PARALLEL_DOWNLOAD_BYTES <= size && remote.lost <= old(remote.lost) + maxRetries ==>
              r.Ok? || r == Err(Restart)
    ensures Resumable(dest, etag, start - old(dest.written))
  {
    ghost var base := start - dest.written;
    var opened_ := dest.Open();
    if !opened_ { return Err(Storage); }
    if ShouldChunked(size, start) {
      r := DownloadChunked(dest, remote, etag, content, start, size, maxRetries, base);
    } else {
      r := DownloadSequential(dest, remote, etag, content, start, size, base);
    }
    if r.Err? { return; }
    r := FinishFile(dest, remote, etag, content, size, start, r.value, base);
  }

  /** Cut or pad to the remote's length, then accept only if every byte was fetched. */
  method FinishFile(dest: Destination, remote: Remote, etag: string, ghost content: seq<Byte>, size: nat,
                    start: nat, moved: nat, ghost base: int)
    returns (r: Outcome<nat>)
    requires Tracking(dest, remote, etag, content) && size == |content| && start + moved <= size
    requires dest.file.Some? && Agrees(dest.file, content, start + moved) && Resumable(dest, etag, base)
    requires dest.calm ==> start + moved == base + dest.written
    modifies dest
    ensures Tracking(dest, remote, etag, content)
    ensures r.Ok? ==> r.value == moved == size - start && dest.file == Some(content)
    ensures r.Ok? && dest.calm ==> dest.sidecar == Some(Resume(etag, size))
    ensures dest.calm && start + moved == size ==> r.Ok?
    ensures r != Err(Restart) && Resumable(dest, etag, base)
  {
    if dest.sidecar.Some? && dest.sidecar.value.etag == etag {
      ResizeAgrees(dest.file.value, content, dest.sidecar.value.offset);
    }
    ResizeAgrees(dest.file.value, content, start + moved);
    var resized := dest.SetLen(size);
    if !resized { return Err(Storage); }
    if start + moved != size { return Err(Protocol); }
    SaveOffset(dest, remote, etag, content, size);
    return Ok(moved);
  }

  /**
   * What a successful `download_file` leaves, given the file and the sidecar it found. `restarted`:
   * the remote changed under the first pass, so a second one started from byte 0.
   */
  ghost predicate Left(file: Option<seq<Byte>>, etag: string, content: seq<Byte>, before: Option<seq<Byte>>,
                       resume: Option<Resume>, restarted: bool)
  {
    if restarted then
      if content != [] then file == Some(content) else file.Some? && |file.value| >= LocalLen(before)
    else if NothingToFetch(resume, etag, |content|) then file == before && Agrees(before, content, |content|)
    else file == Some(content)
  }

  /** What is left is the remote's content exactly under a condition on what was there before. */
  lemma LeftExactly(file: Option<seq<Byte>>, etag: string, content: seq<Byte>, before: Option<seq<Byte>>,
                    resume: Option<Resume>, restarted: bool)
    requires Left(file, etag, content, before, resume, restarted)
    ensures !restarted ==>
              (file == Some(content) <==>
               !NothingToFetch(resume, etag, |content|) || (before.Some? && |before.value| == |content|))
    ensures restarted && content != [] ==> file == Some(content)
    ensures restarted && content == [] && LocalLen(before) > 0 ==> file != Some(content)
  {
    var n := |content|;
    assert content[..n] == content;
    assert before.Some? && |before.value| == n ==> before.value[..n] == before.value;
  }

  /**
   * `download_file`: one more pass, from byte 0, when the file changed under the first. While the
   * disk works and no reply is lost it succeeds unless the file is replaced twice. The version it
   * fetched is current at the end unless it was replaced after its bytes had been sent.
   */
  method DownloadFile(dest: Destination, remote: Remote, maxRetries: nat)
    returns (r: Outcome<nat>, ghost etag: string, ghost restarted: bool)
    requires remote.Valid() && Backed(dest, remote)
    modifies dest, remote
    ensures remote.Valid() && Backed(dest, remote)
    ensures remote.Since(old(remote.history), old(remote.etag), old(remote.replaced), old(remote.lost), old(remote.lostMeta))
    ensures r.Ok? ==>
              && etag in remote.history && (etag == old(remote.etag) || etag !in old(remote.history))
              && r.value == |remote.history[etag]| - (if restarted then 0 else SavedFor(old(dest.sidecar), etag))
              && Agrees(dest.file, remote.history[etag], |remote.history[etag]|)
              && Left(dest.file, etag, remote.history[etag], old(dest.file), old(dest.sidecar), restarted)
    ensures r.Ok? && dest.calm && |remote.history[etag]| > 0 ==>
              dest.sidecar == Some(Resume(etag, |remote.history[etag]|))
    ensures restarted ==> remote.replaced > old(remote.replaced)
    ensures dest.calm && remote.lostMeta == old(remote.lostMeta) && remote.lost == old(remote.lost) ==>
              r.Ok? || (restarted && r == Err(Restart) && remote.replaced >= old(remote.replaced) + 2)
    ensures r.Ok? ==>
              && remote.lostMeta == old(remote.lostMeta)
              && (remote.replaced == old(remote.replaced) ==> etag == remote.etag == old(remote.etag))
              && (remote.replaced == old(remote.replaced) + 1 ==>
                    if restarted then etag == remote.etag else etag in {old(remote.etag), remote.etag})
  {
    ghost var start;
    restarted := false;
    r, etag, start := DownloadOnce(dest, remote, maxRetries, false);
    if r.Err? && r.error.Restart? {
      restarted := true;
      r, etag, start := DownloadOnce(dest, remote, maxRetries, true);
    }
  }

  /** An empty remote over a one-byte local file, with no fault at all: success, and the byte stays. */
  method EmptyRemoteKeepsOldFile(b: Byte, maxRetries: nat) returns (r: Outcome<nat>, dest: Destination)
    ensures r == Ok(0) && dest.file == Some([b])
  {
    var remote := new Remote("v1", [], 0, 0);
    dest := new Destination(Some([b]), true);
    ghost var etag, restarted;
    r, etag, restarted := DownloadFile(dest, remote, maxRetries);
  }

  /** A download repeated with nothing replaced in between fetches nothing and leaves the file alone. */
  method DownloadAgain(dest: Destination, remote: Remote, maxRetries: nat) returns (first: Outcome<nat>, again: Outcome<nat>)
    requires remote.Valid() && Backed(dest, remote) && dest.calm
    modifies dest, remote
    ensures first.Ok? && remote.replaced == old(remote.replaced) ==>
              && (again.Ok? ==> again.value == 0)
              && (remote.lostMeta == old(remote.lostMeta) && remote.lost == old(remote.lost) ==> again == Ok(0))
  {
    ghost var etag, restarted;
    again := Err(Network);
    first, etag, restarted := DownloadFile(dest, remote, maxRetries);
    if first.Ok? {
      again, etag, restarted := DownloadFile(dest, remote, maxRetries);
    }
  }

  /**
   * Any number of runs of the program, with the remote file replaced between and during them.
   * `before` and `resume` are what the run that succeeded found. While the disk works and no reply is
   * lost, one of the runs succeeds unless the file is replaced twice during each.
   */
  method RunRepeatedly(dest: Destination, remote: Remote, maxRetries: nat, runs: nat)
    returns (r: Outcome<nat>, ghost etag: string, ghost before: Option<seq<Byte>>, ghost resume: Option<Resume>, ghost restarted: bool)
    requires remote.Valid() && Backed(dest, remote)
    modifies dest, remote
    ensures remote.Valid() && Backed(dest, remote)
    ensures r.Ok? ==>
              && etag in remote.history && Agrees(dest.file, remote.history[etag], |remote.history[etag]|)
              && Left(dest.file, etag, remote.history[etag], before, resume, restarted)
    ensures dest.calm && remote.lost == old(remote.lost) && remote.lostMeta == old(remote.lostMeta) && runs > 0 ==>
              && (r.Ok? || remote.replaced >= old(remote.replaced) + 2 * runs)
              && (remote.replaced == old(remote.replaced) ==>
                    !restarted && etag == remote.etag && before == old(dest.file) && resume == old(dest.sidecar))
  {
    r, etag := Err(Network), "";
    before, resume, restarted := dest.file, dest.sidecar, false;
    for run := 0 to runs
      invariant remote.Valid() && Backed(dest, remote) && r.Err?
      invariant remote.lost >= old(remote.lost) && remote.lostMeta >= old(remote.lostMeta)
      invariant dest.calm && remote.lost == old(remote.lost) && remote.lostMeta == old(remote.lostMeta) ==>
                  && remote.replaced >= old(remote.replaced) + 2 * run
                  && (run == 0 && remote.replaced == old(remote.replaced) ==>
                        remote.etag == old(remote.etag) && dest.file == old(dest.file) && dest.sidecar == old(dest.sidecar))
    {
      remote.Drift();
      before, resume := dest.file, dest.sidecar;
      r, etag, restarted := DownloadFile(dest, remote, maxRetries);
      if r.Ok? { return; }
    }
  }
}
