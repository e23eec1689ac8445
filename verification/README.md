# Verified models of libfw

libfw moves files between a client and a server: resumable uploads in blocks, range downloads with
resume, a streaming zstd codec, a tuning engine that sizes the transfers, a ZIP writer for the
browser, and a codec that maps the paths clients see to the paths on disk. This project models the
parts of it that carry the guarantees and proves them with Dafny. `dafny verify dfyconfig.toml`
checks everything.

## The modules

- `Wrappers`, `Bytes`, `Ranges`: an optional value, positional file writes, and the interval sets of the `.blocks` sidecar.
- `Plan`: the chunk grid, the blocks a client still has to send, and how they add up.
- `Session`, `SessionProofs`, `SessionRuns`: all requests of all upload sessions on one target path
  as a state machine over a disk of inodes and names, with disconnects, aborts, sweeps, stops
  between any two steps, and commits; safety and progress over whole runs.
- `TornWrites`: what a stop between writing bytes and recording them can do, exactly.
- `SessionContent`: what one request leaves in its own temp, whatever all the others do.
- `SessionServer`: `FsStorage`, `FsSink` and the `upload_session` handler as classes and methods, each
  request proved to be a run of that machine.
- `SessionBody`: the events the handler sees, derived from the codec's calls.
- `UploadClient`: the client's loop against the machine, with a network that may lose, cut, delay
  or repeat anything, and other writers at work between any two steps.
- `Frames`, `Codec`, `CodecRoundTrip`: the zstd frame-boundary parser, the decompressor that
  reassembles frames, and the compressor.
- `Tune`, `TuneRuns`, `TuneDecisions`: the tuning engine, what holds over its runs, and what it decides in terms of the traffic it saw.
- `Download`: out-of-order range download into a local file with a resume sidecar.
- `Registers`, `Crc`, `Zip`, `ZipReader`: CRC-32, the archive writer, and a reader for its output.
- `Base64`: the metadata header codec.
- `Mount`: the prefix-mapping path codec and the resolution of client paths.

## How a method relates to its specification

Code that changes state step by step is a method, and its postcondition either states the promise
outright or equates the new state with a function of the old one; the theorems are lemmas about those
functions. `SessionServer.UploadSession`, for example, is proved to perform one request of the
machine in `Session`, interleaved with any steps of other sessions and sweeps between its reads, so
what is proved of runs of the machine holds of the handler.

Faults are choices the model does not control (`*`): any such choice may be taken, so what is proved
holds for all of them. Ghost counters record the faults that were taken: rounds hit, requests and
answers lost, cancellations in `UploadClient`; replacements of the remote file and lost replies in
`Download`. The methods prove that they fail only when the counters say why, so giving up is never
their own idea and every retry the code has is there. A local disk has a constant `calm`: no write,
save or rename of it ever fails.

## What is assumed

- Opening a session temp, taking its guard and loading its ranges is one step. The code checks and
  opens before it locks (crates/libfw-server/src/storage.rs:293-343).
- Every writer of a session declares the source's size and sends the source's own bytes.
- The stale sweep removes a temp and its sidecar together. It takes no lock, so it may hit a temp
  whose request is still open.
- The identity of a temp (owner, session, file name) is one number; two sessions never share it.
- A file offset above the largest `off_t` is refused by the file system.
- What a request body decompresses to is a list of events in `SessionServer`; `SessionBody` derives the
  events from the codec and shows that a block's body, cut anywhere, delivers a prefix of the block.
- Of the zstd library only `CodecRoundTrip.CodecFacts` is known: a frame is recognised in full,
  declares no size over the limit, is inverted by the decoder, and fits the pending buffer if its
  input is at most 64 KiB. `CodecRoundTrip.FactsConsistent` shows the facts can be met.
- In `Download` an ETag fixes the content, never returns once replaced, and is never empty; nobody
  else writes the local file. Otherwise an offset saved for a version that comes back could point past
  bytes of another version.
- `usize` is 64 bits wide. Floats of the tuning engine are reals.

## Where the code and its comments disagree

The model follows the code.

- A commit with no recorded range is checked on length alone
  (crates/libfw-server/src/handlers.rs:603-617). While data and record are written together this is
  safe (`SessionRuns.Atomic`); when a request may die between the two it is not, and
  `TornWrites.AtomicExactly` says for which sources it stays safe.
- A download that finds nothing left to fetch touches no file
  (crates/libfw-client/src/native/download.rs:168-175), so an empty remote file leaves an absent or
  longer local file as it is: `Download.EmptyRemoteKeepsOldFile`. `Download.LeftExactly` says when the
  result is right.
- The declared content size is read at byte 5 even when a window or dictionary field comes first
  (crates/libfw-core/src/compress.rs:520-528). The parser is modelled so; `Frames.DeclaredSize` is about
  frames that have neither.
- RLE blocks are walked by their regenerated size (crates/libfw-core/src/compress.rs:546), so the
  statement that recognised frames are frames of RFC 8878 is about frames without RLE blocks.
- The comment at crates/libfw-client/src/tune.rs:1124-1127 excludes a post-degrade settle from reuse.
  The flag it needs is never set: `TuneRuns.PostDegradeSettleNeverMarked`; a run that stores halved
  parameters is `TuneRuns.HalvedSettleReached`.
- The chunk size follows the link, but at 2^63 bytes a tenth of a second a cast turns negative
  (crates/libfw-client/src/tune.rs:448-450): `Tune.ChunkGrows`.
- The mount codec's round trip can fail when one shadow prefix lies inside another:
  `Mount.NestedShadowsFail` is an instance, `Mount.RoundTripIffConsistent` the condition on the table.

## Model

| member | source | states |
|---|---|---|
| Bytes.WriteAt | crates/libfw-server/src/storage.rs:610-619 | seek and write all: the bytes written, every other byte kept, a gap past the end filled with zeros, an empty write changing nothing |
| Ranges.MergeRange | crates/libfw-server/src/storage.rs:576-596 | merging one range into the sidecar's list is the canonical union of the two sets: sorted, non-empty, strictly separated |
| Ranges.CanonicalUnique | crates/libfw-server/src/storage.rs:574-596 | a set of bytes has only one canonical list of ranges, so the sidecar's content depends on the set alone |
| Ranges.UnionCommutes | crates/libfw-server/src/storage.rs:622-643 | chunks of one session may be recorded in either order with the same sidecar |
| Ranges.TotalCounts | crates/libfw-server/src/handlers.rs:608 | the sum of the lengths of separated ranges is the number of bytes they cover |
| Ranges.CoverageExact | crates/libfw-server/src/handlers.rs:603-617 | ranges inside a file add up to its size exactly when they are the single range from 0 to its end |
| Plan.ChunkBounds | crates/libfw-client/src/plan.rs:68-78 | the loop lays the grid from a resume offset |
| Plan.ChunkAt | crates/libfw-client/src/plan.rs:68-78 | cell k of the grid starts k chunk sizes after the first and is clipped to the file |
| Plan.ChunksTile | crates/libfw-client/src/plan.rs:68-78 | the grid's cells are non-empty, in order, without gaps, and end at the end of the file |
| Plan.MissingRanges | crates/libfw-client/src/upload.rs:228-255 | for received ranges in any order, overlapping or out of bounds, the result is the one canonical list of the chunk's bytes that no received range covers; an empty chunk comes back as it is |
| Plan.AlignedMissing | crates/libfw-client/src/upload.rs:212-222 | the blocks to send are ordered, disjoint, each inside one cell of the grid, and cover exactly the bytes not received |
| Plan.CoveredBytes | crates/libfw-client/src/upload.rs:670-696 | the sweep over sorted ranges counts the bytes the received set covers, overlaps once |
| Plan.Conservation | crates/libfw-client/src/upload.rs:212-222 | the blocks to send and the bytes already received add up to the file size |
| Session.CommitCheckExact | crates/libfw-server/src/handlers.rs:591-617 | with ranges recorded, the commit check passes if and only if they are the whole file, and then the temp is the source |
| Session.HoleRefused | crates/libfw-server/src/handlers.rs:600-617 | a temp of the declared length with an unrecorded byte is refused |
| Session.GoodCommit | crates/libfw-server/src/handlers.rs:591-617 | a passing check means the complete source, when a range is recorded, the source is empty, or every write is recorded before its request can die |
| SessionProofs.WriteBacked | crates/libfw-server/src/storage.rs:610-645 | a positional write of the source's bytes keeps every recorded byte right and makes the new range right too |
| SessionProofs.SliceIsSource | crates/libfw-server/src/handlers.rs:423-444 | a slice let through the size checks lands inside the file and holds the source's bytes for its place |
| SessionProofs.FailInv | crates/libfw-server/src/handlers.rs:587-588 | a write that fails after any of its bytes, none recorded, and discards the temp keeps the invariant of all sessions |
| SessionProofs.RenamedWired | crates/libfw-server/src/storage.rs:659-701 | after the rename no temp name and no open request holds the published file |
| SessionProofs.UnlinkInv | crates/libfw-server/src/storage.rs:458-530 | an abort or a sweep, even of a temp whose request is open, keeps the invariant of all sessions |
| SessionProofs.StepInv | crates/libfw-server/src/handlers.rs:471-626 | every step of every request, and every sweep, keeps the invariant: recorded ranges are canonical, inside the temp, and backed by source bytes, and no two sessions share a file |
| SessionProofs.StepPublished | crates/libfw-server/src/storage.rs:659-701 | no step but a publishing commit changes what readers of the target see |
| SessionRuns.FreshStart | crates/libfw-server/src/storage.rs:331-343 | any existing or absent target with any stale sidecars left behind is a valid start |
| SessionRuns.SidecarNeverLies | crates/libfw-server/src/storage.rs:610-645 | after any honest run, stops between write and record included, every recorded byte is the source's |
| SessionRuns.Atomic | crates/libfw-server/src/handlers.rs:571-622 | with any number of sessions interleaving, the target is its old content or the complete source of the last published session, at every step, when data and record go together |
| SessionRuns.AtomicWhenRecorded | crates/libfw-server/src/handlers.rs:571-622 | the same with writes torn from their records, as long as no commit passes on length alone |
| SessionRuns.GentleRun | crates/libfw-server/src/handlers.rs:571-586 | while nothing discards a session's temp, what is recorded of it only grows, whatever other sessions do |
| SessionRuns.AckedIsRecorded | crates/libfw-server/src/handlers.rs:624-626 | a block whose request was acknowledged stays recorded |
| SessionRuns.FullSinkCommits | crates/libfw-server/src/handlers.rs:591-622 | an open commit request whose ranges cover the whole file passes the check and publishes the source |
| SessionRuns.FullyRecordedCommits | crates/libfw-server/src/handlers.rs:591-622 | a commit on a fully recorded temp publishes the source |
| SessionRuns.AckedRoundCommits | crates/libfw-server/src/handlers.rs:543-622 | probe, have every missing block acknowledged in any order and however sliced, commit: the commit always publishes the complete source |
| TornWrites.HoleRunPublishes | crates/libfw-server/src/handlers.rs:603-617 | four steps that publish a zero-filled hole when a request dies between write and record |
| TornWrites.AtomicWhenInvisible | crates/libfw-server/src/handlers.rs:603-617 | with torn writes, runs stay atomic for sources that are zero before their last byte |
| TornWrites.AtomicExactly | crates/libfw-server/src/handlers.rs:603-617 | with torn writes, all honest runs are atomic if and only if every source is zero before its last byte |
| SessionContent.StepUntouched | crates/libfw-server/src/storage.rs:253-371 | whatever one step does, file names stay in order and every other session keeps its files, records and open request |
| SessionContent.WritesJoin | crates/libfw-server/src/handlers.rs:558-561 | two slices written one after the other are one write of both |
| SessionContent.RecordsJoin | crates/libfw-server/src/storage.rs:622-643 | and are recorded as one range |
| SessionContent.OpenHolding | crates/libfw-server/src/handlers.rs:543-570 | from its opening on, whatever others do, an open request's temp holds what it held before with the bytes delivered so far written over it at the request's offset, and these are recorded, unless it is swept |
| SessionServer.FsStorage.WriteStreamSession | crates/libfw-server/src/storage.rs:253-371 | opening a session temp: reuse or create, refuse a create on an existing target, drop a stale sidecar of a new temp, load the ranges, hold the guard |
| SessionServer.FsSink.WriteAt | crates/libfw-server/src/storage.rs:610-645 | write, then re-read, merge and persist: the disk is the machine's write-and-record step and the sink's copy equals the sidecar; a failure leaves any first part of the bytes written and nothing recorded |
| SessionServer.FsSink.Commit | crates/libfw-server/src/storage.rs:659-701 | sidecar removed, then the rename, unless a create meets a target; a failing sync or rename keeps the temp without its sidecar; the guard is released |
| SessionServer.FsSink.Abort | crates/libfw-server/src/storage.rs:703-716 | temp and sidecar are gone, the guard is released |
| SessionServer.WriteAtBatch | crates/libfw-server/src/handlers.rs:423-444 | a batch is written only when its saturated end is within the declared size and the file system takes it, and then unless the disk fails; a refused batch changes nothing, a failed one records nothing |
| SessionServer.PayloadPrefix | crates/libfw-server/src/handlers.rs:543-570 | the reads so far have delivered a prefix of what the whole body decodes to |
| SessionServer.VerdictExactly | crates/libfw-server/src/handlers.rs:543-570 | a body passes if and only if everything decodes and the stream ends whole; it counts as disconnected, or as undecodable, exactly when the first event that does not decode is a broken transport, or a corrupt stream |
| SessionServer.SliceTracks | crates/libfw-server/src/handlers.rs:558-561 | one batch is one slice step of the machine, or its abort |
| SessionServer.FailTracks | crates/libfw-server/src/handlers.rs:587-588 | a failed batch is one failing step of the machine |
| SessionServer.RunIgnores | crates/libfw-server/src/storage.rs:344-351 | what other sessions and the sweep do does not depend on an open request's sink, nor change it |
| SessionServer.RunSpares | crates/libfw-server/src/storage.rs:344-351 | other sessions leave a session's temp and sidecar alone, and never publish for it; only a sweep removes them |
| SessionServer.Await | crates/libfw-server/src/handlers.rs:544 | while the handler waits for the body any number of steps of other sessions and sweeps may take place, and the request goes on as one of the machine |
| SessionServer.CloseTracks | crates/libfw-server/src/handlers.rs:571-622 | dropping, aborting and committing a sink are the machine's closing steps |
| SessionServer.WriteBody | crates/libfw-server/src/handlers.rs:543-570 | reading the body, others moving on between any two reads, performs slices of one request; without an error the whole payload is written and, unless the temp was swept, recorded; when the disk never fails, a payload within the declared size gets the body's own verdict and a longer one a size error |
| SessionServer.SumLens | crates/libfw-server/src/handlers.rs:608 | the handler's sum of range lengths |
| SessionServer.CheckAndCommit | crates/libfw-server/src/handlers.rs:591-622 | wrong length, missing coverage, or rename: published, aborted, or stopped with the temp kept, with the matching answer and its number |
| SessionServer.Conclude | crates/libfw-server/src/handlers.rs:571-626 | a disconnect keeps the temp, any other failure discards it and is the answer, success keeps or commits it |
| SessionServer.UploadSession | crates/libfw-server/src/handlers.rs:471-626 | every data or commit request, whatever its body does and whatever others do between its reads, is one request of the machine, and its answer tells the truth: 201 on data means the whole body is recorded unless the temp was swept, and the session gains a publication exactly when a commit is answered 201. When the disk never fails, the answer follows from the request: refused if a create meets a target; a size error if the payload passes the declared size; otherwise the body's first failure, if it has one; otherwise 201 for data, and for a commit on an unswept temp 201 exactly when the temp with the payload written over it has the declared length and is covered, unless a create meets a target by then |
| SessionServer.TempHolds | crates/libfw-server/src/handlers.rs:543-602 | how long an unswept temp is, and what is recorded of it, when the whole body has been delivered |
| SessionServer.Probe | crates/libfw-server/src/handlers.rs:505-526 | the probe reports the sidecar's ranges and leaves temp and sidecar in place |
| SessionBody.ReadAll | crates/libfw-server/src/handlers.rs:533-565 | the receiving loop, taking the output after every read, yields the events the handler works on |
| SessionBody.DeliversPrefix | crates/libfw-server/src/handlers.rs:543-565 | however a good stream is cut into reads, and wherever the client goes away, a prefix of its content reaches the file |
| SessionBody.BodyIsHonest | crates/libfw-client/src/native/upload.rs:299-330 | the compressed body of a block, cut anywhere, delivers a prefix of the block's bytes: the request is one the session theorems are about |
| SessionBody.WholeBodyDelivered | crates/libfw-client/src/native/mod.rs:663-672 | a block of up to 16 MiB whose body arrives is delivered whole, however the network cut or joined it |
| UploadClient.RunSince | crates/libfw-server/src/storage.rs:659-701 | what a run publishes is published by the sessions taking part in it |
| UploadClient.SparedSink | crates/libfw-server/src/storage.rs:344-351 | while a request holds the guard, other requests of its session leave its sink alone |
| UploadClient.OthersKeep | crates/libfw-server/src/storage.rs:344-351 | steps of other sessions leave a session's record, temp and open request as they are |
| UploadClient.Network.Request | crates/libfw-client/src/upload.rs:80-144 | one request over a faulty network: an acknowledged commit was published; while nobody harms the session a block is recorded and acknowledged unless the request, its body or its answer was lost, and a fully recorded temp is published unless the request never arrived |
| UploadClient.Network.Probe | crates/libfw-client/src/upload.rs:158-204 | a probe is lost or answers with what is recorded, the temp then being ready unless something happened since; a new round begins |
| UploadClient.TryTask | crates/libfw-client/src/upload.rs:260-387 | one attempt at one block: it leaves the flight when acknowledged, unreadable, or out of attempts; while there are no more losses than retries it leaves only acknowledged |
| UploadClient.PostBlock | crates/libfw-client/src/native/upload.rs:299-360 | the request carries exactly the block's bytes at the block's offset; while nobody harms the session it is recorded and acknowledged, or was lost |
| UploadClient.SendBatch | crates/libfw-client/src/upload.rs:563-593 | blocks in flight interleave in any order, each with its own retries, within the bound on attempts; as many losses as there are retries still leave every block recorded and no error, and without a loss every block is sent exactly once |
| UploadClient.SendMissing | crates/libfw-client/src/upload.rs:563-593 | all missing blocks go out in batches of a window that may change, within the bound on attempts; as many losses as there are retries still leave all of them recorded, and without a loss exactly the missing bytes are sent |
| UploadClient.CommitUpload | crates/libfw-client/src/upload.rs:389-433 | success means published; at most one more attempt than the retries; with everything recorded it fails, if nothing else happens, only when every attempt was lost, and everything is still recorded then |
| UploadClient.FewBlocks | crates/libfw-client/src/upload.rs:212-222 | there are never more blocks to send than bytes in the file |
| UploadClient.NothingMissing | crates/libfw-client/src/upload.rs:516-593 | what was recorded plus the missing blocks, once sent, is the whole file |
| UploadClient.MissingBytes | crates/libfw-client/src/upload.rs:212-222 | the blocks to send have as many bytes as the probe's answer leaves open |
| UploadClient.Round | crates/libfw-client/src/native/upload.rs:194-252 | send the missing blocks, then commit: success means published; lost requests within the retries do not make it fail, and when just the commit requests are lost everything is recorded |
| UploadClient.LastChance | crates/libfw-client/src/upload.rs:605-625 | the final probe allows one more commit if and only if nothing is missing, and that commit then succeeds unless something else goes wrong |
| UploadClient.Attempt | crates/libfw-client/src/upload.rs:496-643 | one pass of the loop, within its bounds: a pass in which nothing goes wrong commits, whatever the passes before it left behind; the client gives up only when cancelled, when a probe is lost, or after the last round, and then not if the last round lost nothing but its commit requests |
| UploadClient.Rounds | crates/libfw-client/src/upload.rs:494-643 | the round loop ends within its bounds on probes, commits and block attempts, and fails only on a cancellation, a lost probe, or faults in every one of the rounds |
| UploadClient.UploadSession | crates/libfw-client/src/upload.rs:465-651 | whatever the network does, success means this session was published during the call, and the target equals the source byte for byte when no other session writes it; the result is the number of bytes the first probe left to send; with torn writes the same holds for sources a hole cannot be seen in. An error implies a cancellation, a lost probe, or something going wrong in each of maxRetries + 1 rounds; when nothing goes wrong exactly the result's bytes are sent |
| UploadClient.SoleWriter | crates/libfw-client/src/upload.rs:594-604 | when only one session publishes, what readers see afterwards is its source |
| Frames.ZstdFrameBoundary | crates/libfw-core/src/compress.rs:481-564 | the block-walking loop computes the boundary |
| Frames.BoundaryStable | crates/libfw-core/src/compress.rs:446-564 | a complete boundary has 0 < length <= buffer, and both complete and invalid verdicts survive any extension |
| Frames.ShorterIsIncomplete | crates/libfw-core/src/compress.rs:446-564 | every shorter prefix of a complete frame is incomplete: boundaries form a prefix code |
| Frames.FrameAlone | crates/libfw-core/src/compress.rs:446-564 | a frame cut out of its buffer is recognised the same |
| Frames.FrameRecognised | crates/libfw-core/src/compress.rs:461-564 | every frame of raw and compressed blocks and every skippable frame of sections 3.1.1 and 3.1.2 of RFC 8878, within the size cap, is recognised with its own length whatever follows |
| Frames.RecognisedIsFrame | crates/libfw-core/src/compress.rs:461-564 | conversely, what is recognised without an RLE block is such a frame |
| Frames.InvalidExactly | crates/libfw-core/src/compress.rs:446-564 | a buffer is refused if and only if its magic number is neither a frame's nor a skippable frame's, a reserved bit of the descriptor is set, or its blocks lead to one of the reserved type or over the size cap |
| Frames.DeclaredSize | crates/libfw-core/src/compress.rs:510-528 | a single-segment frame without a dictionary declares the size its field holds |
| Codec.DrainBudget | crates/libfw-core/src/compress.rs:330-379 | a budget never lets more through, and draining succeeds under it exactly when it does without one and the output fits |
| Codec.ZripDecompressor.DrainFrames | crates/libfw-core/src/compress.rs:330-379 | the cursor loop drains the frames at the front, appends at most the budget even when it fails, and compacts only on success |
| Codec.ZripDecompressor.Decompress | crates/libfw-core/src/compress.rs:393-409 | one read: the frames it completed come out, at most the budget is appended, the rest is kept |
| Codec.ZripDecompressor.Finish | crates/libfw-core/src/compress.rs:411-425 | the end of a stream is accepted only when nothing is left over; finishing again changes nothing |
| Codec.SplitIndependent | crates/libfw-core/src/compress.rs:330-425 | however a string is cut into calls, a run that succeeds outputs the decoded frames of the whole string in order; the string is whole frames |
| Codec.DeliveredIsPrefix | crates/libfw-core/src/compress.rs:393-409 | the calls so far have delivered a prefix of what the whole stream holds |
| Codec.StreamExact | crates/libfw-core/src/compress.rs:330-425 | a stream whose frames fit the buffer goes through if and only if it is whole decodable frames and no call has more than its budget to output |
| Codec.SmallStreamWithin | crates/libfw-core/src/compress.rs:84-93 | a stream with no more output than one call's budget never exceeds it, however it is cut |
| CodecRoundTrip.ZripCompressor.Compress | crates/libfw-core/src/compress.rs:271-288 | each non-empty input closes the frame of the one before it and opens its own |
| CodecRoundTrip.ZripCompressor.Finish | crates/libfw-core/src/compress.rs:290-300 | the finished stream is one frame for each input, and one frame when there was none |
| CodecRoundTrip.WireDecodes | crates/libfw-core/src/compress.rs:266-300 | the compressor's output is whole frames holding the inputs in order |
| CodecRoundTrip.RoundTrip | crates/libfw-core/src/compress.rs:266-425 | for every list of inputs and every re-splitting, decompression returns their concatenation; with inputs of at most 64 KiB it completes exactly when no call exceeds its budget |
| CodecRoundTrip.CutDeliversPrefix | crates/libfw-core/src/compress.rs:393-409 | a stream cut after any call has delivered a prefix of the inputs |
| CodecRoundTrip.Windows | crates/libfw-client/src/native/mod.rs:667 | a chunk is cut into non-empty windows of at most 64 KiB that join to the chunk |
| CodecRoundTrip.CompressChunk | crates/libfw-client/src/native/mod.rs:663-672 | a chunk becomes one stream with one frame for each window |
| CodecRoundTrip.DecompressAll | crates/libfw-core/src/compress.rs:570-597 | feeding every piece and finishing into one output runs the whole stream |
| CodecRoundTrip.ChunkNeverTrips | crates/libfw-client/src/native/mod.rs:663-672 | a chunk of up to 16 MiB always comes back whole, never tripping the frame, pending or per-call limits, however the network joins or splits it |
| Tune.FloorOf | crates/libfw-client/src/tune.rs:377-379 | an advertised minimum is used as it is when it lies between 1 and the client's ceiling, and cut to the nearer of the two otherwise |
| Tune.Bounded | crates/libfw-client/src/tune.rs:386-397 | for any range, inverted or huge, the result is in the ceiling; for a real range it is in the range, and unchanged if it already was |
| Tune.ChunkForLink | crates/libfw-client/src/tune.rs:442-452 | the chunk size for a measured link is within 1, 16 MiB and the memory budget |
| Tune.ChunkGrows | crates/libfw-client/src/tune.rs:442-452 | for an advertised range a faster link never gets a smaller chunk, up to 2^63 bytes a tenth of a second; from there a cast turns negative and the minimum is used |
| Tune.ChunkTracksLink | crates/libfw-client/src/tune.rs:442-452 | inside range and budget the chunk is what the link moves in a tenth of a second, aligned down to 64 KiB |
| Tune.EnforcedInBudget | crates/libfw-client/src/tune.rs:1276-1310 | shrinking the chunk to the quotient keeps concurrency x widest window x chunk within 256 MiB |
| Tune.RetunedInCeilings | crates/libfw-client/src/tune.rs:1288-1301 | following the link keeps ceilings and budget and moves nothing but the chunk |
| Tune.AppliedInBudget | crates/libfw-client/src/tune.rs:1100-1157 | carrying out any decision keeps the budget |
| Tune.TuningEngine.EnforceInFlightBudget | crates/libfw-client/src/tune.rs:1307-1310 | the chunk is clamped into what the budget leaves for it, and nothing else moves |
| Tune.TuningEngine.BeginTransfer | crates/libfw-client/src/tune.rs:959-1026 | the new state as a function of the old: in-memory settle, cached settle or minimums, with nothing measured before leaking in |
| Tune.TuningEngine.Sample | crates/libfw-client/src/tune.rs:1041-1054 | errors are counted, round-trip samples smoothed, the first one becoming the baseline |
| Tune.TuningEngine.RetuneChunkSize | crates/libfw-client/src/tune.rs:1288-1301 | the deadband rule for the chunk size |
| Tune.TuningEngine.Apply | crates/libfw-client/src/tune.rs:1100-1157 | what each decision does to phase, parameters, dimension and counters |
| Tune.TuningEngine.Tick | crates/libfw-client/src/tune.rs:1034-1170 | the new state as a function of the old, one window at most being closed |
| Tune.TuningEngine.CloseWindow | crates/libfw-client/src/tune.rs:1065-1163 | measuring, sizing, deciding and applying in the source's order |
| Tune.TuningEngine.Measure | crates/libfw-client/src/tune.rs:1080-1096 | what the decision is shown: inflation and the bandwidth-delay product only while ramping, the latter only for concurrency |
| Tune.TuningEngine.TransferEnd | crates/libfw-client/src/tune.rs:1177-1188 | a failed transfer forgets the settle and re-arms the ramp |
| TuneRuns.MemoryBudget | crates/libfw-client/src/tune.rs:76-86 | for any capabilities, cache contents and run of begins, ticks and ends: concurrency and windows in 1..64, chunk in 1..16 MiB, at most 256 MiB in flight in either direction |
| TuneRuns.Run | crates/libfw-client/src/tune.rs:959-1188 | whatever events occur, in whatever order, every state reached is inside ceilings and memory budget |
| TuneRuns.WindowOutcome | crates/libfw-client/src/tune.rs:1065-1157 | after a window: only a raise below the cap enlarges a dimension, only an error shrinks one, by half, and no other dimension moves |
| TuneRuns.TickNoGrowth | crates/libfw-client/src/tune.rs:566-590 | outside the ramp a tick never enlarges a window or the concurrency and never restarts the ramp |
| TuneRuns.NoGrowthAfterRamp | crates/libfw-client/src/tune.rs:1085-1157 | once the phase has left Ramping nothing grows until a new or a failed transfer, errors included |
| TuneRuns.WindowProgress | crates/libfw-client/src/tune.rs:532-590 | each error-free window settles or lowers the measure made of the dimensions left, the distance to the caps and the low-gain windows left |
| TuneRuns.RampTerminates | crates/libfw-client/src/tune.rs:1085-1161 | from any reachable ramping or degraded state error-free windows settle, within 2 x (cap - value) + 2 of them for each dimension left |
| TuneRuns.PostDegradeSettleNeverMarked | crates/libfw-client/src/tune.rs:1141-1155 | in every run of the engine whose direction is set just before a transfer begins, the two-stable-windows rule never fires: the low-gain counter settles first |
| TuneRuns.DegradedSettleIsRemembered | crates/libfw-client/src/tune.rs:1121-1133 | in every such run, a tick that settles a degraded engine stores the parameters it settles on for these capabilities and this direction |
| TuneRuns.NextTransferReuses | crates/libfw-client/src/tune.rs:1002-1026 | the next transfer then starts from the stored parameters, clamped, without a ramp |
| TuneRuns.HalvedSettleReached | crates/libfw-client/src/tune.rs:1121-1155 | a reachable run: an error halves the window, two quiet windows settle, and the halved window is stored |
| TuneDecisions.RaisesExactly | crates/libfw-client/src/tune.rs:532-590 | a window raises the dimension if and only if the engine is ramping, saw no error, is below the cap, does not already keep a round trip's bytes in flight, sees smoothed latency at most 1.3 times the baseline, and moved at least 1.05 times the bits per second of the window before, if there was one; it doubles while that fits and adds one after |
| TuneDecisions.DegradesExactly | crates/libfw-client/src/tune.rs:541-545 | a window with an error halves the dimension and degrades the engine, and no other window shrinks one or degrades |
| TuneDecisions.SettlesExactly | crates/libfw-client/src/tune.rs:546-590 | when exactly a ramping or degraded engine settles |
| TuneDecisions.AdvancesExactly | crates/libfw-client/src/tune.rs:546-590 | when exactly the window dimension gives way to concurrency |
| TuneDecisions.HoldsExactly | crates/libfw-client/src/tune.rs:571-590 | the first window with room and no growth only counts |
| TuneDecisions.SampleMeans | crates/libfw-client/src/tune.rs:1041-1054 | a positive latency is smoothed, one quarter new and three quarters old, and the first is the baseline; an error is counted |
| TuneDecisions.CapMeans | crates/libfw-client/src/tune.rs:1057-1080 | the cap of a dimension is the advertised maximum, between 1 and 64 |
| TuneDecisions.DeadbandExactly | crates/libfw-client/src/tune.rs:1288-1301 | the chunk stays while the link asks for between half and one and a half times it, and becomes what the link asks for otherwise |
| TuneDecisions.BeginsFrom | crates/libfw-client/src/tune.rs:959-1026 | a transfer starts from the remembered settle if and only if it is for these capabilities and this direction, else from the cached table, else it ramps from the advertised minimums |
| TuneDecisions.FailureForgets | crates/libfw-client/src/tune.rs:1177-1188 | after a failed transfer the next one ramps from the minimums, whatever was remembered |
| TuneDecisions.DisabledIsStatic | crates/libfw-client/src/tune.rs:959-1036 | with tuning off the configured table is used, inside the ceilings, and ticks do not change it |
| Download.Remote.RangeRequest | crates/libfw-client/src/native/download.rs:475-508 | a range under If-Range is answered with the current version's bytes, or tells the client to restart |
| Download.BatchSpan | crates/libfw-client/src/native/download.rs:96-103 | a batch is never empty and never passes the end; it is the window's chunks when they fit, and the rest when one chunk covers it |
| Download.StartOffset | crates/libfw-client/src/native/download.rs:148-156 | a saved offset is used only for the same version, inside the file, and when the local file reaches it, and is used whenever these hold and no restart is forced |
| Download.ShortcutExactly | crates/libfw-client/src/native/download.rs:168-175 | when the pass that fetches nothing is taken, and that it leaves the right content exactly when the local file exists with the remote's length |
| Download.EmptyRemoteKeepsOldFile | crates/libfw-client/src/native/download.rs:168-175 | an empty remote downloaded over a one-byte local file, without any fault: success, and the byte stays |
| Download.WriteAgrees | crates/libfw-client/src/native/download.rs:322-329 | writing a version's bytes keeps every prefix the file already shares with it and extends the shared prefix |
| Download.NextIsContiguous | crates/libfw-client/src/native/download.rs:321-331 | what the reorder buffer holds at the cursor is the next chunk |
| Download.BufferOne | crates/libfw-client/src/native/download.rs:319 | a chunk that finished out of order waits under its own offset |
| Download.FlushContiguous | crates/libfw-client/src/native/download.rs:320-341 | everything contiguous is written and no finished chunk is left at the cursor; saved offsets are backed |
| Download.GetRangeWithRetry | crates/libfw-client/src/native/download.rs:413-446 | only a body of exactly the requested length is accepted, and it is the version's bytes for that range; a range inside the file is fetched unless the file was replaced, which a restart says, or each of maxRetries + 1 attempts was lost |
| Download.DownloadBatch | crates/libfw-client/src/native/download.rs:277-344 | for every completion order with at most window requests in flight: success has written exactly the batch's range, failure leaves every saved offset backed and, while the disk works, less than 4 MiB written beyond it; maxRetries losses still succeed unless the file was replaced |
| Download.DownloadChunked | crates/libfw-client/src/native/download.rs:196-222 | batches with a window and a chunk size that change between them: the first cursor bytes are the remote's throughout |
| Download.DownloadSequential | crates/libfw-client/src/native/download.rs:349-410 | a streamed body that may end or break anywhere leaves a correct prefix and backed offsets; it arrives whole unless it was lost or the file replaced |
| Download.FinishFile | crates/libfw-client/src/native/download.rs:228-246 | success only when every byte was fetched, and then the file is the remote's content exactly and its size is saved |
| Download.DownloadOnce | crates/libfw-client/src/native/download.rs:139-247 | success is about a version that was current during the call and its bytes are in place, fetched from the offset saved for that version on; the file is untouched when the remote is empty or the saved offset was at its end, and equals the remote otherwise, so it equals it if and only if one of these fails or the length already matched; on every exit saved offsets are backed and, while the disk works, less than 4 MiB lies beyond them; it then fails only when a reply was lost, or more than maxRetries in a chunked file, or the file was replaced, and only the last is a restart |
| Download.DownloadFile | crates/libfw-client/src/native/download.rs:114-136 | a file that changed under the first pass is fetched again from byte 0; what is left is a function of the file and sidecar found and of whether that happened; while the disk works and no reply is lost it fails only when the file was replaced twice; the version fetched is the current one, unless it was replaced after its bytes had been sent; the completed offset is saved |
| Download.DownloadAgain | crates/libfw-client/src/native/download.rs:239-240 | a download repeated with nothing replaced in between fetches nothing |
| Download.LeftExactly | crates/libfw-client/src/native/download.rs:168-175 | what a download leaves equals the remote if and only if there was something to fetch or the local file already had its length; after a restart, whenever the remote is not empty, and never when it is empty and the local file was not |
| Download.RunRepeatedly | crates/libfw-client/src/native/download.rs:114-247 | over any number of runs with the remote replaced between and during them saved offsets stay backed, the run that succeeds leaves what `DownloadFile` says, and one of them succeeds unless a reply is lost or the file is replaced twice during each |
| Crc.TableEntry | sdk/zip.js:20-27 | a table entry is eight steps of the register |
| Crc.CrcTable | sdk/zip.js:19-30 | the table holds eight steps of the register for each byte |
| Crc.StepsLinear | sdk/zip.js:21-27 | eight steps distribute over exclusive or |
| Crc.TableStep | sdk/zip.js:38 | one lookup and one shift feed the register a whole byte, bit by bit |
| Crc.Crc32ByTable | sdk/zip.js:37-43 | the table loop computes the bit-serial reflected CRC-32 of every byte string |
| Crc.CrcFits | sdk/zip.js:42 | the checksum is an unsigned 32-bit number |
| Zip.CreateZip | sdk/zip.js:54-147 | the writer throws exactly when a count, name, offset or directory size would not fit its field; otherwise its bytes are the archive of the entries |
| Zip.WriteEntry | sdk/zip.js:72-104 | one entry's local record, directory data and running offset |
| Zip.WriteDirectory | sdk/zip.js:108-147 | the directory headers and the end record |
| ZipReader.LocalReadBack | sdk/zip.js:80-98 | the local header (section 4.3.7) leads a reader to the entry's data, with a UTF-8 name, matching sizes and CRC |
| ZipReader.CentralReadBack | sdk/zip.js:111-130 | a directory header (section 4.3.12) gives back its UTF-8 name, CRC, size and offset |
| ZipReader.EndReadBack | sdk/zip.js:139-147 | the end record (section 4.3.16) gives back count, size and offset of the directory |
| ZipReader.ReadBack | sdk/zip.js:54-147 | a reader recovers from the archive exactly the entries' names and data, in order, for any checksum of 32 bits |
| ZipReader.ZipAndRead | sdk/zip.js:54-147 | whenever the writer does not throw, reading its bytes with CRC-32 gives back what it was given |
| Base64.Base64Encode | crates/libfw-core/src/metadata.rs:170-191 | the loop over groups of three computes the encoding |
| Base64.EncodedLength | crates/libfw-core/src/metadata.rs:170-191 | the encoding of n bytes has 4 x ceil(n / 3) characters |
| Base64.EncodedBits | crates/libfw-core/src/metadata.rs:170-191 | its letters carry the input's bits followed by zeros up to a whole letter, as in section 4 of RFC 4648 |
| Base64.PushBits | crates/libfw-core/src/metadata.rs:211 | shifting on 32 bits loses only bits that are never looked at again |
| Base64.Base64Decode | crates/libfw-core/src/metadata.rs:194-218 | for every text the accumulator loop yields the bytes of its six-bit values end to end, or refuses a character outside the alphabet |
| Base64.InsertedIsInsignificant | crates/libfw-core/src/metadata.rs:199-201 | padding and whitespace may stand anywhere |
| Base64.RoundTrip | crates/libfw-core/src/metadata.rs:170-218 | any text with an encoding's significant characters decodes to what was encoded |
| Mount.NormalizePrefix | crates/libfw-core/src/pathmap.rs:182-197 | the loop computes the normal form, and the result is canonical |
| Mount.NormalizedSegments | crates/libfw-core/src/pathmap.rs:182-197 | the normal form's segments are those of the path other than empty, dot and dot-dot, all of them and in order |
| Mount.NormalizedSame | crates/libfw-core/src/pathmap.rs:182-197 | a path is its own normal form if and only if it is canonical and has no dot or dot-dot segment |
| Mount.NormalizedTwice | crates/libfw-core/src/pathmap.rs:182-197 | normalising is idempotent |
| Mount.Best | crates/libfw-core/src/pathmap.rs:163-179 | the longest matching prefix, the last one of several, and none exactly when none matches |
| Mount.NewCodec | crates/libfw-core/src/pathmap.rs:128-141 | the table is the normalised pairs other than root to root, in their order |
| Mount.PrefixAndRest | crates/libfw-core/src/pathmap.rs:163-179 | a matched prefix and what follows it join to the path again |
| Mount.RoundTripExactly | crates/libfw-core/src/pathmap.rs:144-219 | a canonical path under a mapped real prefix encodes to something that decodes, and to itself if and only if the winning shadow is mounted where the encoding entry puts it |
| Mount.RoundTripIffConsistent | crates/libfw-core/src/pathmap.rs:144-219 | all canonical paths under mapped real prefixes survive encoding and decoding if and only if every shadow prefix inside another, neither hidden by a third, is mounted where the outer entry puts it: a condition on the table alone |
| Mount.RoundTrip | crates/libfw-core/src/pathmap.rs:144-219 | when no shadow prefix is a segment prefix of another, decode(encode(p)) = p for every canonical p under a mapped real prefix |
| Mount.NestedShadowsFail | crates/libfw-core/src/pathmap.rs:173-179 | with shadows a and a/b mounted at x and y, x/b comes back as y |
| Mount.DecodeCompound | crates/libfw-server/src/lib.rs:220-235 | the longest decodable proper segment prefix with the rest appended verbatim, and nothing exactly when no segment prefix decodes |
| Mount.RejectedHasNoDecodablePrefix | crates/libfw-server/src/lib.rs:220-235 | for any table, a shadow the mount codec rejects has no segment prefix it accepts |
| Mount.ValidateRelPath | crates/libfw-server/src/lib.rs:484-505 | accepted exactly when there is no NUL, no leading slash and no dot-dot segment, and then its segments are those of the path other than empty and dot, in order |
| Mount.ResolveClientPath | crates/libfw-server/src/lib.rs:171-198 | resolving gives the codec's own answer checked on both sides: the composition tried after a rejection never changes it |
| Mount.ExposedResolves | crates/libfw-server/src/lib.rs:171-203 | under a consistent table, resolving the shadow that a mapped path is exposed as gives that path back, the root shadow resolving to the root |

## Left out

- UploadClient.UploadSession: with torn writes it is about sources that are zero before their last byte; for others `TornWrites.AtomicExactly` says what can happen. The native client's count of wire bytes is not modelled.
- UploadClient.Network.Request: a request that waits for the guard until the client gives up counts as harm, like steps of others on our own session.
- UploadClient.CommitUpload: one method stands for the browser's retried commit and, with no retries, for the native one.
- UploadClient.SendBatch: how many requests are in flight at once is not stated; every interleaving of a batch is covered.
- Download.DownloadBatch: how often the offset is saved is stated for a disk that works; a save that fails is ignored by the code.
- Download.DownloadSequential: offsets saved during a stream of 4 MiB or more are not stated; the code streams less than 512 KiB of what remains, or small files.
- SessionServer.UploadSession: a process that stops between a write and its record is a step of the machine (`Torn`), not an outcome of this method; an abort or a disconnect is one step, and a sweep of the request's temp weakens what its answer means.
- SessionServer.Probe: nothing happens between opening the temp and answering; the handler does not wait there.
- Download.DownloadFile: after a restart on an empty remote over an empty or absent local file, whether the file ends up empty depends on what the first pass had written.
- SessionServer.FsStorage.WriteStreamSession: an unreadable sidecar and file-system errors are not modelled.
- Mount.ResolveClientPath: stops before authorisation.
- Mount.Best: paths are sequences of characters, not UTF-8 bytes; the prefixes compared all begin one path, so the order of their lengths is the same.
- Zip.CreateZip: entries carry their names as UTF-8 bytes; TextEncoder and Blob are not modelled. A count of 65535 and sizes of 4294967295 are read as they are written, without looking for ZIP64 records.
- Crc.Crc32ByTable: 32-bit words are modelled as their bits.
- Tune.TuningEngine.Tick: events to the host, the smoothed throughput figure for display and the compression level are not modelled; writing the persistent cache is not either, and what a cache read returns is any table.
- Frames.RecognisedIsFrame: says nothing of frames with RLE blocks.
- Stale sweep: its walk over directories and its clock; a sweep that removes an old sidecar and keeps a newer temp is not a step of the model.
- HTTP, routing, authorisation, JSON, capabilities, time, symlink checks, fsync and directories.
- The zstd library, SHA-256 and the encrypted path codec.
- The browser's download engine and SDK glue: the range algorithm is the native one's.
- The actix example server, which commits on length alone.
- The in-flight semaphore, pause and cancel, backoff times, header negotiation, transfer plans for display.
