# glamscan core in Dafny

glamscan watches a directory tree for malware. It walks the tree over and
over. Each file it has not yet seen clean is streamed to a clamd daemon
with clamd's `INSTREAM` command, and each verdict updates two bolt
buckets. The `files` bucket maps a path to the modification time at its
last clean scan. The `viruses` bucket maps a path to the MD5 digest of an
infected file. Infected files are deleted.

This project models two sequential pieces of that program and proves
properties about them.

- **`wire.dfy`, module `Wire`.** The bytes of an `INSTREAM` session:
  - the command line `nINSTREAM\n`;
  - one data frame per non-empty read of the 2048-byte buffer, each a
    4-byte big-endian length followed by the payload;
  - the zero-length terminator.

  It also has the reader a daemon applies to those bytes (`DecodeStream`),
  and the two text operations the client applies to the reply:
  `ReadString('\n')` and `strings.Contains`. The round trip is proved:
  decoding a complete session gives back frames of 1 to 2048 bytes whose
  payloads, concatenated, are the file's bytes.
- **`worker.dfy`, module `Worker`.** `ClamWorker.Process`, as imperative
  code:
  - the opened file is a class whose `Read` fills the caller's buffer;
  - the connection is a class that accumulates the bytes written, counts
    every `Write` call (failed ones included) and accepts a given number
    of them;
  - the read/write loop fills a 2048-byte `array`.

  `Process` is proved against the function `Session`. `Session` gives the
  bytes a job writes, the number of `Write` calls it makes and the verdict
  it delivers, for every pattern of failures: open error, failed command
  write, read error, failed length or data write, failed terminator write
  (ignored), and no reply line. Lemmas about `Session` compare it with an
  independent list of the writes a session makes (`SessionWrites`): the
  first writes the peer accepts go out, the first refused one is the last
  call, and the verdict follows from how far the session got.
- **`scanner.dfy`, module `Scanner`.** One cycle of `ClamScanner.Start`:
  - the walk callback's decision (`Decide`) and the walk over a sequence of
    entries (`Traverse`);
  - the verdict waiter's effect on the buckets and the disk (`Apply`);
  - the class `ClamScanner`, holding the two buckets, the set of paths on
    disk, the four counters, the jobs submitted this cycle and the
    wait-group count.

  Lemmas cover:
  - dedup idempotence;
  - invalidation on change;
  - the size ceiling taking precedence over the quit flag;
  - abort on the quit flag;
  - retry of errored files;
  - rescan of recreated infected files;
  - each path submitted at most once per walk.

Where the code and the documented intent of the system differ, the model
follows the code:

- When the walk ends with `END` (scanner.go:152-154), the scanner loop
  returns without `wg.Wait()`, so waiters of that cycle may still be
  running. `Walk` reports the abort and nothing more.
- A FOUND verdict does not remove an older `files` record for the path.
  So a file recreated with the modification time of an earlier clean scan
  is not submitted (`InfectedStaleRecordTrusted`). A file recreated with
  the infected job's own modification time, within the ceiling, is
  submitted again by a walk without the quit flag
  (`InfectedRecreatedRescanned`). Any other in-size file without a matching
  record is submitted by such a walk too (`TraverseSubmitsAllEligible`).
- The error check at scanner.go:83-85 is never reached with an error.
  `filepath.Walk` reports an unreadable directory by passing the
  directory's own info with the error. The callback returns nil for it at
  scanner.go:75-76, so the directory's contents are skipped silently and
  the walk goes on with its siblings. In the model, such a directory's
  contents are simply absent from the entries. An entry that cannot be
  stat'ed is passed with nil info, and `info.IsDir()` at scanner.go:75
  then panics. That crash is outside the model (see below).

## Model

| member | source | states |
|---|---|---|
| Wire.Ascii | worker.go:212 | The command's bytes are the character codes of its text, one byte per character. |
| Wire.CommandBytes | worker.go:212 | The command line is exactly the ten bytes of `nINSTREAM` and a newline. |
| Wire.Uint32Of | worker.go:230 | Four bytes read big-endian give a value below 2^32. |
| Wire.BigEndian32 | worker.go:230 | `binary.Write` of a uint32 emits four bytes, and reading them back big-endian gives the value written. |
| Wire.DataFrame | worker.go:229-239 | The data frame of one non-empty read, its length (4 + payload) in its contract; its layout and decoding are stated by `DataFrameLayout` and `FrameDecodes`. |
| Wire.DataFrameLayout | worker.go:229-239 | A data frame is a 4-byte length n with 1 <= n <= 2048 that reads back as the payload's length, followed by exactly the payload. |
| Wire.FramesFrom | worker.go:218-241 | The frames of the reads from a point on; its contract says they are empty exactly when no read from there on carried bytes. `FramesRoundTrip` states that they decode back to the non-empty reads. |
| Wire.Frames | worker.go:218-241 | The frames of all reads of a file; its contract says they are empty exactly when the file has no bytes. `WireImageRoundTrip` and `FrameCount` state the round trip and the frame count. |
| Wire.WireImage | worker.go:212-243 | A complete session: command, frames, terminator; its contract gives its length, and `WireImageRoundTrip` states that it decodes to the file's bytes. |
| Wire.TerminatorDecodes | worker.go:243 | The zero-length frame alone decodes as the end of the stream, with no payload. |
| Wire.FrameDecodes | worker.go:229-239 | A data frame followed by any tail decodes as its payload followed by the tail's payloads, and fails exactly when the tail fails. |
| Wire.FramesRoundTrip | worker.go:218-243 | The frames of the reads from any point on, followed by the terminator, decode to exactly the non-empty reads, in order. |
| Wire.NonEmptyConcat | worker.go:229 | Skipping empty reads loses no byte: the non-empty reads concatenate to the same bytes as all reads. |
| Wire.NonEmptyFit | worker.go:201 | Every read that produces a frame has between 1 and 2048 bytes. |
| Wire.WireImageRoundTrip | worker.go:212-243 | A complete session decodes to data frames of 1 to 2048 bytes whose payloads, in order, concatenate to the file's bytes. |
| Wire.EmptyFileNoFrames | worker.go:218-243 | A file with no bytes sends no data frame: the command is followed directly by four zero bytes. |
| Wire.FullReadsSize | worker.go:219 | Full buffer reads ending in a non-empty last read give a file of (reads - 1) * 2048 + last bytes. |
| Wire.FrameCount | worker.go:218-241 | A file of S bytes read through full buffers is sent as ceil(S / 2048) data frames. |
| Wire.ReadLine | worker.go:245-249 | `ReadString('\n')` succeeds exactly when the reply contains a newline, and returns the reply up to and including its first newline. |
| Wire.Contains | worker.go:252-256 | `strings.Contains(s, t)` holds exactly when `t` occurs at some position of `s`. |
| Worker.Verdict | worker.go:245-260 | No reply line is ERR, a line is classified; `Classify` states the classification, and `SessionResult` that this is the job's verdict when the session completes. |
| Worker.Classify | worker.go:252-260 | FOUND exactly when the line contains "FOUND", even alongside "ERROR"; ERR exactly when it contains "ERROR" but not "FOUND"; OK exactly when it contains neither. |
| Worker.File.Read | worker.go:219-227 | A read returns the next chunk in the front of the buffer, then end of file or a read error once the chunks are exhausted. |
| Worker.Connection.Write | worker.go:212 | A write either appends all its bytes and uses one accepted write, or fails, appends nothing and fails every later write; every call, failed or not, is counted. |
| Worker.Connection.ReadString | worker.go:245 | The reply line read is the reply up to its first newline, or none. |
| Worker.Transfer | worker.go:218-243 | The rest of a session after the command: bytes, `Write` calls and verdict. `TransferWrites` states exactly what it writes and calls, `TransferResult` its verdict, `TransferPrefix`, `TransferStopsShort` and `TransferComplete` the shape of what it writes. |
| Worker.Session | worker.go:196-243 | A whole job: bytes, `Write` calls and verdict. `SessionWritesExact`, `SessionSent` and `SessionResult` state its properties, and `Process` is proved to do exactly this. |
| Worker.WritesStep | worker.go:229-240 | A non-empty read costs two writes, its length and its payload; an empty read costs none. |
| Worker.TransferResult | worker.go:218-241 | After the command, the job's verdict is the reply's classification exactly when the file reaches EOF and every length and data write is accepted; otherwise it is ERR. |
| Worker.FrameWritesFrom | worker.go:229-240 | The writes of the frames from a read on, in order: a length and a payload per non-empty read. `FrameWritesCarryFrames` relates them to the frames. |
| Worker.WritesFrom | worker.go:218-243 | The writes the rest of a session makes when all succeed: the frame writes, then the terminator at EOF. `WritesFromImage` states what they carry. |
| Worker.SessionWrites | worker.go:212-243 | Every write of a session on an opened file when all succeed: the command, the frame writes, then the terminator at EOF. `SessionWritesImage` states what they carry. |
| Worker.FrameWritesCarryFrames | worker.go:229-240 | The frame writes are two per non-empty read, none of them is empty, and together they carry exactly the frames. |
| Worker.FrameWritesCount | worker.go:229-240 | There are two frame writes per non-empty read. |
| Worker.FrameWritesNonEmpty | worker.go:229-240 | No frame write is empty: a length has four bytes and a payload at least one. |
| Worker.FrameWritesConcat | worker.go:229-240 | The frame writes, in order, carry exactly the frames. |
| Worker.WritesFromImage | worker.go:218-243 | The writes of the rest of a session are the data writes plus the terminator at EOF, and carry the frames followed by the terminator at EOF. |
| Worker.TransferWrites | worker.go:218-243 | After the command, exactly the first k writes go out when the peer accepts k; a refused length or data write is the last call, so no frame and no terminator follows it; a read error makes no further call; at EOF the terminator write is always attempted. |
| Worker.WritesEnd | worker.go:241-243 | Once the reads are exhausted, only the terminator write is made, at EOF, and no write after a read error. |
| Worker.WritesSkip | worker.go:229 | An empty read makes no write. |
| Worker.WritesFirst | worker.go:230-238 | A refused length write makes one call and sends nothing; a refused payload write makes two calls and sends only the length. |
| Worker.WritesFrame | worker.go:229-240 | An accepted length and payload go out ahead of what the rest of the session writes, with two calls. |
| Worker.TransferStopsShort | worker.go:229-239 | When the peer refuses a length or data write, what went out is exactly the writes accepted before it, a strict prefix of the frames, with one call more than were accepted, and the verdict is ERR. |
| Worker.ConcatStopsShort | worker.go:229-239 | With no empty write, stopping before the last write leaves strictly fewer bytes. |
| Worker.TransferPrefix | worker.go:218-243 | After the command, what is written is a prefix of the remaining frames and the terminator (of the frames alone after a read error). |
| Worker.ConcatPrefix | worker.go:218-243 | The first writes carry a prefix of the bytes of all of them. |
| Worker.PrefixExtend | worker.go:229-239 | Prefixes are kept when the same bytes are written in front of both sequences. |
| Worker.StrictPrefixExtend | worker.go:212 | A strict prefix stays strict when the command is written in front of both sequences. |
| Worker.TransferComplete | worker.go:218-243 | On a file read to end of file whose data writes are all accepted, all frames are written, followed by the terminator exactly when one more write is accepted. |
| Worker.SessionWritesImage | worker.go:212-243 | A session makes 1 + 2 per non-empty read + (1 at EOF) writes when all succeed, and they carry the full session image at EOF, or the command and frames after a read error. |
| Worker.SessionWritesExact | worker.go:196-243 | A job on a file that fails to open makes no call. Otherwise, with the peer accepting k writes, exactly the first k writes of `SessionWrites` go out and the job makes k + 1 calls, or one per write when all of them are accepted. |
| Worker.SessionResult | worker.go:196-262 | A job's verdict is the reply's classification exactly when the file opens, reads to EOF and the command, length and data writes succeed, whatever happens to the terminator write; otherwise it is ERR. |
| Worker.SessionSent | worker.go:196-243 | Nothing is sent when the open or the command write fails. Otherwise the bytes start with the command and are a prefix of the full session image. They stop before the terminator after a read error, stop strictly inside the frames when a length or data write is refused, and are the whole image when every write succeeds. |
| Worker.SentPrefix | worker.go:212-243 | On an opened file, the bytes start with the command once it is accepted and are a prefix of the full session image (of the command and frames after a read error). |
| Worker.SentShort | worker.go:229-239 | On an opened file, a refused command, length or data write leaves a strict prefix of the command and frames. |
| Worker.SentComplete | worker.go:218-243 | On a file read to EOF whose data writes are all accepted, the command and all frames are sent, then the terminator if one more write is accepted. |
| Worker.SessionDelivers | worker.go:212-260 | A job on a file read to end of file whose writes all succeed sends the full image, which decodes back to the file's bytes, and delivers the reply's verdict. |
| Worker.TransferRead | worker.go:219-240 | A successful read and its frame's writes leave the rest of the session unchanged with respect to what is written, the number of calls and the verdict. |
| Worker.SendNext | worker.go:219-240 | One pass of the loop either continues with the rest of the session equal to what was left, stops at EOF having written and called nothing, or fails with the rest of the session's bytes and calls made and ERR. |
| Worker.StreamChunks | worker.go:218-241 | The loop ends at EOF with the frames written and only the terminator call pending, or ends with the session's bytes written, its calls made and ERR. |
| Worker.Process | worker.go:196-262 | The bytes written, the number of `Write` calls made and the one verdict delivered are exactly those of `Session` for the file's reads, the writes the peer accepts and its reply. |
| Scanner.Decide | scanner.go:75-108 | Directories are ignored. A file over the ceiling is skipped whatever the quit flag and record say. The callback aborts exactly on an in-size file while quitting, and submits exactly an in-size file without a matching `files` record while not quitting. |
| Scanner.TraverseFrom | scanner.go:74-108 | The walk from an entry on: jobs, skip count and END. `TraverseSubmitsOnlyEligible`, `TraverseSubmitsAllEligible`, `TraverseCountsEveryFile`, `QuitAborts` and `TraverseDistinct` state its properties. |
| Scanner.Traverse | scanner.go:74-150 | A whole walk; `Walk` is proved to do exactly this. |
| Scanner.TraverseVisit | scanner.go:74-108 | One entry visited without END moves the counters and jobs by what the rest of the walk no longer has to do. |
| Scanner.TraverseSubmitsOnlyEligible | scanner.go:74-108 | A walk submits only in-size regular files whose `files` record differs from their modification time, and submits nothing while the quit flag is set. |
| Scanner.TraverseSubmitsAllEligible | scanner.go:92-108 | A walk without the quit flag never aborts and submits every in-size file without a matching record. |
| Scanner.TraverseCountsEveryFile | scanner.go:78-108 | Without the quit flag, every regular file is counted as skipped or submitted, and directories are neither. |
| Scanner.QuitAborts | scanner.go:78-90 | With the quit flag set, a walk submits nothing and ends with END exactly when it reaches an in-size file; when it reaches none, every regular file is counted as skipped. |
| Scanner.TraverseDistinct | scanner.go:103-108 | A walk that visits each path once submits each path at most once. |
| Scanner.Apply | scanner.go:112-145 | A waiter's effect on the store; its contract says no verdict adds a file to disk and `files` gains at most the job's path. `VerdictEffects` states each verdict's effect key by key. |
| Scanner.VerdictEffects | scanner.go:112-145 | OK writes the observed modification time to `files`. ERR changes nothing. FOUND leaves `files` alone, writes the digest to `viruses` only when hashing succeeds, and removes the file and nothing else. |
| Scanner.CleanFileNotResubmitted | scanner.go:94-105 | After an OK verdict, no later walk submits the same path with the same modification time. |
| Scanner.TouchedFileResubmitted | scanner.go:98-107 | After an OK verdict, a walk without the quit flag that sees that path as a regular file within the ceiling with a different modification time submits it again. |
| Scanner.SubmittedWasUnrecorded | scanner.go:94-107 | A submitted job had no `files` record equal to its modification time when the walk ran. |
| Scanner.ErroredFileRetried | scanner.go:125-128 | After an ERR verdict, a later walk without the quit flag that finds the file unchanged, regular and within the ceiling submits it again. |
| Scanner.InfectedRecreatedRescanned | scanner.go:129-145 | After a FOUND verdict, the file is gone from disk, and a walk without the quit flag that finds it recreated as a regular file within the ceiling with the same modification time submits it again. |
| Scanner.InfectedStaleRecordTrusted | scanner.go:129-145 | FOUND keeps an older `files` record, so a file recreated with the modification time of an earlier clean scan is not submitted by any walk. |
| Scanner.ClamScanner.constructor | scanner.go:45-57 | A new scanner has the given ceiling, buckets and disk, no quit flag, zero counters and nothing submitted. |
| Scanner.ClamScanner.BeginCycle | scanner.go:63-73 | Once the previous cycle's waiters have all run, a cycle starts with zero counters and no submissions, leaving the store and flag alone. |
| Scanner.ClamScanner.RequestStop | scanner.go:182 | Stop sets the quit flag. |
| Scanner.ClamScanner.VisitEntry | scanner.go:74-108 | The callback returns END exactly when `Decide` aborts. It counts exactly the skipped files, and appends exactly the submitted job and one wait-group count. It keeps the store and the verdict counters. |
| Scanner.ClamScanner.Walk | scanner.go:74-150 | The walk adds exactly `Traverse`'s jobs, skip count and wait-group counts, reports its abort, and leaves the store and the verdict counters alone. |
| Scanner.ClamScanner.Clean | scanner.go:187-192 | The path is removed from disk. |
| Scanner.ClamScanner.HandleVerdict | scanner.go:109-147 | A waiter releases one wait-group count, increments exactly the counter of its verdict and changes the store as `Apply` says. |
| Scanner.DrainedCounts | scanner.go:160-168 | Once every waiter has run, the OK, error and virus counters add up to the number of files submitted in the cycle. |

## Left out

- `ScanQueue`, the dispatcher and `ClamWorker.Start`/`Stop` (worker.go:50-148, 171-193) are left out because they are goroutines, channels and wait groups. Each job is modelled as one sequential call, and the single result-channel send is the single out-parameter of `Process`.
- `ClamWorker.Connect` (worker.go:150-169) is left out because it dials the network. Its error is ignored by `Process`, so a failed dial is a `Connection` that accepts no write.
- Short writes are not modelled: a `Write` either sends all its bytes or fails.
- A read that returns data together with an error is not modelled: a failing read returns no bytes.
- Read results are given as data (`File.chunks`), not taken from a real file system.
- The reply is given as a string, with no timeouts or deadlines.
- The disk is a set of paths.
- `md5File` (scanner.go:29-43) is left out because it wraps a crypto library and file I/O. Its result is the `hash` parameter of `HandleVerdict`, with `None` for a hashing failure.
- Bolt transactions are left out. The buckets are two maps, and the errors of `Put` and `View` are not modelled (a `Put` always succeeds).
- A failed `os.Remove` (for example, for lack of permission) is not modelled: `Clean` always removes the path.
- Scanner.ClamScanner.HandleVerdict: waiters run one at a time, in the order the caller chooses, and are not interleaved with each other or with the walk. The removal `go c.Clean(path)` (scanner.go:144) runs in its own goroutine in Go; the model performs it inside `HandleVerdict`, at the same moment as the rest of the waiter. The wait group is a counter, and waiters are not matched to their individual jobs beyond requiring that the job was submitted this cycle.
- `filepath.Walk`'s traversal order and symlink handling are left out. A walk is a given sequence of well-formed entries; an unreadable directory's contents are absent from it. The panic at scanner.go:75 on an entry that cannot be stat'ed (nil `info`) is left out, because a crash of the whole program is outside what the model describes.
- The sleep between cycles, `time.After`, the `quitting` and `done` channels, and the blocking part of `Stop` (scanner.go:170-185) are timing and signalling between goroutines, and are left out.
- Scanner.ClamScanner.Walk: one uninterrupted call with a fixed quit flag; a stop in mid-walk is `RequestStop` between `VisitEntry` calls, not a flag change seen part-way through one callback.
- Logging, elapsed-time measurement and the statistics printout (scanner.go:156-168) are left out; the counters themselves are modelled.
- Worker.Process: the logger calls (worker.go:210-247) and the deferred `w.connection.Close()` and `file.Close()` (worker.go:198, 204) are left out; they change neither the bytes written nor the verdict.
- Counters are unbounded: the uint64 counters cannot wrap in the model, while in Go they would only wrap after 2^64 increments. Sizes are unbounded integers too; they are only compared with the ceiling, never incremented.
- logger.go, system_unix.go, system_windows.go and main.go are not part of this model: they are the logging back ends and the flag, bucket and signal wiring.
