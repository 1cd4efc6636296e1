/**
 * One scan job on the client side of clamd (ClamWorker.Process): open the
 * file, write the INSTREAM command, stream the file as data frames read
 * through a 2048-byte buffer, write the terminator, read one reply line and
 * classify it. Every failure ends the job with ClamERR.
 */
module Worker {
  import opened Wrappers
  import opened Wire

  /** The verdict a worker delivers for one submission. */
  datatype ClamResult = ClamOK | ClamFOUND | ClamERR

  /**
   * The verdict a reply line carries: a detection marker wins over an error
   * marker, and a line with neither means the file is clean.
   */
  function Classify(line: string): (r: ClamResult)
    ensures r == ClamFOUND <==> Occurs("FOUND", line)
    ensures r == ClamERR <==> !Occurs("FOUND", line) && Occurs("ERROR", line)
    ensures r == ClamOK <==> !Occurs("FOUND", line) && !Occurs("ERROR", line)
  {
    if Contains(line, "FOUND") then ClamFOUND
    else if Contains(line, "ERROR") then ClamERR
    else ClamOK
  }

  /** The verdict for the outcome of reading the reply: no complete line is an error. */
  function Verdict(line: Option<string>): ClamResult
  {
    match line
    case None => ClamERR
    case Some(l) => Classify(l)
  }

  /** How the reads of a file end once its chunks are exhausted. */
  datatype Ending = AtEof | ReadError

  /** What a read reported. */
  datatype ReadStatus = ReadOk | ReadEof | ReadFailed

  /** The successive read results of an opened file, and how they end. */
  datatype FileContents = FileContents(chunks: seq<seq<byte>>, ending: Ending)

  /**
   * An opened file. Each read fills the front of the caller's buffer with the
   * next chunk (possibly empty); after the last chunk a read reports end of
   * file or an error, as `ending` says.
   */
  class File {
    const chunks: seq<seq<byte>>
    const ending: Ending
    var pos: nat

    ghost predicate Valid()
      reads this
    {
      ChunksFit(chunks) && pos <= |chunks|
    }

    function Contents(): FileContents
    {
      FileContents(chunks, ending)
    }

    constructor (chunks: seq<seq<byte>>, ending: Ending)
      requires ChunksFit(chunks)
      ensures Valid() && pos == 0
      ensures this.chunks == chunks && this.ending == ending
    {
      this.chunks := chunks;
      this.ending := ending;
      pos := 0;
    }

    method Read(buffer: array<byte>) returns (n: nat, status: ReadStatus)
      requires Valid() && buffer.Length == ChunkSize
      modifies this`pos, buffer
      ensures Valid()
      ensures old(pos) < |chunks| ==>
        status == ReadOk && pos == old(pos) + 1 &&
        n == |chunks[old(pos)]| && buffer[..n] == chunks[old(pos)]
      ensures old(pos) == |chunks| ==>
        n == 0 && pos == old(pos) &&
        status == (if ending == AtEof then ReadEof else ReadFailed)
    {
      if pos == |chunks| {
        n := 0;
        status := if ending == AtEof then ReadEof else ReadFailed;
        return;
      }
      var c := chunks[pos];
      forall i | 0 <= i < |c| {
        buffer[i] := c[i];
      }
      n, status := |c|, ReadOk;
      pos := pos + 1;
    }
  }

  /**
   * A connection to the daemon: what has been written so far, how many Write
   * calls were made, how many more writes the peer accepts, and the reply it
   * sends back. A failed dial (whose error Process ignores) leaves a
   * connection that accepts no write.
   */
  class Connection {
    var sent: seq<byte>
    var calls: nat
    var writesLeft: nat
    const incoming: string

    constructor (writesLeft: nat, incoming: string)
      ensures sent == [] && calls == 0 && this.writesLeft == writesLeft && this.incoming == incoming
    {
      sent := [];
      calls := 0;
      this.writesLeft := writesLeft;
      this.incoming := incoming;
    }

    /**
     * One Write call: all of `data` goes out, or the call fails and nothing
     * does. Every call is counted, so a caller that keeps writing after a
     * failure shows in `calls` even though those writes carry nothing.
     */
    method Write(data: seq<byte>) returns (ok: bool)
      modifies this
      ensures ok == (old(writesLeft) > 0)
      ensures sent == if ok then old(sent) + data else old(sent)
      ensures calls == old(calls) + 1
      ensures writesLeft == if ok then old(writesLeft) - 1 else 0
    {
      ok := writesLeft > 0;
      calls := calls + 1;
      if ok {
        sent := sent + data;
        writesLeft := writesLeft - 1;
      } else {
        writesLeft := 0;
      }
    }

    /** Read the reply up to and including its first newline. */
    method ReadString() returns (line: Option<string>)
      ensures line == ReadLine(incoming)
    {
      line := ReadLine(incoming);
    }
  }

  /**
   * What a session wrote to the daemon, how many Write calls it made (failed
   * ones included) and the verdict it delivered.
   */
  datatype Outcome = Outcome(sent: seq<byte>, calls: nat, result: ClamResult)

  /**
   * The rest of a session once the command line is out and `i` reads are
   * done, with `k` more writes accepted by the peer. A failed length or data
   * write, or a read error, ends it with ClamERR; at end of file the
   * terminator write is made (its failure ignored) and the verdict of the
   * reply, `reply`, decides.
   */
  function Transfer(chunks: seq<seq<byte>>, i: nat, ending: Ending, k: nat, reply: ClamResult): Outcome
    requires ChunksFit(chunks) && i <= |chunks|
    decreases |chunks| - i
  {
    if i == |chunks| then
      if ending == ReadError then Outcome([], 0, ClamERR)
      else Outcome(if k > 0 then Terminator else [], 1, reply)
    else if chunks[i] == [] then Transfer(chunks, i + 1, ending, k, reply)
    else if k == 0 then Outcome([], 1, ClamERR)
    else if k == 1 then Outcome(BigEndian32(|chunks[i]|), 2, ClamERR)
    else
      var after := Transfer(chunks, i + 1, ending, k - 2, reply);
      Outcome(DataFrame(chunks[i]) + after.sent, 2 + after.calls, after.result)
  }

  /**
   * A whole session: `file` is None when the file cannot be opened, `k` is
   * the number of writes the connection accepts, `incoming` the daemon's reply.
   */
  function Session(file: Option<FileContents>, k: nat, incoming: string): Outcome
    requires file.Some? ==> ChunksFit(file.value.chunks)
  {
    match file
    case None => Outcome([], 0, ClamERR)
    case Some(f) =>
      if k == 0 then Outcome([], 1, ClamERR)
      else
        var after := Transfer(f.chunks, 0, f.ending, k - 1, Verdict(ReadLine(incoming)));
        Outcome(Command + after.sent, 1 + after.calls, after.result)
  }

  /** The number of writes the data frames from the `i`-th read on take: a length and a payload per non-empty read. */
  function DataWritesFrom(chunks: seq<seq<byte>>, i: nat): nat
    requires i <= |chunks|
  {
    2 * |NonEmptyFrom(chunks, i)|
  }

  /** The number of writes the data frames of a file take. */
  function DataWrites(chunks: seq<seq<byte>>): nat
  {
    DataWritesFrom(chunks, 0)
  }

  /** One read further into the file: what it adds to the write count. */
  lemma WritesStep(chunks: seq<seq<byte>>, i: nat)
    requires i < |chunks|
    ensures DataWritesFrom(chunks, i) == (if chunks[i] == [] then 0 else 2) + DataWritesFrom(chunks, i + 1)
  {
  }

  /**
   * The rest of a session ends with the reply's verdict exactly when the
   * file reaches end of file and every length and data write is accepted.
   */
  lemma {:induction false} TransferResult(chunks: seq<seq<byte>>, i: nat, ending: Ending, k: nat, reply: ClamResult)
    requires ChunksFit(chunks) && i <= |chunks|
    ensures Transfer(chunks, i, ending, k, reply).result ==
      if ending == AtEof && k >= DataWritesFrom(chunks, i) then reply else ClamERR
    decreases |chunks| - i
  {
    if i < |chunks| {
      WritesStep(chunks, i);
      if chunks[i] == [] {
        TransferResult(chunks, i + 1, ending, k, reply);
      } else if k >= 2 {
        TransferResult(chunks, i + 1, ending, k - 2, reply);
      }
    }
  }

  /**
   * The rest of a session writes a prefix of the remaining frames and the
   * terminator (of the frames alone after a read error): a failed write
   * adds nothing and nothing is written after it.
   */
  lemma TransferPrefix(chunks: seq<seq<byte>>, i: nat, ending: Ending, k: nat, reply: ClamResult)
    requires ChunksFit(chunks) && i <= |chunks|
    ensures Transfer(chunks, i, ending, k, reply).sent <= FramesFrom(chunks, i) + (if ending == AtEof then Terminator else [])
  {
    var w := WritesFrom(chunks, i, ending);
    TransferWrites(chunks, i, ending, k, reply);
    WritesFromImage(chunks, i, ending);
    ConcatPrefix(w, Min(k, |w|));
  }

  /**
   * When the file reaches end of file and every data write is accepted, the
   * rest of a session writes all the frames, then the terminator if the peer
   * still accepts a write.
   */
  lemma TransferComplete(chunks: seq<seq<byte>>, i: nat, k: nat, reply: ClamResult)
    requires ChunksFit(chunks) && i <= |chunks|
    requires k >= DataWritesFrom(chunks, i)
    ensures Transfer(chunks, i, AtEof, k, reply).sent ==
      FramesFrom(chunks, i) + (if k > DataWritesFrom(chunks, i) then Terminator else [])
  {
    var w := WritesFrom(chunks, i, AtEof);
    TransferWrites(chunks, i, AtEof, k, reply);
    WritesFromImage(chunks, i, AtEof);
    if k == DataWritesFrom(chunks, i) {
      FrameWritesCarryFrames(chunks, i);
      assert w[..k] == FrameWritesFrom(chunks, i);
    } else {
      assert w[..|w|] == w;
    }
  }

  /** The first `k` pieces carry a prefix of the bytes of all of them. */
  lemma ConcatPrefix(d: seq<seq<byte>>, k: nat)
    requires k <= |d|
    ensures Concat(d[..k]) <= Concat(d)
  {
    assert d == d[..k] + d[k..];
    ConcatAppend(d[..k], d[k..]);
  }

  lemma StrictPrefixExtend(a: seq<byte>, b: seq<byte>, c: seq<byte>)
    requires b < c
    ensures a + b < a + c
  {
    PrefixExtend(a, b, c);
  }

  lemma PrefixExtend(a: seq<byte>, b: seq<byte>, c: seq<byte>)
    requires b <= c
    ensures a + b <= a + c
  {
    assert (a + c)[..|a + b|] == a + c[..|b|];
  }

  /** The length and payload writes of the data frames from the `i`-th read on, in order. */
  function FrameWritesFrom(chunks: seq<seq<byte>>, i: nat): seq<seq<byte>>
    requires ChunksFit(chunks) && i <= |chunks|
    decreases |chunks| - i
  {
    if i == |chunks| then []
    else (if chunks[i] == [] then [] else [BigEndian32(|chunks[i]|), chunks[i]]) + FrameWritesFrom(chunks, i + 1)
  }

  /** The writes the rest of a session makes when every one succeeds: its frames, then the terminator at end of file. */
  function WritesFrom(chunks: seq<seq<byte>>, i: nat, ending: Ending): seq<seq<byte>>
    requires ChunksFit(chunks) && i <= |chunks|
  {
    FrameWritesFrom(chunks, i) + (if ending == AtEof then [Terminator] else [])
  }

  /** Every write a session on an opened file makes when every one succeeds: the command line first. */
  function SessionWrites(f: FileContents): seq<seq<byte>>
    requires ChunksFit(f.chunks)
  {
    [Command] + WritesFrom(f.chunks, 0, f.ending)
  }

  /** The smaller of two counts. */
  function Min(a: nat, b: nat): nat
  {
    if a < b then a else b
  }

  /**
   * The frame writes are two per non-empty read, none of them empty, and
   * together they carry exactly the frames.
   */
  lemma FrameWritesCarryFrames(chunks: seq<seq<byte>>, i: nat)
    requires ChunksFit(chunks) && i <= |chunks|
    ensures |FrameWritesFrom(chunks, i)| == DataWritesFrom(chunks, i)
    ensures forall j :: 0 <= j < |FrameWritesFrom(chunks, i)| ==> FrameWritesFrom(chunks, i)[j] != []
    ensures Concat(FrameWritesFrom(chunks, i)) == FramesFrom(chunks, i)
  {
    FrameWritesCount(chunks, i);
    FrameWritesNonEmpty(chunks, i);
    FrameWritesConcat(chunks, i);
  }

  lemma {:induction false} FrameWritesCount(chunks: seq<seq<byte>>, i: nat)
    requires ChunksFit(chunks) && i <= |chunks|
    ensures |FrameWritesFrom(chunks, i)| == DataWritesFrom(chunks, i)
    decreases |chunks| - i
  {
    if i < |chunks| {
      FrameWritesCount(chunks, i + 1);
      FrameWritesStep(chunks, i);
      WritesStep(chunks, i);
    }
  }

  lemma FrameWritesStep(chunks: seq<seq<byte>>, i: nat)
    requires ChunksFit(chunks) && i < |chunks|
    ensures |FrameWritesFrom(chunks, i)| == (if chunks[i] == [] then 0 else 2) + |FrameWritesFrom(chunks, i + 1)|
  {
  }

  lemma {:induction false} FrameWritesNonEmpty(chunks: seq<seq<byte>>, i: nat)
    requires ChunksFit(chunks) && i <= |chunks|
    ensures forall j :: 0 <= j < |FrameWritesFrom(chunks, i)| ==> FrameWritesFrom(chunks, i)[j] != []
    decreases |chunks| - i
  {
    if i < |chunks| {
      FrameWritesNonEmpty(chunks, i + 1);
    }
  }

  lemma {:induction false} FrameWritesConcat(chunks: seq<seq<byte>>, i: nat)
    requires ChunksFit(chunks) && i <= |chunks|
    ensures Concat(FrameWritesFrom(chunks, i)) == FramesFrom(chunks, i)
    decreases |chunks| - i
  {
    if i < |chunks| {
      FrameWritesConcat(chunks, i + 1);
      ConcatStep(chunks, i);
    }
  }

  lemma ConcatStep(chunks: seq<seq<byte>>, i: nat)
    requires ChunksFit(chunks) && i < |chunks|
    requires Concat(FrameWritesFrom(chunks, i + 1)) == FramesFrom(chunks, i + 1)
    ensures Concat(FrameWritesFrom(chunks, i)) == FramesFrom(chunks, i)
  {
    var c := chunks[i];
    var rest := FrameWritesFrom(chunks, i + 1);
    if c == [] {
      assert FrameWritesFrom(chunks, i) == rest;
      assert FramesFrom(chunks, i) == [] + FramesFrom(chunks, i + 1);
    } else {
      assert FrameWritesFrom(chunks, i) == [BigEndian32(|c|), c] + rest;
      assert FramesFrom(chunks, i) == DataFrame(c) + FramesFrom(chunks, i + 1);
      ConcatPair(BigEndian32(|c|), c, rest);
    }
  }

  lemma ConcatPair(a: seq<byte>, b: seq<byte>, rest: seq<seq<byte>>)
    ensures Concat([a, b] + rest) == a + b + Concat(rest)
  {
    assert ([a, b] + rest)[1..] == [b] + rest;
    assert ([b] + rest)[1..] == rest;
  }

  /**
   * Exactly what the rest of a session writes and how many Write calls it
   * makes, `w` being the writes it makes when all succeed: the first `k`
   * writes go out, and when the peer refuses one the call is made and
   * nothing follows it (a failed terminator write being the last anyway).
   */
  lemma {:induction false} TransferWrites(chunks: seq<seq<byte>>, i: nat, ending: Ending, k: nat, reply: ClamResult)
    requires ChunksFit(chunks) && i <= |chunks|
    ensures var w := WritesFrom(chunks, i, ending);
      var t := Transfer(chunks, i, ending, k, reply);
      t.sent == Concat(w[..Min(k, |w|)]) && t.calls == Min(k + 1, |w|)
    decreases |chunks| - i
  {
    if i == |chunks| {
      WritesEnd(chunks, ending, k, reply);
    } else if chunks[i] == [] {
      TransferWrites(chunks, i + 1, ending, k, reply);
      WritesSkip(chunks, i, ending, k, reply);
    } else if k < 2 {
      WritesFirst(chunks, i, ending, k, reply);
    } else {
      TransferWrites(chunks, i + 1, ending, k - 2, reply);
      WritesFrame(chunks, i, ending, k, reply);
    }
  }

  lemma WritesEnd(chunks: seq<seq<byte>>, ending: Ending, k: nat, reply: ClamResult)
    requires ChunksFit(chunks)
    ensures var w := WritesFrom(chunks, |chunks|, ending);
      var t := Transfer(chunks, |chunks|, ending, k, reply);
      t.sent == Concat(w[..Min(k, |w|)]) && t.calls == Min(k + 1, |w|)
  {
    if ending == AtEof && k > 0 {
      assert WritesFrom(chunks, |chunks|, ending)[..1] == [Terminator];
    }
  }

  lemma WritesSkip(chunks: seq<seq<byte>>, i: nat, ending: Ending, k: nat, reply: ClamResult)
    requires ChunksFit(chunks) && i < |chunks| && chunks[i] == []
    requires var w := WritesFrom(chunks, i + 1, ending);
      var t := Transfer(chunks, i + 1, ending, k, reply);
      t.sent == Concat(w[..Min(k, |w|)]) && t.calls == Min(k + 1, |w|)
    ensures var w := WritesFrom(chunks, i, ending);
      var t := Transfer(chunks, i, ending, k, reply);
      t.sent == Concat(w[..Min(k, |w|)]) && t.calls == Min(k + 1, |w|)
  {
    assert WritesFrom(chunks, i, ending) == WritesFrom(chunks, i + 1, ending);
  }

  lemma WritesFirst(chunks: seq<seq<byte>>, i: nat, ending: Ending, k: nat, reply: ClamResult)
    requires ChunksFit(chunks) && i < |chunks| && chunks[i] != [] && k < 2
    ensures var w := WritesFrom(chunks, i, ending);
      var t := Transfer(chunks, i, ending, k, reply);
      t.sent == Concat(w[..Min(k, |w|)]) && t.calls == Min(k + 1, |w|)
  {
    var w := WritesFrom(chunks, i, ending);
    assert w == [BigEndian32(|chunks[i]|), chunks[i]] + WritesFrom(chunks, i + 1, ending);
    if k == 1 {
      assert w[..1] == [BigEndian32(|chunks[i]|)];
    }
  }

  lemma WritesFrame(chunks: seq<seq<byte>>, i: nat, ending: Ending, k: nat, reply: ClamResult)
    requires ChunksFit(chunks) && i < |chunks| && chunks[i] != [] && k >= 2
    requires var w := WritesFrom(chunks, i + 1, ending);
      var t := Transfer(chunks, i + 1, ending, k - 2, reply);
      t.sent == Concat(w[..Min(k - 2, |w|)]) && t.calls == Min(k - 1, |w|)
    ensures var w := WritesFrom(chunks, i, ending);
      var t := Transfer(chunks, i, ending, k, reply);
      t.sent == Concat(w[..Min(k, |w|)]) && t.calls == Min(k + 1, |w|)
  {
    var c := chunks[i];
    var rest := WritesFrom(chunks, i + 1, ending);
    var w := WritesFrom(chunks, i, ending);
    assert w == [BigEndian32(|c|), c] + rest;
    assert w[..Min(k, |w|)] == [BigEndian32(|c|), c] + rest[..Min(k - 2, |rest|)];
    ConcatPair(BigEndian32(|c|), c, rest[..Min(k - 2, |rest|)]);
  }

  /**
   * A refused length or data write ends the rest of a session short of its
   * frames: what went out is exactly the writes accepted before it, a strict
   * prefix of the frames, and no later frame or terminator follows.
   */
  lemma TransferStopsShort(chunks: seq<seq<byte>>, i: nat, ending: Ending, k: nat, reply: ClamResult)
    requires ChunksFit(chunks) && i <= |chunks| && k < DataWritesFrom(chunks, i)
    ensures var t := Transfer(chunks, i, ending, k, reply);
      |FrameWritesFrom(chunks, i)| == DataWritesFrom(chunks, i) &&
      t.sent == Concat(FrameWritesFrom(chunks, i)[..k]) && t.sent < FramesFrom(chunks, i) &&
      t.calls == k + 1 && t.result == ClamERR
  {
    var d := FrameWritesFrom(chunks, i);
    TransferWrites(chunks, i, ending, k, reply);
    TransferResult(chunks, i, ending, k, reply);
    FrameWritesCarryFrames(chunks, i);
    assert WritesFrom(chunks, i, ending)[..k] == d[..k];
    ConcatStopsShort(d, k);
  }

  /** When no piece is empty, the first `k` of them carry strictly fewer bytes than all of them. */
  lemma ConcatStopsShort(d: seq<seq<byte>>, k: nat)
    requires k < |d| && forall j :: 0 <= j < |d| ==> d[j] != []
    ensures Concat(d[..k]) < Concat(d)
  {
    assert d == d[..k] + d[k..];
    ConcatAppend(d[..k], d[k..]);
    assert Concat(d[k..]) == d[k] + Concat(d[k + 1..]) by {
      assert d[k..][1..] == d[k + 1..];
    }
  }

  /**
   * Every write a session makes when all succeed: at end of file they carry
   * the whole INSTREAM image, after a read error the command line and the
   * frames only.
   */
  lemma SessionWritesImage(f: FileContents)
    requires ChunksFit(f.chunks)
    ensures |SessionWrites(f)| == 1 + DataWrites(f.chunks) + (if f.ending == AtEof then 1 else 0)
    ensures Concat(SessionWrites(f)) ==
      if f.ending == AtEof then WireImage(f.chunks) else Command + Frames(f.chunks)
  {
    WritesFromImage(f.chunks, 0, f.ending);
    assert SessionWrites(f)[1..] == WritesFrom(f.chunks, 0, f.ending);
  }

  /**
   * The writes the rest of a session makes when all succeed: its data writes
   * first, then the terminator at end of file, carrying the frames and the
   * terminator.
   */
  lemma WritesFromImage(chunks: seq<seq<byte>>, i: nat, ending: Ending)
    requires ChunksFit(chunks) && i <= |chunks|
    ensures |WritesFrom(chunks, i, ending)| == DataWritesFrom(chunks, i) + (if ending == AtEof then 1 else 0)
    ensures Concat(WritesFrom(chunks, i, ending)) == FramesFrom(chunks, i) + (if ending == AtEof then Terminator else [])
  {
    var d := FrameWritesFrom(chunks, i);
    var tail := if ending == AtEof then [Terminator] else [];
    FrameWritesCarryFrames(chunks, i);
    ConcatAppend(d, tail);
    assert Concat(tail) == if ending == AtEof then Terminator else [] by {
      if ending == AtEof {
        assert tail[1..] == [];
      }
    }
  }

  /**
   * Exactly what a whole session writes and how many Write calls it makes:
   * none when the file does not open; otherwise the first `k` of its writes
   * go out, and the first refused one is the last call it makes.
   */
  lemma SessionWritesExact(file: Option<FileContents>, k: nat, incoming: string)
    requires file.Some? ==> ChunksFit(file.value.chunks)
    ensures var s := Session(file, k, incoming);
      match file
      case None => s.sent == [] && s.calls == 0
      case Some(f) =>
        var w := SessionWrites(f);
        s.sent == Concat(w[..Min(k, |w|)]) && s.calls == Min(k + 1, |w|)
  {
    if file.Some? {
      var f := file.value;
      var w := SessionWrites(f);
      var rest := WritesFrom(f.chunks, 0, f.ending);
      if k > 0 {
        TransferWrites(f.chunks, 0, f.ending, k - 1, Verdict(ReadLine(incoming)));
        assert w[..Min(k, |w|)] == [Command] + rest[..Min(k - 1, |rest|)];
      } else {
        assert w[..0] == [];
      }
    }
  }

  /**
   * The verdict of a session: the reply's classification when the file opens,
   * reads to end of file and the command, length and data writes are all
   * accepted (a failed terminator write does not matter); ClamERR otherwise.
   */
  lemma SessionResult(file: Option<FileContents>, k: nat, incoming: string)
    requires file.Some? ==> ChunksFit(file.value.chunks)
    ensures Session(file, k, incoming).result ==
      if file.Some? && file.value.ending == AtEof && k >= 1 + DataWrites(file.value.chunks)
      then Verdict(ReadLine(incoming)) else ClamERR
  {
    if file.Some? && k > 0 {
      var f := file.value;
      TransferResult(f.chunks, 0, f.ending, k - 1, Verdict(ReadLine(incoming)));
    }
  }

  /**
   * What a session writes: nothing when the file does not open or the
   * command write fails; otherwise a prefix of the complete INSTREAM image,
   * starting with the command line, that stops short of the terminator after
   * a read error, that stops strictly inside the frames when a length or data
   * write is refused, and that is the whole image (less the terminator when
   * only that write fails) when the file reaches end of file and the writes
   * succeed.
   */
  lemma SessionSent(file: Option<FileContents>, k: nat, incoming: string)
    requires file.Some? ==> ChunksFit(file.value.chunks)
    ensures var s := Session(file, k, incoming);
      (file.None? || k == 0 ==> s.sent == []) &&
      (file.Some? && k > 0 ==> Command <= s.sent) &&
      (file.Some? ==> s.sent <= WireImage(file.value.chunks)) &&
      (file.Some? && file.value.ending == ReadError ==> s.sent <= Command + Frames(file.value.chunks)) &&
      (file.Some? && k < 1 + DataWrites(file.value.chunks) ==> s.sent < Command + Frames(file.value.chunks)) &&
      (file.Some? && file.value.ending == AtEof && k >= 1 + DataWrites(file.value.chunks) ==>
        s.sent == Command + Frames(file.value.chunks) +
          (if k >= 2 + DataWrites(file.value.chunks) then Terminator else []))
  {
    if file.Some? {
      SentPrefix(file.value, k, incoming);
      if k < 1 + DataWrites(file.value.chunks) {
        SentShort(file.value, k, incoming);
      }
      if file.value.ending == AtEof && k >= 1 + DataWrites(file.value.chunks) {
        SentComplete(file.value, k, incoming);
      }
    }
  }

  lemma SentPrefix(f: FileContents, k: nat, incoming: string)
    requires ChunksFit(f.chunks)
    ensures var s := Session(Some(f), k, incoming);
      (k == 0 ==> s.sent == []) &&
      (k > 0 ==> Command <= s.sent) &&
      s.sent <= WireImage(f.chunks) &&
      (f.ending == ReadError ==> s.sent <= Command + Frames(f.chunks))
  {
    if k > 0 {
      var t := Transfer(f.chunks, 0, f.ending, k - 1, Verdict(ReadLine(incoming)));
      TransferPrefix(f.chunks, 0, f.ending, k - 1, Verdict(ReadLine(incoming)));
      assert Command + (Frames(f.chunks) + Terminator) == WireImage(f.chunks);
      PrefixExtend(Command, t.sent, Frames(f.chunks) + (if f.ending == AtEof then Terminator else []));
    }
  }

  lemma SentShort(f: FileContents, k: nat, incoming: string)
    requires ChunksFit(f.chunks) && k < 1 + DataWrites(f.chunks)
    ensures Session(Some(f), k, incoming).sent < Command + Frames(f.chunks)
  {
    if k > 0 {
      var t := Transfer(f.chunks, 0, f.ending, k - 1, Verdict(ReadLine(incoming)));
      TransferStopsShort(f.chunks, 0, f.ending, k - 1, Verdict(ReadLine(incoming)));
      StrictPrefixExtend(Command, t.sent, Frames(f.chunks));
    }
  }

  lemma SentComplete(f: FileContents, k: nat, incoming: string)
    requires ChunksFit(f.chunks) && f.ending == AtEof && k >= 1 + DataWrites(f.chunks)
    ensures Session(Some(f), k, incoming).sent ==
      Command + Frames(f.chunks) + (if k >= 2 + DataWrites(f.chunks) then Terminator else [])
  {
    TransferComplete(f.chunks, 0, k - 1, Verdict(ReadLine(incoming)));
  }

  /**
   * When a session completes, the daemon reads back frames of 1 to
   * ChunkSize bytes whose payloads, in order, are exactly the file's bytes.
   */
  lemma SessionDelivers(file: FileContents, k: nat, incoming: string)
    requires ChunksFit(file.chunks) && file.ending == AtEof
    requires k >= 2 + DataWrites(file.chunks)
    ensures var s := Session(Some(file), k, incoming);
      s.sent == WireImage(file.chunks) &&
      DecodeStream(s.sent) == Some(NonEmpty(file.chunks)) &&
      Concat(NonEmpty(file.chunks)) == Concat(file.chunks) &&
      s.result == Verdict(ReadLine(incoming))
  {
    SessionSent(Some(file), k, incoming);
    SessionResult(Some(file), k, incoming);
    WireImageRoundTrip(file.chunks);
  }

  /**
   * A successful read and its frame's writes: with the bytes they add to the
   * connection, the rest of the session is what it was before the read.
   */
  lemma TransferRead(chunks: seq<seq<byte>>, i: nat, ending: Ending, k: nat, reply: ClamResult,
                     before: seq<byte>, after: seq<byte>)
    requires ChunksFit(chunks) && i < |chunks| && (chunks[i] == [] || k >= 2)
    requires if chunks[i] == [] then after == before else after == before + BigEndian32(|chunks[i]|) + chunks[i]
    ensures var rest := Transfer(chunks, i + 1, ending, if chunks[i] == [] then k else k - 2, reply);
      after + rest.sent == before + Transfer(chunks, i, ending, k, reply).sent &&
      (if chunks[i] == [] then 0 else 2) + rest.calls == Transfer(chunks, i, ending, k, reply).calls &&
      rest.result == Transfer(chunks, i, ending, k, reply).result
  {
    var c := chunks[i];
    var rest := Transfer(chunks, i + 1, ending, if c == [] then k else k - 2, reply);
    if c == [] {
      assert Transfer(chunks, i, ending, k, reply) == rest;
    } else {
      assert Transfer(chunks, i, ending, k, reply).sent == BigEndian32(|c|) + c + rest.sent;
    }
  }

  /** How one pass of the read/write loop ends. */
  datatype Step = Continue | AtEnd | Failed

  /**
   * One pass of the read/write loop of Process: read into `buffer` and, when
   * the read carried bytes, write its length and then its payload. What was
   * written, followed by what the rest of the session still writes, is what
   * the session writes from here on; at end of file nothing is written, and
   * a failed read or write leaves the rest of the session to ClamERR.
   */
  method SendNext(conn: Connection, file: File, buffer: array<byte>, ghost reply: ClamResult) returns (step: Step)
    requires file.Valid() && buffer.Length == ChunkSize
    modifies conn, file, buffer
    ensures file.Valid()
    ensures var whole := Transfer(file.chunks, old(file.pos), file.ending, old(conn.writesLeft), reply);
      match step
      case Continue =>
        old(file.pos) < file.pos &&
        var rest := Transfer(file.chunks, file.pos, file.ending, conn.writesLeft, reply);
        conn.sent + rest.sent == old(conn.sent) + whole.sent &&
        conn.calls + rest.calls == old(conn.calls) + whole.calls && rest.result == whole.result
      case AtEnd =>
        file.pos == old(file.pos) == |file.chunks| && file.ending == AtEof &&
        conn.sent == old(conn.sent) && conn.calls == old(conn.calls) && conn.writesLeft == old(conn.writesLeft)
      case Failed =>
        conn.sent == old(conn.sent) + whole.sent && conn.calls == old(conn.calls) + whole.calls &&
        whole.result == ClamERR
  {
    ghost var before, i, k := conn.sent, file.pos, conn.writesLeft;
    var n, status := file.Read(buffer);
    if status == ReadEof {
      return AtEnd;
    }
    if status == ReadFailed {
      return Failed;
    }
    if n > 0 {
      var ok := conn.Write(BigEndian32(n));
      if !ok {
        return Failed;
      }
      ok := conn.Write(buffer[..n]);
      if !ok {
        return Failed;
      }
    }
    TransferRead(file.chunks, i, file.ending, k, reply, before, conn.sent);
    step := Continue;
  }

  /**
   * The read/write loop of Process: read the file through `buffer` and send a
   * data frame for each non-empty read, until end of file (`eof`) or until a
   * read or a write fails (not `eof`, and the rest of the session is ClamERR).
   * In both cases what was written, followed by what the rest of the session
   * still writes, is what the session writes from here on.
   */
  method StreamChunks(conn: Connection, file: File, buffer: array<byte>, ghost reply: ClamResult) returns (eof: bool)
    requires file.Valid() && buffer.Length == ChunkSize
    modifies conn, file, buffer
    ensures file.Valid()
    ensures var whole := Transfer(file.chunks, old(file.pos), file.ending, old(conn.writesLeft), reply);
      if eof then
        file.pos == |file.chunks| && file.ending == AtEof &&
        conn.sent + Transfer(file.chunks, file.pos, AtEof, conn.writesLeft, reply).sent
          == old(conn.sent) + whole.sent &&
        conn.calls + 1 == old(conn.calls) + whole.calls &&
        whole.result == reply
      else
        conn.sent == old(conn.sent) + whole.sent && conn.calls == old(conn.calls) + whole.calls &&
        whole.result == ClamERR
  {
    ghost var whole := Transfer(file.chunks, file.pos, file.ending, conn.writesLeft, reply);
    while true
      invariant file.Valid()
      invariant var rest := Transfer(file.chunks, file.pos, file.ending, conn.writesLeft, reply);
        conn.sent + rest.sent == old(conn.sent) + whole.sent &&
        conn.calls + rest.calls == old(conn.calls) + whole.calls && rest.result == whole.result
      decreases |file.chunks| - file.pos
    {
      var step := SendNext(conn, file, buffer, reply);
      if step == AtEnd {
        return true;
      }
      if step == Failed {
        return false;
      }
    }
  }

  /**
   * Process a submission: `file` is null when opening it failed. The bytes
   * written to `conn` and the verdict delivered are those of Session; the
   * single out-parameter is the single value sent on the result channel.
   */
  method Process(conn: Connection, file: File?) returns (r: ClamResult)
    requires file != null ==> file.Valid() && file.pos == 0
    modifies conn, file
    ensures var s := Session(if file == null then None else Some(file.Contents()), old(conn.writesLeft), conn.incoming);
      conn.sent == old(conn.sent) + s.sent && conn.calls == old(conn.calls) + s.calls && r == s.result
  {
    if file == null {
      return ClamERR;
    }
    var buffer := new byte[ChunkSize](_ => 0);
    ghost var reply := Verdict(ReadLine(conn.incoming));
    ghost var start := conn.sent;
    var ok := conn.Write(Command);
    if !ok {
      return ClamERR;
    }
    ghost var whole := Transfer(file.chunks, 0, file.ending, conn.writesLeft, reply);
    assert conn.sent == start + Command;
    var eof := StreamChunks(conn, file, buffer, reply);
    if !eof {
      assert conn.sent == start + (Command + whole.sent);
      return ClamERR;
    }
    ghost var k := conn.writesLeft;
    assert conn.sent + (if k > 0 then Terminator else []) == start + (Command + whole.sent);
    ok := conn.Write(Terminator);
    var line := conn.ReadString();
    if line.None? {
      return ClamERR;
    }
    r := Classify(line.value);
  }
}
