/** Optional values, for results that may be absent. */
module Wrappers {
  datatype Option<+T> = None | Some(value: T)
}

/**
 * The byte-level side of clamd's INSTREAM command: the command line, the
 * length-prefixed data frames, the zero-length terminator, and the reader a
 * daemon would apply to get the file back. Also the two text helpers the
 * client applies to the daemon's reply (reading one line, substring search).
 */
module Wire {
  import opened Wrappers

  /** One octet on the wire. */
  type byte = x: int | 0 <= x < 256

  /** Size of the client's read buffer, hence the largest payload of one data frame. */
  const ChunkSize: nat := 2048

  /** One more than the largest uint32. */
  const Uint32Limit: nat := 0x1_0000_0000

  /** ASCII text as the bytes written to the socket: one byte per character below 128. */
  function Ascii(s: string): (b: seq<byte>)
    requires forall i :: 0 <= i < |s| ==> s[i] as int < 128
    ensures |b| == |s|
    ensures forall i :: 0 <= i < |b| ==> b[i] == s[i] as int
  {
    seq(|s|, i requires 0 <= i < |s| => s[i] as int)
  }

  /** The command line that switches clamd into streaming-input mode. */
  const Command: seq<byte> := Ascii("nINSTREAM\n")

  /** The command line is the ten ASCII codes of "nINSTREAM" and a newline. */
  lemma CommandBytes()
    ensures Command == [110, 73, 78, 83, 84, 82, 69, 65, 77, 10]
  {
  }

  /** The value of four bytes read as a big-endian unsigned 32-bit integer. */
  function Uint32Of(b: seq<byte>): (n: nat)
    requires |b| == 4
    ensures n < Uint32Limit
  {
    ((b[0] as int * 256 + b[1]) * 256 + b[2]) * 256 + b[3]
  }

  /** The four bytes binary.Write emits for a uint32 in big-endian order. */
  function BigEndian32(n: nat): (b: seq<byte>)
    requires n < Uint32Limit
    ensures |b| == 4 && Uint32Of(b) == n
  {
    var m1 := n / 256;
    var m2 := m1 / 256;
    [m2 / 256, m2 % 256, m1 % 256, n % 256]
  }

  /** The zero-length frame that ends the stream. */
  const Terminator: seq<byte> := BigEndian32(0)

  /** Every read result fits the client's buffer. */
  predicate ChunksFit(chunks: seq<seq<byte>>)
  {
    forall i :: 0 <= i < |chunks| ==> |chunks[i]| <= ChunkSize
  }

  /** One data frame: the payload length as a big-endian uint32, then the payload. */
  function DataFrame(payload: seq<byte>): (f: seq<byte>)
    requires 0 < |payload| <= ChunkSize
    ensures |f| == 4 + |payload|
  {
    BigEndian32(|payload|) + payload
  }

  /**
   * A data frame is a 4-byte length n with 1 <= n <= ChunkSize, read back
   * from the prefix, followed by exactly the n payload bytes.
   */
  lemma DataFrameLayout(payload: seq<byte>)
    requires 0 < |payload| <= ChunkSize
    ensures var f := DataFrame(payload);
      |f| == 4 + |payload| && 1 <= Uint32Of(f[..4]) <= ChunkSize &&
      Uint32Of(f[..4]) == |payload| && f[4..] == payload
  {
    var f := DataFrame(payload);
    assert f[..4] == BigEndian32(|payload|);
  }

  /** The data frames for the reads from the `i`-th on; an empty read sends nothing. */
  function FramesFrom(chunks: seq<seq<byte>>, i: nat): (r: seq<byte>)
    requires ChunksFit(chunks) && i <= |chunks|
    ensures r == [] <==> NonEmptyFrom(chunks, i) == []
    decreases |chunks| - i
  {
    if i == |chunks| then []
    else (if chunks[i] == [] then [] else DataFrame(chunks[i])) + FramesFrom(chunks, i + 1)
  }

  /** The data frames for all the reads of a file. */
  function Frames(chunks: seq<seq<byte>>): (r: seq<byte>)
    requires ChunksFit(chunks)
    ensures r == [] <==> NonEmpty(chunks) == []
  {
    FramesFrom(chunks, 0)
  }

  /** Everything a complete INSTREAM session writes to the daemon. */
  function WireImage(chunks: seq<seq<byte>>): (r: seq<byte>)
    requires ChunksFit(chunks)
    ensures |r| == |Command| + |Frames(chunks)| + 4
  {
    Command + Frames(chunks) + Terminator
  }

  /** The bytes of a sequence of read results, in order. */
  function Concat(chunks: seq<seq<byte>>): seq<byte>
  {
    if chunks == [] then [] else chunks[0] + Concat(chunks[1..])
  }

  /** The reads from the `i`-th on that carried at least one byte. */
  function NonEmptyFrom(chunks: seq<seq<byte>>, i: nat): seq<seq<byte>>
    requires i <= |chunks|
    decreases |chunks| - i
  {
    if i == |chunks| then []
    else (if chunks[i] == [] then [] else [chunks[i]]) + NonEmptyFrom(chunks, i + 1)
  }

  /** The reads of a file that carried at least one byte: one data frame each. */
  function NonEmpty(chunks: seq<seq<byte>>): seq<seq<byte>>
  {
    NonEmptyFrom(chunks, 0)
  }

  /**
   * The daemon's reading of a frame sequence: each frame's payload, up to and
   * including the zero-length frame, which must end the input.
   */
  function DecodeFrames(b: seq<byte>): (r: Option<seq<seq<byte>>>)
    ensures r.Some? ==> forall i :: 0 <= i < |r.value| ==> |r.value[i]| > 0
    decreases |b|
  {
    if |b| < 4 then None
    else
      var n := Uint32Of(b[..4]);
      if n == 0 then (if |b| == 4 then Some([]) else None)
      else if |b| < 4 + n then None
      else match DecodeFrames(b[4 + n..])
        case None => None
        case Some(rest) =>
          var payloads := [b[4..4 + n]] + rest;
          assert payloads[0] == b[4..4 + n] && payloads[1..] == rest;
          Some(payloads)
  }

  /** The daemon's reading of a whole session: the command line, then the frames. */
  function DecodeStream(b: seq<byte>): Option<seq<seq<byte>>>
  {
    if |Command| <= |b| && b[..|Command|] == Command then DecodeFrames(b[|Command|..])
    else None
  }

  /** The terminator alone reads as the end of an empty frame sequence. */
  lemma TerminatorDecodes()
    ensures DecodeFrames(Terminator) == Some([])
  {
    assert Terminator[..4] == Terminator;
  }

  /** Reading one data frame gives its payload, then the reading of what follows. */
  lemma FrameDecodes(c: seq<byte>, tail: seq<byte>)
    requires 0 < |c| <= ChunkSize
    ensures DecodeFrames(DataFrame(c) + tail) ==
      match DecodeFrames(tail)
      case None => None
      case Some(rest) => Some([c] + rest)
  {
    var b := DataFrame(c) + tail;
    DataFrameLayout(c);
    assert b[..4] == DataFrame(c)[..4];
    assert b[4..4 + |c|] == c;
    assert b[4 + |c|..] == tail;
  }

  lemma FrameDecodesOnto(c: seq<byte>, tail: seq<byte>, rest: seq<seq<byte>>)
    requires 0 < |c| <= ChunkSize && DecodeFrames(tail) == Some(rest)
    ensures DecodeFrames(DataFrame(c) + tail) == Some([c] + rest)
  {
    FrameDecodes(c, tail);
  }

  lemma {:induction false} FramesRoundTrip(chunks: seq<seq<byte>>, i: nat)
    requires ChunksFit(chunks) && i <= |chunks|
    ensures DecodeFrames(FramesFrom(chunks, i) + Terminator) == Some(NonEmptyFrom(chunks, i))
    decreases |chunks| - i
  {
    if i == |chunks| {
      assert FramesFrom(chunks, i) + Terminator == Terminator;
      TerminatorDecodes();
    } else if chunks[i] == [] {
      FramesRoundTrip(chunks, i + 1);
      assert FramesFrom(chunks, i) == [] + FramesFrom(chunks, i + 1) == FramesFrom(chunks, i + 1);
      assert NonEmptyFrom(chunks, i) == [] + NonEmptyFrom(chunks, i + 1) == NonEmptyFrom(chunks, i + 1);
    } else {
      FramesRoundTrip(chunks, i + 1);
      var tail := FramesFrom(chunks, i + 1) + Terminator;
      assert FramesFrom(chunks, i) + Terminator == DataFrame(chunks[i]) + tail;
      FrameDecodesOnto(chunks[i], tail, NonEmptyFrom(chunks, i + 1));
    }
  }

  lemma {:induction false} ConcatAppend(a: seq<seq<byte>>, b: seq<seq<byte>>)
    ensures Concat(a + b) == Concat(a) + Concat(b)
  {
    if a != [] {
      ConcatAppend(a[1..], b);
      assert (a + b)[1..] == a[1..] + b;
    } else {
      assert a + b == b;
    }
  }

  lemma {:induction false} NonEmptyConcat(chunks: seq<seq<byte>>, i: nat)
    requires i <= |chunks|
    ensures Concat(NonEmptyFrom(chunks, i)) == Concat(chunks[i..])
    decreases |chunks| - i
  {
    if i < |chunks| {
      NonEmptyConcat(chunks, i + 1);
      var head := if chunks[i] == [] then [] else [chunks[i]];
      ConcatAppend(head, NonEmptyFrom(chunks, i + 1));
      assert chunks[i..][1..] == chunks[i + 1..];
    }
  }

  lemma {:induction false} NonEmptyFit(chunks: seq<seq<byte>>, i: nat)
    requires ChunksFit(chunks) && i <= |chunks|
    ensures forall j :: 0 <= j < |NonEmptyFrom(chunks, i)| ==> 1 <= |NonEmptyFrom(chunks, i)[j]| <= ChunkSize
    decreases |chunks| - i
  {
    if i < |chunks| {
      NonEmptyFit(chunks, i + 1);
    }
  }

  /**
   * Round trip: a daemon reading a complete session gets back data frames of
   * 1 to ChunkSize bytes whose payloads, in order, are exactly the file's bytes.
   */
  lemma WireImageRoundTrip(chunks: seq<seq<byte>>)
    requires ChunksFit(chunks)
    ensures DecodeStream(WireImage(chunks)) == Some(NonEmpty(chunks))
    ensures Concat(NonEmpty(chunks)) == Concat(chunks)
    ensures forall j :: 0 <= j < |NonEmpty(chunks)| ==> 1 <= |NonEmpty(chunks)[j]| <= ChunkSize
  {
    var w := WireImage(chunks);
    assert w[..|Command|] == Command;
    assert w[|Command|..] == Frames(chunks) + Terminator;
    FramesRoundTrip(chunks, 0);
    NonEmptyConcat(chunks, 0);
    assert chunks[0..] == chunks;
    NonEmptyFit(chunks, 0);
  }

  /** A file without bytes reads as empty reads only. */
  lemma {:induction false} EmptyReads(chunks: seq<seq<byte>>)
    requires Concat(chunks) == []
    ensures forall j :: 0 <= j < |chunks| ==> chunks[j] == []
  {
    if chunks != [] {
      EmptyReads(chunks[1..]);
      assert forall j :: 0 < j < |chunks| ==> chunks[j] == chunks[1..][j - 1];
    }
  }

  lemma {:induction false} NoFramesFrom(chunks: seq<seq<byte>>, i: nat)
    requires ChunksFit(chunks) && i <= |chunks|
    requires forall j :: 0 <= j < |chunks| ==> chunks[j] == []
    ensures NonEmptyFrom(chunks, i) == [] && FramesFrom(chunks, i) == []
    decreases |chunks| - i
  {
    if i < |chunks| {
      NoFramesFrom(chunks, i + 1);
    }
  }

  /** An empty file sends no data frame: the command line is followed directly by the terminator. */
  lemma EmptyFileNoFrames(chunks: seq<seq<byte>>)
    requires ChunksFit(chunks) && Concat(chunks) == []
    ensures NonEmpty(chunks) == [] && Frames(chunks) == []
    ensures WireImage(chunks) == Command + [0, 0, 0, 0]
  {
    EmptyReads(chunks);
    NoFramesFrom(chunks, 0);
    assert Terminator == [0, 0, 0, 0];
  }

  /** The reads of a regular file through a full buffer: every one full except a non-empty last. */
  predicate FullReads(chunks: seq<seq<byte>>)
  {
    |chunks| > 0 &&
    (forall i :: 0 <= i < |chunks| - 1 ==> |chunks[i]| == ChunkSize) &&
    0 < |chunks[|chunks| - 1]| <= ChunkSize
  }

  lemma {:induction false} FullReadsSize(chunks: seq<seq<byte>>)
    requires FullReads(chunks)
    ensures |Concat(chunks)| == (|chunks| - 1) * ChunkSize + |chunks[|chunks| - 1]|
  {
    if |chunks| > 1 {
      FullReadsSize(chunks[1..]);
    }
  }

  lemma {:induction false} AllNonEmpty(chunks: seq<seq<byte>>, i: nat)
    requires i <= |chunks|
    requires forall j :: 0 <= j < |chunks| ==> chunks[j] != []
    ensures NonEmptyFrom(chunks, i) == chunks[i..]
    decreases |chunks| - i
  {
    if i < |chunks| {
      AllNonEmpty(chunks, i + 1);
      assert chunks[i..] == [chunks[i]] + chunks[i + 1..];
    }
  }

  /** A file of S bytes read through full buffers is sent as ceil(S / ChunkSize) data frames. */
  lemma FrameCount(chunks: seq<seq<byte>>)
    requires FullReads(chunks)
    ensures |NonEmpty(chunks)| == (|Concat(chunks)| + ChunkSize - 1) / ChunkSize
  {
    FullReadsSize(chunks);
    AllNonEmpty(chunks, 0);
    var last := |chunks[|chunks| - 1]|;
    assert |Concat(chunks)| + ChunkSize - 1 == |chunks| * ChunkSize + (last - 1);
  }

  /**
   * bufio.Reader.ReadString('\n'): the reply up to and including its first
   * newline, or None when the connection ends before a newline arrives.
   */
  function ReadLine(incoming: string): (r: Option<string>)
    ensures r.Some? <==> '\n' in incoming
    ensures r.Some? ==> 0 < |r.value| <= |incoming| && r.value == incoming[..|r.value|]
    ensures r.Some? ==> r.value[|r.value| - 1] == '\n' && '\n' !in r.value[..|r.value| - 1]
  {
    if incoming == [] then None
    else if incoming[0] == '\n' then Some("\n")
    else match ReadLine(incoming[1..])
      case None => None
      case Some(rest) =>
        assert [incoming[0]] + rest == incoming[..|rest| + 1];
        assert ([incoming[0]] + rest)[..|rest|] == [incoming[0]] + rest[..|rest| - 1];
        Some([incoming[0]] + rest)
  }

  /** `t` occurs in `s` starting at position `i`. */
  predicate OccursAt(t: string, s: string, i: nat)
  {
    i + |t| <= |s| && s[i..i + |t|] == t
  }

  /** `t` occurs somewhere in `s`. */
  ghost predicate Occurs(t: string, s: string)
  {
    exists i: nat :: OccursAt(t, s, i)
  }

  /** strings.Contains: a search for `t` at each position of `s` in turn. */
  function Contains(s: string, t: string): (b: bool)
    ensures b <==> Occurs(t, s)
    decreases |s|
  {
    if |t| > |s| then false
    else if s[..|t|] == t then assert OccursAt(t, s, 0); true
    else
      var b := Contains(s[1..], t);
      assert b ==> Occurs(t, s) by {
        if b {
          var i: nat :| OccursAt(t, s[1..], i);
          assert s[i + 1..i + 1 + |t|] == s[1..][i..i + |t|];
          assert OccursAt(t, s, i + 1);
        }
      }
      assert Occurs(t, s) ==> b by {
        if Occurs(t, s) {
          var i: nat :| OccursAt(t, s, i);
          assert i != 0;
          assert s[1..][i - 1..i - 1 + |t|] == s[i..i + |t|];
          assert OccursAt(t, s[1..], i - 1);
        }
      }
      b
  }
}
