/** The blocking client's body reader: a buffer in front of a connection that delivers its octets
    in pieces of its own choosing. Every call is stated against the whole-stream decoder. */
module ResponseBodies {
  import opened Octets
  import opened BodyFraming
  import opened Cuts

  const MAX_RESPONSE_HEAD_BYTES: nat := 64 * 1024

  /** No read into the buffer starts once it holds a full head. */
  const MAX_BUFFERED: nat := MAX_RESPONSE_HEAD_BYTES - 1 + READ_SIZE

  /** The peer's octets up to its close, delivered in any segmentation; any read may fail, and failures
      are counted. */
  class Connection {
    var unread: Bytes
    var faults: nat
    ghost var log: seq<nat> // the sizes of the reads that succeeded

    constructor (stream: Bytes)
      ensures unread == stream && faults == 0 && log == []
    {
      unread, faults, log := stream, 0, [];
    }

    method Read(max: nat) returns (r: Result<Bytes, ReadError>)
      modifies this
      ensures r.Ok? ==> old(unread) == r.value + unread && |r.value| <= max
      ensures r.Ok? && r.value == [] ==> max == 0 || unread == []
      ensures r.Err? ==> r.error == Io && unread == old(unread)
      ensures faults == old(faults) + if r.Err? then 1 else 0
      ensures log == if r.Ok? then old(log) + [|r.value|] else old(log)
    {
      if * {
        faults := faults + 1;
        return Err(Io);
      }
      if max == 0 || unread == [] {
        log := log + [0];
        return Ok([]);
      }
      var count: nat :| 1 <= count <= max && count <= |unread|;
      r := Ok(unread[..count]);
      log := log + [count];
      unread := unread[count..];
    }
  }

  /** After handing out `out`, the decoding still ahead is the rest of the decoding before. */
  predicate Follows(before: Decoded, out: Bytes, after: Decoded) {
    before.data == out + after.data && before.end == after.end && (before.fits ==> after.fits)
  }

  /** What was taken in between kept the limits. */
  predicate Admits(before: Decoded, after: Decoded) {
    after.within ==> before.within
  }

  function FillVerdict(r: Result<nat, ReadError>): Verdict {
    match r
    case Ok(end) => Found(end)
    case Err(error) => if error.LineTooLong? then TooLong else if error.UnexpectedEof? then Closed else Undecided
  }

  function LineVerdict(r: Result<Bytes, ReadError>): Verdict {
    match r
    case Ok(line) => Found(|line|)
    case Err(error) => FillVerdict(Err(error))
  }

  /** An error is the decoder's own verdict at this very point, or a limit that the stream really
      exceeds, or the transport's. */
  predicate Explains(before: Decoded, error: ReadError) {
    match error
    case Io => true
    case LineTooLong => !before.fits
    case TrailersTooLong => !before.fits
    case _ => before.data == [] && before.end == Failed(error)
  }

  lemma {:induction false} FollowsTwice(a: Decoded, x: Bytes, b: Decoded, y: Bytes, c: Decoded)
    requires Follows(a, x, b) && Follows(b, y, c)
    ensures Follows(a, x + y, c)
  {
    assert x + (y + c.data) == (x + y) + c.data;
  }

  /** What the buffer shows of the stream's first line. */
  lemma {:induction false} LineSeen(buffered: Bytes, unread: Bytes, max: nat)
    ensures match Find(CRLF, buffered)
            case Some(end) =>
              && end + 2 <= |buffered| && IsLine(buffered[..end])
              && buffered + unread == Line(buffered[..end], buffered[end + 2..] + unread)
            case None => |buffered| >= max ==> !LineFits(buffered + unread, max)
  {
    hide FindFrom, At;
    FindInPrefix(CRLF, buffered, unread);
    if Find(CRLF, buffered).Some? {
      LineBefore(buffered);
      var end := Find(CRLF, buffered).value;
      Regroup(buffered[..end], CRLF + buffered[end + 2..], unread);
      Regroup(CRLF, buffered[end + 2..], unread);
    }
  }

  /** Whether a line is refused for its length depends on how the stream is cut, exactly when it ends within
      one read past the limit; shorter ones never are and longer ones always. */
  lemma {:induction false} LineMayGoEitherWay(line: Bytes, rest: Bytes)
    requires IsLine(line)
    ensures var s, max := Line(line, rest), MAX_CHUNK_LINE_BYTES;
            && (MayJudge(CRLF, [], s, max, TooLong) <==> |line| > 8190)
            && (MayJudge(CRLF, [], s, max, Found(|line|)) <==> |line| <= 12285)
  {
    hide MayJudge, FindFrom, At;
    var s := Line(line, rest);
    LineEnds(line, rest);
    assert [] + s == s;
    MayRefuseIff(CRLF, [], s, MAX_CHUNK_LINE_BYTES);
    MayAcceptIff(CRLF, [], s, MAX_CHUNK_LINE_BYTES);
  }

  class ResponseBody {
    const connection: Connection
    var buffered: Bytes
    var mode: BodyMode

    constructor (connection: Connection, buffered: Bytes, mode: BodyMode)
      ensures this.connection == connection && this.buffered == buffered && this.mode == mode
    {
      this.connection, this.buffered, this.mode := connection, buffered, mode;
    }

    /** Everything the caller has not been given yet. */
    ghost function Stream(): Bytes
      reads this, connection
    {
      buffered + connection.unread
    }

    ghost function Decoding(): Decoded
      reads this, connection
    {
      Body(mode, Stream())
    }

    method ReadBuffered(max: nat) returns (r: Result<Bytes, ReadError>)
      modifies this`buffered, connection
      ensures r.Ok? ==> old(Stream()) == r.value + Stream() && |r.value| <= max
      ensures r.Ok? && r.value == [] ==> max == 0 || old(Stream()) == []
      ensures r.Err? ==> r.error == Io
      ensures |buffered| <= old(|buffered|)
      ensures connection.faults == old(connection.faults) + if r == Err(Io) then 1 else 0
    {
      if buffered != [] {
        var count := if max < |buffered| then max else |buffered|;
        r := Ok(buffered[..count]);
        assert buffered == buffered[..count] + buffered[count..];
        buffered := buffered[count..];
        return;
      }
      r := connection.Read(max);
    }

    method ReadExactBuffered(length: nat) returns (r: Result<Bytes, ReadError>)
      modifies this`buffered, connection
      ensures r.Ok? ==> old(Stream()) == r.value + Stream() && |r.value| == length
      ensures r.Err? ==> r.error == Io || (r.error == UnexpectedEof && old(|Stream()|) < length)
      ensures |buffered| <= old(|buffered|)
      ensures connection.faults == old(connection.faults) + if r == Err(Io) then 1 else 0
    {
      var output: Bytes := [];
      while |output| < length
        invariant |output| <= length && old(Stream()) == output + Stream()
        invariant connection.faults == old(connection.faults)
        invariant |buffered| <= old(|buffered|)
        decreases length - |output|
      {
        ghost var before := Stream();
        var read := ReadBuffered(length - |output|);
        if read.Err? {
          return read;
        }
        if read.value == [] {
          return Err(UnexpectedEof);
        }
        assert output + before == (output + read.value) + Stream();
        output := output + read.value;
      }
      r := Ok(output);
    }

    /** Fills the buffer until it shows a line's end. */
    method FillLine(maxLen: nat) returns (r: Result<nat, ReadError>)
      modifies this`buffered, connection
      ensures Stream() == old(Stream())
      ensures r.Ok? ==> Find(CRLF, buffered) == Some(r.value)
      ensures r.Err? ==> Find(CRLF, buffered).None? && r.error in {Io, UnexpectedEof, LineTooLong}
      ensures r == Err(UnexpectedEof) ==> Find(CRLF, Stream()).None?
      ensures r == Err(LineTooLong) ==> |buffered| >= maxLen
      ensures |buffered| <= old(|buffered|) || |buffered| < maxLen + READ_SIZE
      ensures Scans(CRLF, old(buffered), old(connection.unread), old(connection.log), connection.log, maxLen, FillVerdict(r))
      ensures connection.faults == old(connection.faults) + if r == Err(Io) then 1 else 0
    {
      hide Scans, IsScanning, Find;
      ghost var buffer, unread, log := buffered, connection.unread, connection.log;
      StartsScanning(CRLF, buffer, unread, log, maxLen);
      while true
        invariant IsScanning(CRLF, buffer, unread, log, maxLen, buffered, connection.unread, connection.log)
        invariant connection.faults == old(connection.faults)
        invariant |buffered| <= |buffer| || |buffered| < maxLen + READ_SIZE
        decreases |connection.unread|
      {
        StopsScanning(CRLF, buffer, unread, log, maxLen, buffered, connection.unread, connection.log);
        var end := Find(CRLF, buffered);
        if end.Some? {
          return Ok(end.value);
        }
        if |buffered| >= maxLen {
          return Err(LineTooLong);
        }
        ghost var logged := connection.log;
        var read := connection.Read(READ_SIZE);
        if read.Err? {
          return Err(read.error);
        }
        ScansOn(CRLF, buffer, unread, log, maxLen, buffered, read.value, connection.unread, logged);
        if read.value == [] {
          assert Stream() == buffered;
          return Err(UnexpectedEof);
        }
        buffered := buffered + read.value;
      }
    }

    /** One line without its terminator. The length limit can only strike a line that, with its
        terminator, exceeds it; the reads made are a cut of the stream, and the verdict is the one that
        this cut calls for. */
    method ReadLine(maxLen: nat) returns (r: Result<Bytes, ReadError>)
      modifies this`buffered, connection
      ensures r.Ok? ==> IsLine(r.value) && old(Stream()) == Line(r.value, Stream())
      ensures r.Err? ==> r.error in {Io, UnexpectedEof, LineTooLong}
      ensures r == Err(UnexpectedEof) ==> Find(CRLF, old(Stream())).None?
      ensures r == Err(LineTooLong) ==> !LineFits(old(Stream()), maxLen)
      ensures r.Ok? ==> |r.value| + 2 <= old(|buffered|) || |r.value| + 2 < maxLen + READ_SIZE
      ensures |buffered| <= old(|buffered|) || |buffered| < maxLen + READ_SIZE
      ensures Scans(CRLF, old(buffered), old(connection.unread), old(connection.log), connection.log, maxLen, LineVerdict(r))
      ensures connection.faults == old(connection.faults) + if r == Err(Io) then 1 else 0
    {
      hide Scans, Find, Line, LineFits, IsLine;
      var end := FillLine(maxLen);
      LineSeen(buffered, connection.unread, maxLen);
      if end.Err? {
        return Err(end.error);
      }
      r := Ok(buffered[..end.value]);
      buffered := buffered[end.value + 2..];
    }

    method ConsumeTrailers() returns (r: Result<(), ReadError>)
      modifies this`buffered, connection
      ensures r.Ok? ==> Trailers(old(Stream()), 0).data == [] && Trailers(old(Stream()), 0).end == Complete(Stream())
      ensures r.Err? ==> Explains(Trailers(old(Stream()), 0), r.error)
      ensures r.Ok? && old(|buffered|) <= MAX_ACCEPTED_LINE ==> Trailers(old(Stream()), 0).within
      ensures r.Ok? ==> |Stream()| <= old(|Stream()|) <= |Stream()| + MAX_TRAILER_BYTES
      ensures |buffered| <= old(|buffered|) || |buffered| < MAX_CHUNK_LINE_BYTES + READ_SIZE
      ensures connection.faults == old(connection.faults) + if r == Err(Io) then 1 else 0
    {
      hide Find, LineFits, Scans, Line, IsLine, Trailers, HasColon;
      ghost var whole := Trailers(old(Stream()), 0);
      var total: nat := 0;
      while true
        invariant Follows(whole, [], Trailers(Stream(), total)) && |Stream()| + total == old(|Stream()|)
        invariant total <= MAX_TRAILER_BYTES
        invariant old(|buffered|) <= MAX_ACCEPTED_LINE ==> Admits(whole, Trailers(Stream(), total))
        invariant connection.faults == old(connection.faults)
        invariant |buffered| <= old(|buffered|) || |buffered| < MAX_CHUNK_LINE_BYTES + READ_SIZE
        decreases |Stream()|
      {
        NoLine(Stream(), total);
        var line := ReadLine(MAX_CHUNK_LINE_BYTES);
        if line.Err? {
          return Err(line.error);
        }
        TrailersStep(line.value, Stream(), total);
        total := total + |line.value| + 2;
        if total > MAX_TRAILER_BYTES {
          return Err(TrailersTooLong);
        }
        if line.value == [] {
          return Ok(());
        }
        if !HasColon(line.value) {
          return Err(BadTrailer);
        }
      }
    }

    method SkipSeparator() returns (r: Result<(), ReadError>)
      modifies this`buffered, connection
      ensures r.Ok? ==> Chunks(0, true, old(Stream())) == ChunkLine(Stream()) && |Stream()| < old(|Stream()|)
      ensures r.Err? ==> Explains(Chunks(0, true, old(Stream())), r.error)
      ensures |buffered| <= old(|buffered|)
      ensures connection.faults == old(connection.faults) + if r == Err(Io) then 1 else 0
    {
      hide ChunkLine;
      var separator := ReadExactBuffered(2);
      if separator.Err? {
        return Err(separator.error);
      }
      assert old(Stream())[..2] == separator.value && old(Stream())[2..] == Stream();
      r := if separator.value != CRLF then Err(BadSeparator) else Ok(());
    }

    /** Crosses a chunk boundary: the separator, the size line and, after the last chunk, the
        trailers. */
    method CrossBoundary() returns (r: Result<(), ReadError>)
      requires mode.Chunked? && !mode.complete && mode.left == 0
      modifies this, connection
      ensures mode.Chunked?
      ensures r.Ok? ==> Follows(old(Decoding()), [], Decoding()) && |Stream()| < old(|Stream()|)
      ensures r.Ok? ==> if mode.complete then old(Decoding()).data == [] else mode.left > 0
      ensures r.Ok? && old(|buffered|) <= MAX_ACCEPTED_LINE ==> Admits(old(Decoding()), Decoding())
      ensures r.Err? ==> Explains(old(Decoding()), r.error)
      ensures |buffered| <= old(|buffered|) || |buffered| < MAX_CHUNK_LINE_BYTES + READ_SIZE
      ensures connection.faults == old(connection.faults) + if r == Err(Io) then 1 else 0
    {
      hide Find, LineFits, ChunkSize, Trailers, Scans, Line, IsLine, ChunkLine;
      if mode.separatorDue {
        var separator := SkipSeparator();
        if separator.Err? {
          return separator;
        }
      }
      assert old(Decoding()) == ChunkLine(Stream());
      NoLine(Stream(), 0);
      var line := ReadLine(MAX_CHUNK_LINE_BYTES);
      if line.Err? {
        return Err(line.error);
      }
      ChunkLineStep(line.value, Stream());
      var size := ChunkSize(line.value);
      if size.None? {
        return Err(BadChunkSize);
      }
      if size.value == 0 {
        var trailers := ConsumeTrailers();
        if trailers.Err? {
          return Err(trailers.error);
        }
        mode := Chunked(0, false, true);
      } else {
        mode := Chunked(size.value, false, false);
      }
      r := Ok(());
    }

    method ReadChunkData(max: nat) returns (r: Result<Bytes, ReadError>)
      requires mode.Chunked? && !mode.complete && mode.left > 0 && max > 0
      modifies this, connection
      ensures mode.Chunked?
      ensures r.Ok? ==> 0 < |r.value| <= max && Follows(old(Decoding()), r.value, Decoding())
      ensures r.Ok? ==> |r.value| <= old(mode).left && mode == Advance(old(mode), |r.value|)
      ensures r.Ok? ==> Admits(old(Decoding()), Decoding())
      ensures r.Ok? ==> |Stream()| < old(|Stream()|)
      ensures r.Err? ==> Explains(old(Decoding()), r.error)
      ensures |buffered| <= old(|buffered|)
      ensures connection.faults == old(connection.faults) + if r == Err(Io) then 1 else 0
    {
      hide Body;
      CutShort(mode);
      var wanted := if max < mode.left then max else mode.left;
      ghost var before := Stream();
      r := ReadBuffered(wanted);
      if r.Err? {
        return;
      }
      if r.value == [] {
        return Err(UnexpectedEof);
      }
      assert before[..|r.value|] == r.value && before[|r.value|..] == Stream();
      DataSplits(mode, before, |r.value|);
      mode := Chunked(mode.left - |r.value|, mode.left == |r.value|, false);
    }

    method ReadChunked(max: nat) returns (r: Result<Bytes, ReadError>)
      requires mode.Chunked? && max > 0
      modifies this, connection
      ensures mode.Chunked?
      ensures r.Ok? ==> |r.value| <= max && Follows(old(Decoding()), r.value, Decoding())
      ensures r.Ok? && r.value == [] ==> IsComplete(mode)
      ensures r.Ok? && old(|buffered|) <= MAX_ACCEPTED_LINE ==> Admits(old(Decoding()), Decoding())
      ensures r.Ok? && r.value != [] ==> |Stream()| < old(|Stream()|)
      ensures r.Err? ==> Explains(old(Decoding()), r.error)
      ensures |buffered| <= old(|buffered|) || |buffered| < MAX_CHUNK_LINE_BYTES + READ_SIZE
      ensures connection.faults == old(connection.faults) + if r == Err(Io) then 1 else 0
    {
      hide Chunks;
      while true
        invariant mode.Chunked? && Follows(old(Decoding()), [], Decoding())
        invariant |Stream()| <= old(|Stream()|)
        invariant connection.faults == old(connection.faults)
        invariant |buffered| <= old(|buffered|) || |buffered| < MAX_CHUNK_LINE_BYTES + READ_SIZE
        invariant old(|buffered|) <= MAX_ACCEPTED_LINE ==> Admits(old(Decoding()), Decoding())
        decreases |Stream()|
      {
        if mode.complete {
          return Ok([]);
        }
        if mode.left == 0 {
          var boundary := CrossBoundary();
          if boundary.Err? {
            return Err(boundary.error);
          }
          if mode.complete {
            return Ok([]);
          }
        } else {
          r := ReadChunkData(max);
          return;
        }
      }
    }

    method ReadCounted(max: nat) returns (r: Result<Bytes, ReadError>)
      requires mode.ContentLength? && max > 0
      modifies this, connection
      ensures mode.ContentLength?
      ensures r.Ok? ==> |r.value| <= max && Follows(old(Decoding()), r.value, Decoding())
      ensures r.Ok? && r.value == [] ==> IsComplete(mode)
      ensures r.Ok? ==> Admits(old(Decoding()), Decoding())
      ensures r.Ok? && r.value != [] ==> |Stream()| < old(|Stream()|)
      ensures r.Err? ==> Explains(old(Decoding()), r.error)
      ensures |buffered| <= old(|buffered|)
      ensures connection.faults == old(connection.faults) + if r == Err(Io) then 1 else 0
    {
      hide Body;
      var remaining := mode.remaining;
      if remaining == 0 {
        return Ok([]);
      }
      CutShort(mode);
      var wanted := if max < remaining then max else remaining;
      ghost var before := Stream();
      r := ReadBuffered(wanted);
      if r.Err? {
        return;
      }
      if r.value == [] {
        return Err(UnexpectedEof);
      }
      assert before[..|r.value|] == r.value && before[|r.value|..] == Stream();
      DataSplits(mode, before, |r.value|);
      mode := ContentLength(remaining - |r.value|);
    }

    /** One read by the caller. The data handed out is always the next piece of the decoding; for a
        caller with room, nothing more is handed out only at the proper end of the body. */
    method Read(max: nat) returns (r: Result<Bytes, ReadError>)
      modifies this, connection
      ensures r.Ok? ==> |r.value| <= max && Follows(old(Decoding()), r.value, Decoding())
      ensures r.Ok? && r.value == [] && max > 0 ==>
                old(Decoding()).data == [] && Decoding().end == Complete(Stream())
                && (IsComplete(mode) || (mode.Eof? && Stream() == []))
      ensures r.Ok? && r.value != [] ==> |Stream()| < old(|Stream()|)
      ensures r.Err? ==> Explains(old(Decoding()), r.error)
      ensures r.Ok? && old(|buffered|) <= MAX_ACCEPTED_LINE ==> Admits(old(Decoding()), Decoding())
      ensures r.Ok? && r.value == [] && max > 0 ==> Decoding().within
      ensures max == 0 ==> r == Ok([]) && mode == old(mode) && Stream() == old(Stream())
      ensures |buffered| <= old(|buffered|) || |buffered| < MAX_CHUNK_LINE_BYTES + READ_SIZE
      ensures connection.faults == old(connection.faults) + if r == Err(Io) then 1 else 0
    {
      hide Chunks;
      if max == 0 {
        return Ok([]);
      }
      match mode
      case Empty =>
        r := Ok([]);
      case Eof =>
        r := ReadBuffered(max);
      case ContentLength(_) =>
        r := ReadCounted(max);
      case Chunked(_, _, _) =>
        r := ReadChunked(max);
    }

    /** Reads on with buffers of any sizes until the body ends or a read fails. A body that is read to its
        end has kept the limits. */
    method ReadToEnd() returns (output: Bytes, error: Option<ReadError>)
      modifies this, connection
      ensures output <= old(Decoding()).data
      ensures error.None? ==> output == old(Decoding()).data && old(Decoding()).end == Complete(Stream())
      ensures error.Some? && error.value !in {Io, LineTooLong, TrailersTooLong} ==>
                output == old(Decoding()).data && old(Decoding()).end == Failed(error.value)
      ensures error.None? && old(|buffered|) <= MAX_ACCEPTED_LINE ==> old(Decoding()).within
      ensures old(Decoding()).fits ==> error !in {Some(LineTooLong), Some(TrailersTooLong)}
      ensures |buffered| <= old(|buffered|) || |buffered| < MAX_CHUNK_LINE_BYTES + READ_SIZE
      ensures connection.faults == old(connection.faults) + if error == Some(Io) then 1 else 0
    {
      output := [];
      while true
        invariant Follows(old(Decoding()), output, Decoding())
        invariant connection.faults == old(connection.faults)
        invariant |buffered| <= old(|buffered|) || |buffered| < MAX_CHUNK_LINE_BYTES + READ_SIZE
        invariant old(|buffered|) <= MAX_ACCEPTED_LINE ==> Admits(old(Decoding()), Decoding())
        decreases |Stream()|
      {
        var room: nat :| room > 0;
        ghost var before := Decoding();
        var read := Read(room);
        if read.Err? {
          return output, Some(read.error);
        }
        if read.value == [] {
          return output, None;
        }
        FollowsTwice(old(Decoding()), output, before, read.value, Decoding());
        output := output + read.value;
      }
    }
  }

  /** Any message of the chunked coding within the limits, split in any way between the buffer and
      the reads of the connection and asked for in pieces of any size, comes out as its data, and
      exactly what follows it stays unread. */
  method ReadMessage(body: ResponseBody, ghost m: Message, ghost tail: Bytes)
    returns (output: Bytes, error: Option<ReadError>)
    requires IsMessage(m) && WithinLimits(m, MAX_CHUNK_LINE_BYTES)
    requires body.mode == Chunked(0, false, false) && body.Stream() == Encode(m, tail)
    modifies body, body.connection
    ensures error == None || error == Some(Io)
    ensures body.connection.faults == old(body.connection.faults) + if error == Some(Io) then 1 else 0
    ensures error == None ==> output == Data(m) && body.Stream() == tail
    ensures output <= Data(m)
    ensures |body.buffered| <= old(|body.buffered|) || |body.buffered| < MAX_CHUNK_LINE_BYTES + READ_SIZE
  {
    ChunkedRoundTrip(m, tail);
    output, error := body.ReadToEnd();
  }
}
