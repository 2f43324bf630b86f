/** What a response body means: a decoder over the whole remaining stream, with no buffer, no
    segmentation and no limits. The incremental reader is proved against it. */
module BodyFraming {
  import opened Octets
  import opened Numbers
  import opened Cuts

  const MAX_CHUNK_LINE_BYTES: nat := 8 * 1024
  const MAX_TRAILER_BYTES: nat := 64 * 1024

  /** A longer line, with its terminator, can never be read: it would take a read begun at the limit. */
  const MAX_ACCEPTED_LINE: nat := MAX_CHUNK_LINE_BYTES - 1 + READ_SIZE

  datatype BodyMode =
    | Empty
    | ContentLength(remaining: nat)
    | Chunked(left: nat, separatorDue: bool, complete: bool)
    | Eof

  datatype ReadError =
    | Io
    | UnexpectedEof
    | LineTooLong
    | TrailersTooLong
    | BadSeparator
    | BadChunkSize
    | BadTrailer

  datatype End = Complete(rest: Bytes) | Failed(error: ReadError)

  /** The body's data, how it ended, whether every line on the way stays within the limits, so that it is
      never refused for its length, and whether every line is one that can be accepted at all. The first two
      do not depend on the others. */
  datatype Decoded = Decoded(data: Bytes, end: End, fits: bool, within: bool)

  function Prepend(data: Bytes, d: Decoded): Decoded {
    d.(data := data + d.data)
  }

  predicate IsComplete(mode: BodyMode) {
    mode.Empty? || mode == ContentLength(0) || (mode.Chunked? && mode.complete)
  }

  /** The size before any chunk extension, in hexadecimal. */
  function ChunkSize(line: Bytes): (r: Option<nat>)
    ensures r.Some? ==> r.value <= U64_MAX
  {
    Parse(Trim(Split<Byte>(';', line)[0]), Hex, U64_MAX)
  }

  /** A line is never refused for its length when it, or the stream it was cut short by, is this short. */
  predicate LineFits(s: Bytes, max: nat) {
    match Find(CRLF, s)
    case Some(end) => end + 2 <= max
    case None => |s| < max
  }

  predicate HasColon(line: Bytes) {
    exists i :: 0 <= i < |line| && line[i] == ':'
  }

  function Trailers(s: Bytes, total: nat): Decoded {
    match Find(CRLF, s)
    case None => Decoded([], Failed(UnexpectedEof), LineFits(s, MAX_CHUNK_LINE_BYTES), true)
    case Some(end) =>
      var line, rest := s[..end], s[end + 2..];
      var room := total + end + 2 <= MAX_TRAILER_BYTES;
      var fits, within := LineFits(s, MAX_CHUNK_LINE_BYTES) && room, end + 2 <= MAX_ACCEPTED_LINE && room;
      if line == [] then Decoded([], Complete(rest), fits, within)
      else if !HasColon(line) then Decoded([], Failed(BadTrailer), fits, within)
      else Also(Trailers(rest, total + end + 2), fits, within)
  }

  /** The rest of a decoding, behind something that keeps the limits as stated. */
  function Also(d: Decoded, fits: bool, within: bool): Decoded {
    d.(fits := fits && d.fits, within := within && d.within)
  }

  /** The chunked coding from the middle of a chunk with `left` octets to come, or from the
      boundary before one. */
  function Chunks(left: nat, separatorDue: bool, s: Bytes): Decoded
    decreases |s|, 1
  {
    if left > 0 then
      if |s| < left then Decoded(s, Failed(UnexpectedEof), true, true)
      else Prepend(s[..left], Chunks(0, true, s[left..]))
    else if !separatorDue then ChunkLine(s)
    else if |s| < 2 then Decoded([], Failed(UnexpectedEof), true, true)
    else if s[..2] != CRLF then Decoded([], Failed(BadSeparator), true, true)
    else ChunkLine(s[2..])
  }

  function ChunkLine(s: Bytes): Decoded
    decreases |s|, 0
  {
    match Find(CRLF, s)
    case None => Decoded([], Failed(UnexpectedEof), LineFits(s, MAX_CHUNK_LINE_BYTES), true)
    case Some(end) =>
      var rest := s[end + 2..];
      var fits, within := LineFits(s, MAX_CHUNK_LINE_BYTES), end + 2 <= MAX_ACCEPTED_LINE;
      match ChunkSize(s[..end])
      case None => Decoded([], Failed(BadChunkSize), fits, within)
      case Some(size) =>
        Also(if size == 0 then Trailers(rest, 0) else Chunks(size, false, rest), fits, within)
  }

  function Body(mode: BodyMode, s: Bytes): Decoded {
    match mode
    case Empty => Decoded([], Complete(s), true, true)
    case Eof => Decoded(s, Complete([]), true, true)
    case ContentLength(n) =>
      if |s| < n then Decoded(s, Failed(UnexpectedEof), true, true)
      else Decoded(s[..n], Complete(s[n..]), true, true)
    case Chunked(left, separatorDue, complete) =>
      if complete then Decoded([], Complete(s), true, true) else Chunks(left, separatorDue, s)
  }

  /** The mode that is left after `k` octets of data have been handed out. */
  function Advance(mode: BodyMode, k: nat): BodyMode
    requires mode.ContentLength? ==> k <= mode.remaining
    requires mode.Chunked? ==> k <= mode.left
  {
    match mode
    case ContentLength(n) => ContentLength(n - k)
    case Chunked(left, _, _) => Chunked(left - k, left == k, false)
    case _ => mode
  }

  predicate InData(mode: BodyMode, k: nat) {
    match mode
    case Empty => false
    case Eof => true
    case ContentLength(n) => k <= n
    case Chunked(left, _, complete) => !complete && k <= left
  }

  /** Data may be handed out in pieces of any size: what is left decodes to what is left. */
  lemma {:induction false} DataSplits(mode: BodyMode, s: Bytes, k: nat)
    requires 0 < k <= |s| && InData(mode, k)
    ensures Body(mode, s) == Prepend(s[..k], Body(Advance(mode, k), s[k..]))
  {
    hide Chunks;
    match mode
    case Empty =>
    case Eof =>
      assert s == s[..k] + s[k..];
    case ContentLength(n) =>
      SlicesSplit(s, k, n);
    case Chunked(left, _, _) =>
      ChunkSplits(left, mode.separatorDue, s, k);
  }

  /** Data is due and the stream is over. */
  lemma {:induction false} CutShort(mode: BodyMode)
    requires (mode.ContentLength? && mode.remaining > 0) || (mode.Chunked? && !mode.complete && mode.left > 0)
    ensures Body(mode, []).data == [] && Body(mode, []).end == Failed(UnexpectedEof)
  {
  }

  lemma {:induction false} SlicesSplit(s: Bytes, k: nat, n: nat)
    requires k <= n && k <= |s|
    ensures s == s[..k] + s[k..]
    ensures n <= |s| ==> s[..n] == s[..k] + s[k..][..n - k] && s[n..] == s[k..][n - k..]
  {
  }

  lemma {:induction false} ChunkSplits(left: nat, separatorDue: bool, s: Bytes, k: nat)
    requires 0 < k <= left && k <= |s|
    ensures Chunks(left, separatorDue, s) == Prepend(s[..k], Chunks(left - k, left == k, s[k..]))
  {
    hide ChunkLine;
    SlicesSplit(s, k, left);
    if left <= |s| && k < left {
      var after := Chunks(0, true, s[left..]);
      Regroup(s[..k], s[k..][..left - k], after.data);
    }
  }

  // ---- The chunked coding as a grammar ----

  datatype Fields = NoField | Field(line: Bytes, more: Fields)

  /** A message in the chunked coding; every line is kept as sent, extensions and all. */
  datatype Message =
    | Last(line: Bytes, trailers: Fields)
    | Chunk(line: Bytes, data: Bytes, more: Message)

  predicate IsLine(line: Bytes) {
    Find(CRLF, line).None?
  }

  predicate AreTrailers(f: Fields) {
    f.Field? ==> IsLine(f.line) && HasColon(f.line) && AreTrailers(f.more)
  }

  predicate IsMessage(m: Message) {
    && IsLine(m.line)
    && match m
       case Last(line, trailers) => ChunkSize(line) == Some(0) && AreTrailers(trailers)
       case Chunk(line, data, more) => ChunkSize(line) == Some(|data|) && data != [] && IsMessage(more)
  }

  /** A line and its terminator, in front of `rest`. */
  function Line(line: Bytes, rest: Bytes): (r: Bytes)
    ensures |r| == |line| + 2 + |rest|
  {
    line + (CRLF + rest)
  }

  function EncodeTrailers(f: Fields, tail: Bytes): Bytes {
    match f
    case NoField => Line([], tail)
    case Field(line, more) => Line(line, EncodeTrailers(more, tail))
  }

  /** The octets of a message with `tail` behind them. */
  function Encode(m: Message, tail: Bytes): Bytes {
    match m
    case Last(line, trailers) => Line(line, EncodeTrailers(trailers, tail))
    case Chunk(line, data, more) => Line(line, data + (CRLF + Encode(more, tail)))
  }

  function Data(m: Message): Bytes {
    match m
    case Last(_, _) => []
    case Chunk(_, data, more) => data + Data(more)
  }

  /** Room for the carriage return and line feed is part of a line's limit. */
  predicate ShortLine(line: Bytes, max: nat) {
    |line| + 2 <= max
  }

  predicate TrailersFit(f: Fields, total: nat, max: nat) {
    match f
    case NoField => ShortLine([], max) && total + 2 <= MAX_TRAILER_BYTES
    case Field(line, more) =>
      && ShortLine(line, max) && total + |line| + 2 <= MAX_TRAILER_BYTES
      && TrailersFit(more, total + |line| + 2, max)
  }

  /** No line of the message exceeds `max`, nor its trailers their own limit. */
  predicate WithinLimits(m: Message, max: nat) {
    && ShortLine(m.line, max)
    && match m
       case Last(_, trailers) => TrailersFit(trailers, 0, max)
       case Chunk(_, _, more) => WithinLimits(more, max)
  }

  lemma {:induction false} LineEnds(line: Bytes, rest: Bytes)
    requires IsLine(line)
    ensures Find(CRLF, Line(line, rest)) == Some(|line|)
    ensures Line(line, rest)[..|line|] == line
    ensures Line(line, rest)[|line| + 2..] == rest
  {
    var s := Line(line, rest);
    assert s[|line|..|line| + 2] == CRLF;
    forall j: nat | j < |line| ensures !At(CRLF, s, j) {
      if j + 1 < |line| {
        assert !At(CRLF, line, j);
        assert s[j..j + 2] == line[j..j + 2];
      } else {
        assert s[j..j + 2][1] == '\r';
      }
    }
    FirstIs(CRLF, s, |line|);
  }

  /** How the decoder takes one line, with the line and the rest named apart. */
  lemma {:induction false} TrailersStep(line: Bytes, rest: Bytes, total: nat)
    requires IsLine(line)
    ensures var room := total + |line| + 2 <= MAX_TRAILER_BYTES;
            var fits, within := ShortLine(line, MAX_CHUNK_LINE_BYTES) && room, ShortLine(line, MAX_ACCEPTED_LINE) && room;
            Trailers(Line(line, rest), total) ==
            if line == [] then Decoded([], Complete(rest), fits, within)
            else if !HasColon(line) then Decoded([], Failed(BadTrailer), fits, within)
            else Also(Trailers(rest, total + |line| + 2), fits, within)
  {
    hide At, FindFrom;
    LineEnds(line, rest);
  }

  lemma {:induction false} ChunkLineStep(line: Bytes, rest: Bytes)
    requires IsLine(line)
    ensures var fits, within := ShortLine(line, MAX_CHUNK_LINE_BYTES), ShortLine(line, MAX_ACCEPTED_LINE);
            ChunkLine(Line(line, rest)) ==
            match ChunkSize(line)
            case None => Decoded([], Failed(BadChunkSize), fits, within)
            case Some(size) => Also(if size == 0 then Trailers(rest, 0) else Chunks(size, false, rest), fits, within)
  {
    hide At, FindFrom;
    LineEnds(line, rest);
  }

  /** A line that never ends, or is too long, is a failure of either decoder. */
  lemma {:induction false} NoLine(s: Bytes, total: nat)
    ensures Find(CRLF, s).None? ==>
              ChunkLine(s).data == [] && ChunkLine(s).end == Failed(UnexpectedEof)
              && Trailers(s, total).data == [] && Trailers(s, total).end == Failed(UnexpectedEof)
    ensures !LineFits(s, MAX_CHUNK_LINE_BYTES) ==> !ChunkLine(s).fits && !Trailers(s, total).fits
  {
  }

  lemma {:induction false} ChunkDataStep(data: Bytes, rest: Bytes)
    requires data != []
    ensures Chunks(|data|, false, data + (CRLF + rest)) == Prepend(data, ChunkLine(rest))
  {
    var after := CRLF + rest;
    assert (data + after)[..|data|] == data && (data + after)[|data|..] == after;
    assert after[..2] == CRLF && after[2..] == rest;
  }

  lemma {:induction false} TrailersRoundTrip(f: Fields, tail: Bytes, total: nat)
    requires AreTrailers(f)
    ensures Trailers(EncodeTrailers(f, tail), total) ==
            Decoded([], Complete(tail), TrailersFit(f, total, MAX_CHUNK_LINE_BYTES), TrailersFit(f, total, MAX_ACCEPTED_LINE))
  {
    hide Trailers;
    match f
    case NoField =>
      TrailersStep([], tail, total);
    case Field(line, more) =>
      TrailersStep(line, EncodeTrailers(more, tail), total);
      TrailersRoundTrip(more, tail, total + |line| + 2);
  }

  /** Every message in the coding decodes to its data and leaves exactly what follows it. */
  lemma {:induction false} ChunkedRoundTrip(m: Message, tail: Bytes)
    requires IsMessage(m)
    ensures Body(Chunked(0, false, false), Encode(m, tail)) ==
            Decoded(Data(m), Complete(tail), WithinLimits(m, MAX_CHUNK_LINE_BYTES), WithinLimits(m, MAX_ACCEPTED_LINE))
  {
    assert Body(Chunked(0, false, false), Encode(m, tail)) == ChunkLine(Encode(m, tail));
    match m
    case Last(line, trailers) =>
      ChunkLineStep(line, EncodeTrailers(trailers, tail));
      TrailersRoundTrip(trailers, tail, 0);
    case Chunk(line, data, more) =>
      ChunkLineStep(line, data + (CRLF + Encode(more, tail)));
      ChunkDataStep(data, Encode(more, tail));
      ChunkedRoundTrip(more, tail);
  }

  lemma {:induction false} LineBefore(s: Bytes)
    requires Find(CRLF, s).Some?
    ensures var end := Find(CRLF, s).value;
            end + 2 <= |s| && IsLine(s[..end]) && s == Line(s[..end], s[end + 2..])
  {
    var end := Find(CRLF, s).value;
    forall j: nat ensures !At(CRLF, s[..end], j) {
      if j + 2 <= end {
        assert s[..end][j..j + 2] == s[j..j + 2];
        assert !At(CRLF, s, j);
      }
    }
    assert s[end..end + 2] == CRLF;
  }

  lemma {:induction false} TrailersSound(s: Bytes, total: nat) returns (f: Fields)
    requires Trailers(s, total).end.Complete?
    ensures AreTrailers(f) && s == EncodeTrailers(f, Trailers(s, total).end.rest)
    ensures Trailers(s, total).data == []
  {
    hide At, FindFrom, LineFits;
    LineBefore(s);
    var end := Find(CRLF, s).value;
    if end == 0 {
      f := NoField;
    } else {
      var more := TrailersSound(s[end + 2..], total + end + 2);
      f := Field(s[..end], more);
    }
  }

  lemma {:induction false} ChunkDataSound(size: nat, s: Bytes) returns (data: Bytes, rest: Bytes)
    requires size > 0 && Chunks(size, false, s).end.Complete?
    ensures |data| == size && s == data + (CRLF + rest)
    ensures Chunks(size, false, s) == Prepend(data, ChunkLine(rest))
  {
    hide ChunkLine;
    data := s[..size];
    rest := s[size..][2..];
    assert Chunks(0, true, s[size..]) == ChunkLine(rest);
  }

  /** Nothing else is accepted: whatever decodes completely from a chunk boundary is a message of
      the coding in front of what was left over, and the data is that message's. */
  lemma {:induction false} ChunkedSound(s: Bytes) returns (m: Message)
    requires Body(Chunked(0, false, false), s).end.Complete?
    ensures IsMessage(m) && s == Encode(m, Body(Chunked(0, false, false), s).end.rest)
    ensures Body(Chunked(0, false, false), s).data == Data(m)
    decreases |s|
  {
    hide ChunkSize, At, FindFrom, LineFits, Trailers;
    assert Chunks(0, false, s) == ChunkLine(s);
    LineBefore(s);
    var end := Find(CRLF, s).value;
    var size := ChunkSize(s[..end]).value;
    if size == 0 {
      var trailers := TrailersSound(s[end + 2..], 0);
      m := Last(s[..end], trailers);
    } else {
      var data, rest := ChunkDataSound(size, s[end + 2..]);
      var more := ChunkedSound(rest);
      m := Chunk(s[..end], data, more);
    }
  }
}
