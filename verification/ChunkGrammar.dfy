/** The chunked coding of section 7.1 of RFC 9112, by what its texts spell and without the decoder's own
    functions: which size lines mean which sizes, and what the messages are. */
module ChunkGrammar {
  import opened Octets
  import opened Numbers
  import opened Numerals
  import opened BodyFraming

  /** The line is a hexadecimal numeral for `n`, between blanks, with or without extensions behind it. */
  ghost predicate SpellsSize(line: Bytes, n: nat) {
    exists size: Bytes, extensions: Bytes ::
      line == size + extensions && SpellsPadded(size, Hex, n) && (extensions == [] || extensions[0] == ';')
  }

  lemma {:induction false} NoSemicolon(size: Bytes, n: nat)
    requires SpellsPadded(size, Hex, n)
    ensures ';' !in size
  {
    hide Spells;
    var a: Bytes, core: Bytes, b: Bytes :| size == a + core + b && AreBlank(a) && AreBlank(b) && Spells(core, Hex, n);
    NumeralChars(core, Hex, n);
    forall i | 0 <= i < |size| ensures size[i] != ';' {
      if i < |a| {
        assert size[i] == a[i];
      } else if i < |a| + |core| {
        assert size[i] == core[i - |a|];
      } else {
        assert size[i] == b[i - |a| - |core|];
      }
    }
  }

  lemma {:induction false} SizePart(size: Bytes, extensions: Bytes)
    requires ';' !in size && (extensions == [] || extensions[0] == ';')
    ensures Split<Byte>(';', size + extensions)[0] == size
  {
    hide Split;
    if extensions == [] {
      SplitPiece<Byte>(';', size, []);
      assert size + [] == size;
    } else {
      assert extensions == [';'] + extensions[1..];
      Regroup(size, [';'], extensions[1..]);
      SplitPiece<Byte>(';', size, extensions[1..]);
    }
  }

  /** A size line gives a size exactly when it spells it in base sixteen and the size is below 2^64. */
  lemma {:induction false} ChunkSizeIff(line: Bytes, n: nat)
    ensures ChunkSize(line) == Some(n) <==> SpellsSize(line, n) && n <= 0xFFFF_FFFF_FFFF_FFFF
  {
    hide SpellsPadded, Spells, Parse, Trim, Split;
    var first: Bytes := Split<Byte>(';', line)[0];
    ParseIff(Trim(first), Hex, U64_MAX, n);
    PaddedIff(first, Hex, n);
    FirstPiece<Byte>(';', line);
    if SpellsPadded(first, Hex, n) {
      assert line == first + line[|first|..];
    }
    if SpellsSize(line, n) {
      var size: Bytes, extensions: Bytes :|
        line == size + extensions && SpellsPadded(size, Hex, n) && (extensions == [] || extensions[0] == ';');
      NoSemicolon(size, n);
      SizePart(size, extensions);
    }
  }

  /** Each trailer line has a colon. */
  predicate AreFieldLines(f: Fields) {
    f.Field? ==> IsLine(f.line) && ':' in f.line && AreFieldLines(f.more)
  }

  lemma {:induction false} TrailersIff(f: Fields)
    ensures AreTrailers(f) <==> AreFieldLines(f)
  {
    hide IsLine;
    if f.Field? {
      TrailersIff(f.more);
    }
  }

  /** A message by its texts: each size line spells the length of the data behind it, the last one zero. */
  ghost predicate IsSpelled(m: Message) {
    && IsLine(m.line)
    && match m
       case Last(line, trailers) => SpellsSize(line, 0) && AreFieldLines(trailers)
       case Chunk(line, data, more) =>
         SpellsSize(line, |data|) && 0 < |data| <= 0xFFFF_FFFF_FFFF_FFFF && IsSpelled(more)
  }

  /** The decoder's messages are these. */
  lemma {:induction false} MessageIff(m: Message)
    ensures IsMessage(m) <==> IsSpelled(m)
  {
    hide ChunkSize, SpellsSize, IsLine, AreTrailers, AreFieldLines;
    match m
    case Last(line, trailers) =>
      ChunkSizeIff(line, 0);
      TrailersIff(trailers);
    case Chunk(line, data, more) =>
      ChunkSizeIff(line, |data|);
      MessageIff(more);
  }

  // ---- The limits of a message ----

  function TrailerLines(f: Fields): seq<Bytes> {
    match f
    case NoField => [[]]
    case Field(line, more) => [line] + TrailerLines(more)
  }

  /** The size and trailer lines of a message, to the empty one at its end. */
  function MessageLines(m: Message): seq<Bytes> {
    match m
    case Last(line, trailers) => [line] + TrailerLines(trailers)
    case Chunk(line, _, more) => [line] + MessageLines(more)
  }

  function TrailersOf(m: Message): Fields {
    match m
    case Last(_, trailers) => trailers
    case Chunk(_, _, more) => TrailersOf(more)
  }

  predicate AreShort(lines: seq<Bytes>, max: nat) {
    forall i :: 0 <= i < |lines| ==> |lines[i]| + 2 <= max
  }

  lemma {:induction false} ShortMore(line: Bytes, more: seq<Bytes>, max: nat)
    ensures AreShort([line] + more, max) <==> |line| + 2 <= max && AreShort(more, max)
  {
    var all := [line] + more;
    if AreShort(all, max) {
      assert |all[0]| + 2 <= max;
      forall i | 0 <= i < |more| ensures |more[i]| + 2 <= max {
        assert all[i + 1] == more[i];
      }
    }
  }

  lemma {:induction false} TrailersFitIff(f: Fields, total: nat, max: nat)
    ensures TrailersFit(f, total, max) <==>
            AreShort(TrailerLines(f), max) && total + |EncodeTrailers(f, [])| <= 0x1_0000
  {
    match f
    case NoField =>
      ShortMore([], [], max);
      assert [[]] + [] == TrailerLines(f);
    case Field(line, more) =>
      TrailersFitIff(more, total + |line| + 2, max);
      hide AreShort;
      ShortMore(line, TrailerLines(more), max);
  }

  /** A message keeps its limits exactly when each line does, with its end, and the trailers are at most
      64 KiB long, with all their ends. */
  lemma {:induction false} LimitsIff(m: Message, max: nat)
    ensures WithinLimits(m, max) <==>
            AreShort(MessageLines(m), max) && |EncodeTrailers(TrailersOf(m), [])| <= 0x1_0000
  {
    hide AreShort, TrailersFit;
    match m
    case Last(line, trailers) =>
      ShortMore(line, TrailerLines(trailers), max);
      TrailersFitIff(trailers, 0, max);
    case Chunk(line, _, more) =>
      ShortMore(line, MessageLines(more), max);
      LimitsIff(more, max);
  }

  // ---- Writing a message ----

  /** Pieces of data as the coding sends them, with `tail` behind. */
  function Written(pieces: seq<Bytes>, tail: Bytes): Bytes {
    if pieces == [] then "0\r\n\r\n" + tail
    else Render(|pieces[0]|, Hex) + ("\r\n" + (pieces[0] + ("\r\n" + Written(pieces[1..], tail))))
  }

  function Joined(pieces: seq<Bytes>): Bytes {
    if pieces == [] then [] else pieces[0] + Joined(pieces[1..])
  }

  function AsMessage(pieces: seq<Bytes>): Message {
    if pieces == [] then Last("0", NoField)
    else Chunk(Render(|pieces[0]|, Hex), pieces[0], AsMessage(pieces[1..]))
  }

  predicate ArePieces(pieces: seq<Bytes>) {
    forall i :: 0 <= i < |pieces| ==> 0 < |pieces[i]| <= 0xFFFF_FFFF_FFFF_FFFF
  }

  lemma {:induction false} RenderedSize(n: nat)
    ensures SpellsSize(Render(n, Hex), n) && IsLine(Render(n, Hex))
  {
    hide Render, Spells;
    var line := Render(n, Hex);
    RenderedSpells(n, Hex);
    assert line == line + [] == [] + line + [] && AreBlank([]);
    assert SpellsPadded(line, Hex, n);
    NumeralIsLine(line, n);
  }

  lemma {:induction false} NumeralIsLine(line: Bytes, n: nat)
    requires Spells(line, Hex, n)
    ensures IsLine(line)
  {
    NumeralChars(line, Hex, n);
    hide FindFrom, Spells;
    forall j: nat ensures !At(CRLF, line, j) {
      if j + 2 <= |line| {
        assert line[j..j + 2][0] == line[j];
      }
    }
  }

  lemma {:induction false} ZeroSize()
    ensures SpellsSize("0", 0) && IsLine("0")
  {
    RenderedSize(0);
    assert Render(0, Hex) == "0";
  }

  lemma {:induction false} WrittenIsMessage(pieces: seq<Bytes>, tail: Bytes)
    requires ArePieces(pieces)
    ensures var m := AsMessage(pieces);
            IsSpelled(m) && Encode(m, tail) == Written(pieces, tail) && Data(m) == Joined(pieces)
  {
    hide SpellsSize, IsLine, Render;
    if pieces == [] {
      ZeroSize();
      assert Line([], tail) == "\r\n" + tail;
      Regroup("0" + "\r\n", "\r\n", tail);
      assert "0" + ("\r\n" + ("\r\n" + tail)) == "0\r\n\r\n" + tail;
    } else {
      RenderedSize(|pieces[0]|);
      WrittenIsMessage(pieces[1..], tail);
    }
  }

  lemma {:induction false} ShortRendering(n: nat, k: nat)
    requires k > 0 && n < Power(Hex, k)
    ensures |Render(n, Hex)| <= k
    decreases k
  {
    var (high, low) := Unshift(n, Hex);
    if high != 0 {
      assert k > 1;
      ShortRendering(high, k - 1);
    }
  }

  lemma {:induction false} SixteenDigits()
    ensures Power(Hex, 16) == 0x1_0000_0000_0000_0000
  {
    assert Power(Hex, 2) == 256;
    assert Power(Hex, 4) == 65536;
    assert Power(Hex, 6) == 0x100_0000;
    assert Power(Hex, 8) == 0x1_0000_0000;
    assert Power(Hex, 10) == 0x100_0000_0000;
    assert Power(Hex, 12) == 0x1_0000_0000_0000;
    assert Power(Hex, 14) == 0x100_0000_0000_0000;
  }

  lemma {:induction false} WrittenFits(pieces: seq<Bytes>)
    requires ArePieces(pieces)
    ensures WithinLimits(AsMessage(pieces), MAX_CHUNK_LINE_BYTES)
  {
    hide Render, Power;
    if pieces != [] {
      SixteenDigits();
      ShortRendering(|pieces[0]|, 16);
      WrittenFits(pieces[1..]);
    }
  }

  /** Any non-empty pieces of data, written with their sizes in hexadecimal, decode to the pieces, leave what
      follows, and are never refused for the length of a line. */
  lemma {:induction false} WrittenDecodes(pieces: seq<Bytes>, tail: Bytes)
    requires ArePieces(pieces)
    ensures var d := Body(Chunked(0, false, false), Written(pieces, tail));
            d.data == Joined(pieces) && d.end == Complete(tail) && d.fits
  {
    hide Body, IsSpelled;
    WrittenFits(pieces);
    WrittenIsMessage(pieces, tail);
    MessageIff(AsMessage(pieces));
    ChunkedRoundTrip(AsMessage(pieces), tail);
  }
}
