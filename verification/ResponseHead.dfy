/** Status line, header fields and the choice of body framing, as the blocking client reads them. */
module ResponseHeads {
  import opened Octets
  import opened Numbers
  import opened BodyFraming

  datatype Version = Http10 | Http11

  /** Names are kept in lower case; fields of one name keep their order. */
  datatype Header = Header(name: Bytes, value: Bytes)

  datatype Head = Head(status: nat, version: Version, headers: seq<Header>)

  const MAX_HEADER_NAME: nat := 0xFFFF

  predicate Has(b: Byte, s: Bytes) {
    exists i :: 0 <= i < |s| && s[i] == b
  }

  // ---- UTF-8, which the status line must be ----

  predicate InRange(s: Bytes, i: nat, low: nat, high: nat) {
    i < |s| && low <= s[i] as int <= high
  }

  /** The length of the well-formed sequence that `s` starts with, or zero. */
  function Utf8Length(s: Bytes): (r: nat)
    requires s != []
    ensures r <= |s|
  {
    var lead := s[0] as int;
    var low := if lead == 0xE0 then 0xA0 else if lead == 0xF0 then 0x90 else 0x80;
    var high := if lead == 0xED then 0x9F else if lead == 0xF4 then 0x8F else 0xBF;
    if lead < 0x80 then 1
    else if lead < 0xC2 || lead > 0xF4 || !InRange(s, 1, low, high) then 0
    else if lead < 0xE0 then 2
    else if !InRange(s, 2, 0x80, 0xBF) then 0
    else if lead < 0xF0 then 3
    else if !InRange(s, 3, 0x80, 0xBF) then 0
    else 4
  }

  predicate IsUtf8(s: Bytes) {
    s == [] || (Utf8Length(s) > 0 && IsUtf8(s[Utf8Length(s)..]))
  }

  // ---- One line at a time ----

  /** Drops one trailing carriage return; no other may be there. */
  function StripLine(line: Bytes): Option<Bytes> {
    var line' := if line != [] && line[|line| - 1] == '\r' then line[..|line| - 1] else line;
    if Has('\r', line') then None else Some(line')
  }

  /** The part of `s` before the first blank, and what follows that blank if there is one. */
  function CutBlank(s: Bytes): (Bytes, Option<Bytes>) {
    match Find(" ", s)
    case None => (s, None)
    case Some(i) => (s[..i], Some(s[i + 1..]))
  }

  function StatusOf(field: Bytes): Option<nat> {
    match Parse(field, Decimal, U16_MAX)
    case Some(n) => if 100 <= n <= 999 then Some(n) else None
    case None => None
  }

  function VersionOf(field: Bytes): Option<Version> {
    if field == "HTTP/1.0" then Some(Http10) else if field == "HTTP/1.1" then Some(Http11) else None
  }

  function ParseStatusLine(line: Bytes): Option<(Version, nat)> {
    var (first, after) := CutBlank(line);
    if !IsUtf8(line) then None
    else
      match (VersionOf(first), after)
      case (Some(version), Some(rest)) =>
        (match StatusOf(CutBlank(rest).0)
         case Some(status) => Some((version, status))
         case None => None)
      case _ => None
  }

  predicate IsNameByte(b: Byte) {
    || '0' <= b <= '9' || 'a' <= b <= 'z' || 'A' <= b <= 'Z'
    || b == '!' || ('#' <= b <= '\'') || b == '*' || b == '+' || b == '-' || b == '.'
    || ('^' <= b <= '`') || b == '|' || b == '~'
  }

  predicate IsName(name: Bytes) {
    0 < |name| <= MAX_HEADER_NAME && forall i :: 0 <= i < |name| ==> IsNameByte(name[i])
  }

  predicate IsValue(value: Bytes) {
    forall i :: 0 <= i < |value| ==> value[i] == '\t' || (value[i] >= ' ' && value[i] as int != 127)
  }

  function LowerByte(b: Byte): Byte {
    if 'A' <= b <= 'Z' then (b as int + 32) as char else b
  }

  function Lower(s: Bytes): Bytes {
    seq(|s|, i requires 0 <= i < |s| => LowerByte(s[i]))
  }

  function ParseField(line: Bytes): Option<Header> {
    match Find(":", line)
    case None => None
    case Some(i) =>
      var name, value := line[..i], Trim(line[i + 1..]);
      if IsName(name) && IsValue(value) then Some(Header(Lower(name), value)) else None
  }

  /** One raw header line; an empty one is an error here, since the head ends before it. */
  function FieldOf(raw: Bytes): Option<Header> {
    match StripLine(raw)
    case Some(line) => if line == [] then None else ParseField(line)
    case None => None
  }

  function ParseFields(lines: seq<Bytes>): Option<seq<Header>> {
    if lines == [] then Some([]) else Onto(FieldOf(lines[0]), ParseFields(lines[1..]))
  }

  function Onto(field: Option<Header>, more: Option<seq<Header>>): Option<seq<Header>> {
    if field.Some? && more.Some? then Some([field.value] + more.value) else None
  }

  function ParseLines(lines: seq<Bytes>): Option<Head>
    requires lines != []
  {
    match StripLine(lines[0])
    case None => None
    case Some(line) =>
      match (ParseStatusLine(line), ParseFields(lines[1..]))
      case (Some((version, status)), Some(headers)) => Some(Head(status, version, headers))
      case _ => None
  }

  function ParseHead(head: Bytes): Option<Head> {
    ParseLines(Split<Byte>('\n', head))
  }

  method ParseHeaderLines(lines: seq<Bytes>) returns (r: Option<seq<Header>>)
    ensures r == ParseFields(lines)
  {
    hide FieldOf;
    var headers: seq<Header> := [];
    assert lines[0..] == lines;
    var i := 0;
    while i < |lines|
      invariant i <= |lines|
      invariant ParseFields(lines) == Behind(headers, ParseFields(lines[i..]))
    {
      var field := FieldOf(lines[i]);
      BehindStep(headers, lines, i);
      if field.None? {
        return None;
      }
      headers := headers + [field.value];
      i := i + 1;
    }
    assert headers + [] == headers;
    r := Some(headers);
  }

  /** The fields already read, in front of those still to come. */
  function Behind(headers: seq<Header>, more: Option<seq<Header>>): (r: Option<seq<Header>>)
    ensures headers == [] ==> r == more
  {
    assert more.Some? ==> [] + more.value == more.value;
    if more.Some? then Some(headers + more.value) else None
  }

  lemma {:induction false} BehindStep(headers: seq<Header>, lines: seq<Bytes>, i: nat)
    requires i < |lines|
    ensures var field := FieldOf(lines[i]);
            Behind(headers, ParseFields(lines[i..])) ==
            if field.None? then None else Behind(headers + [field.value], ParseFields(lines[i + 1..]))
  {
    hide FieldOf;
    var field, more := FieldOf(lines[i]), ParseFields(lines[i + 1..]);
    assert lines[i..][1..] == lines[i + 1..];
    if field.Some? && more.Some? {
      assert headers + ([field.value] + more.value) == (headers + [field.value]) + more.value;
    }
  }

  method ParseResponseHead(head: Bytes) returns (r: Option<Head>)
    ensures r == ParseHead(head)
  {
    var lines := Split<Byte>('\n', head);
    var first := StripLine(lines[0]);
    if first.None? {
      return None;
    }
    var start := ParseStatusLine(first.value);
    if start.None? {
      return None;
    }
    var headers := ParseHeaderLines(lines[1..]);
    if headers.None? {
      return None;
    }
    r := Some(Head(start.value.1, start.value.0, headers.value));
  }

  // ---- How the body is delimited (section 6.3 of RFC 9112) ----

  function Values(headers: seq<Header>, name: Bytes): seq<Bytes> {
    if headers == [] then []
    else (if headers[0].name == name then [headers[0].value] else []) + Values(headers[1..], name)
  }

  /** The non-empty elements of a comma separated list. */
  function Elements(pieces: seq<Bytes>): seq<Bytes> {
    if pieces == [] then []
    else (if Trim(pieces[0]) == [] then [] else [Trim(pieces[0])]) + Elements(pieces[1..])
  }

  function Codings(values: seq<Bytes>): seq<Bytes> {
    if values == [] then [] else Elements(Split<Byte>(',', values[0])) + Codings(values[1..])
  }

  function Length(value: Bytes): Option<nat> {
    Parse(Trim(value), Decimal, U64_MAX)
  }

  predicate IsInformational(status: nat) {
    100 <= status <= 199
  }

  predicate HasNoBody(status: nat, headRequest: bool) {
    headRequest || IsInformational(status) || status == 204 || status == 304
  }

  predicate AllAre(lengths: seq<Bytes>, n: nat) {
    forall i :: 0 <= i < |lengths| ==> Length(lengths[i]) == Some(n)
  }

  function Framing(headers: seq<Header>, status: nat, headRequest: bool): Option<BodyMode> {
    var codings := Codings(Values(headers, "transfer-encoding"));
    var lengths := Values(headers, "content-length");
    if HasNoBody(status, headRequest) then Some(Empty)
    else if codings != [] then
      if lengths == [] && |codings| == 1 && Lower(codings[0]) == "chunked"
      then Some(Chunked(0, false, false)) else None
    else if lengths == [] then Some(Eof)
    else
      match Length(lengths[0])
      case Some(n) => if AllAre(lengths, n) then Some(ContentLength(n)) else None
      case None => None
  }

  method ResponseBodyMode(headers: seq<Header>, status: nat, headRequest: bool) returns (r: Option<BodyMode>)
    ensures r == Framing(headers, status, headRequest)
  {
    hide Codings, Values, Lower, Length;
    if HasNoBody(status, headRequest) {
      return Some(Empty);
    }
    var lengths := Values(headers, "content-length");
    var codings := Codings(Values(headers, "transfer-encoding"));
    if codings != [] {
      if lengths != [] || |codings| != 1 || Lower(codings[0]) != "chunked" {
        return None;
      }
      return Some(Chunked(0, false, false));
    }
    var contentLength: Option<nat> := None;
    for i := 0 to |lengths|
      invariant i == 0 <==> contentLength.None?
      invariant contentLength.Some? ==> AllAre(lengths[..i], contentLength.value)
    {
      var length := Length(lengths[i]);
      if length.None? {
        return None;
      }
      if contentLength.Some? && contentLength != length {
        assert Length(lengths[..i][0]) == contentLength;
        return None;
      }
      contentLength := length;
    }
    assert lengths[..|lengths|] == lengths;
    r := Some(if contentLength.Some? then ContentLength(contentLength.value) else Eof);
  }

  // ---- What the framing depends on ----

  lemma {:induction false} ValuesAppend(a: seq<Header>, b: seq<Header>, name: Bytes)
    ensures Values(a + b, name) == Values(a, name) + Values(b, name)
  {
    if a == [] {
      assert a + b == b;
    } else {
      ValuesAppend(a[1..], b, name);
      assert (a + b)[0] == a[0] && (a + b)[1..] == a[1..] + b;
      var first := if a[0].name == name then [a[0].value] else [];
      assert Values(a, name) == first + Values(a[1..], name) && Values(a + b, name) == first + Values((a + b)[1..], name);
      hide Values;
      Regroup(first, Values(a[1..], name), Values(b, name));
    }
  }

  lemma {:induction false} ElementsAppend(a: seq<Bytes>, b: seq<Bytes>)
    ensures Elements(a + b) == Elements(a) + Elements(b)
  {
    hide Trim;
    if a == [] {
      assert a + b == b;
    } else {
      ElementsAppend(a[1..], b);
      assert (a + b)[0] == a[0] && (a + b)[1..] == a[1..] + b;
      var first := if Trim(a[0]) == [] then [] else [Trim(a[0])];
      assert Elements(a) == first + Elements(a[1..]) && Elements(a + b) == first + Elements((a + b)[1..]);
      hide Elements;
      Regroup(first, Elements(a[1..]), Elements(b));
    }
  }

  lemma {:induction false} CodingsAppend(a: seq<Bytes>, b: seq<Bytes>)
    ensures Codings(a + b) == Codings(a) + Codings(b)
  {
    hide Elements, Split;
    if a == [] {
      assert a + b == b;
    } else {
      CodingsAppend(a[1..], b);
      assert (a + b)[0] == a[0] && (a + b)[1..] == a[1..] + b;
      var first := Elements(Split<Byte>(',', a[0]));
      assert Codings(a) == first + Codings(a[1..]) && Codings(a + b) == first + Codings((a + b)[1..]);
      hide Codings;
      Regroup(first, Codings(a[1..]), Codings(b));
    }
  }

  /** A field of another name, wherever it stands, has no say in the framing. */
  lemma {:induction false} FramingIgnoresOthers(before: seq<Header>, h: Header, after: seq<Header>, status: nat, headRequest: bool)
    requires h.name != "transfer-encoding" && h.name != "content-length"
    ensures Framing(before + [h] + after, status, headRequest) == Framing(before + after, status, headRequest)
  {
    hide Framing;
    SkipsOther(before, h, after, "transfer-encoding");
    SkipsOther(before, h, after, "content-length");
    SameFraming(before + [h] + after, before + after, status, headRequest);
  }

  lemma {:induction false} SkipsOther(before: seq<Header>, h: Header, after: seq<Header>, name: Bytes)
    requires h.name != name
    ensures Values(before + [h] + after, name) == Values(before + after, name)
  {
    ValuesAppend(before + [h], after, name);
    ValuesAppend(before, [h], name);
    ValuesAppend(before, after, name);
    assert Values([h], name) == [];
  }

  lemma {:induction false} SameFraming(a: seq<Header>, b: seq<Header>, status: nat, headRequest: bool)
    requires Values(a, "content-length") == Values(b, "content-length")
    requires Codings(Values(a, "transfer-encoding")) == Codings(Values(b, "transfer-encoding"))
    ensures Framing(a, status, headRequest) == Framing(b, status, headRequest)
  {
  }

  /** Two fields of the list-valued name mean what one field with both lists means, as section 5.3 of
      RFC 9110 asks. */
  lemma {:induction false} FramingCombines(
    before: seq<Header>, x: Bytes, y: Bytes, after: seq<Header>, status: nat, headRequest: bool)
    ensures var name: Bytes := "transfer-encoding";
            Framing(before + [Header(name, x), Header(name, y)] + after, status, headRequest) ==
            Framing(before + [Header(name, x + ([','] + y))] + after, status, headRequest)
  {
    hide Framing, Codings, Elements, Trim;
    var name: Bytes := "transfer-encoding";
    var two, one := [Header(name, x), Header(name, y)], [Header(name, x + ([','] + y))];
    Between(before, two, after, name);
    Between(before, one, after, name);
    Between(before, two, after, "content-length");
    Between(before, one, after, "content-length");
    assert two == [two[0]] + [two[1]];
    ValuesAppend([two[0]], [two[1]], name);
    ValuesAppend([two[0]], [two[1]], "content-length");
    SingleValue(two[0]);
    SingleValue(two[1]);
    SingleValue(one[0]);
    assert Values(two, name) == [x, y];
    CombinedCodings(x, y);
    CodingsBetween(Values(before, name), [x, y], [x + ([','] + y)], Values(after, name));
    SameFraming(before + two + after, before + one + after, status, headRequest);
  }

  lemma {:induction false} SingleValue(h: Header)
    ensures Values([h], h.name) == [h.value]
    ensures h.name != "content-length" ==> Values([h], "content-length") == []
  {
  }

  lemma {:induction false} Between(before: seq<Header>, middle: seq<Header>, after: seq<Header>, name: Bytes)
    ensures Values(before + middle + after, name) == Values(before, name) + Values(middle, name) + Values(after, name)
  {
    ValuesAppend(before + middle, after, name);
    ValuesAppend(before, middle, name);
  }

  lemma {:induction false} CodingsBetween(before: seq<Bytes>, a: seq<Bytes>, b: seq<Bytes>, after: seq<Bytes>)
    requires Codings(a) == Codings(b)
    ensures Codings(before + a + after) == Codings(before + b + after)
  {
    CodingsAppend(before + a, after);
    CodingsAppend(before, a);
    CodingsAppend(before + b, after);
    CodingsAppend(before, b);
  }

  lemma {:induction false} CombinedCodings(x: Bytes, y: Bytes)
    ensures Codings([x, y]) == Codings([x + ([','] + y)])
  {
    hide Elements;
    var both: Bytes := x + ([','] + y);
    SplitJoin<Byte>(',', x, y);
    ElementsAppend(Split<Byte>(',', x), Split<Byte>(',', y));
    assert [x, y] == [x] + [y];
    CodingsAppend([x], [y]);
    OneField(x);
    OneField(y);
    OneField(both);
  }

  lemma {:induction false} OneField(x: Bytes)
    ensures Codings([x]) == Elements(Split<Byte>(',', x))
  {
    assert Codings([x][1..]) == [];
  }

  // ---- Rendering a head, to be read back ----

  /** What a head must be for its rendering to mean it: names in lower case, values without outer
      blanks. */
  predicate IsHead(h: Head) {
    && 100 <= h.status <= 999
    && forall i :: 0 <= i < |h.headers| ==> IsHeader(h.headers[i])
  }

  predicate IsHeader(h: Header) {
    && IsName(h.name) && Lower(h.name) == h.name
    && IsValue(h.value) && (h.value != [] ==> !IsOws(h.value[0]) && !IsOws(h.value[|h.value| - 1]))
  }

  predicate IsReason(reason: Bytes) {
    IsUtf8(reason) && !Has('\r', reason) && !Has('\n', reason)
  }

  function VersionText(version: Version): Bytes {
    if version.Http10? then "HTTP/1.0" else "HTTP/1.1"
  }

  function StatusText(h: Head, reason: Bytes): Bytes {
    VersionText(h.version) + ([' '] + (Render(h.status, Decimal) + ([' '] + reason)))
  }

  function FieldText(h: Header): Bytes {
    h.name + ([':'] + ([' '] + h.value))
  }

  /** The given line, with a line for each header behind it. */
  function HeadText(line: Bytes, headers: seq<Header>): (r: Bytes)
    ensures line <= r
    decreases |headers|
  {
    if headers == [] then line else Line(line, HeadText(FieldText(headers[0]), headers[1..]))
  }

  function RenderHead(h: Head, reason: Bytes): Bytes {
    HeadText(StatusText(h, reason), h.headers)
  }

  /** A non-empty line without a carriage return or line feed in it. */
  predicate IsPlain(line: Bytes) {
    line != [] && forall i :: 0 <= i < |line| ==> line[i] != '\r' && line[i] != '\n'
  }

  lemma {:induction false} FindAfter(c: Byte, before: Bytes, after: Bytes)
    requires !Has(c, before)
    ensures var s := before + ([c] + after);
            Find([c], s) == Some(|before|) && s[..|before|] == before && s[|before| + 1..] == after
  {
    var s := before + ([c] + after);
    assert s[|before|..|before| + 1] == [c];
    forall j: nat | j < |before| ensures !At([c], s, j) {
      assert s[j..j + 1][0] == before[j];
    }
    FirstIs([c], s, |before|);
  }

  lemma {:induction false} AsciiThenUtf8(ascii: Bytes, s: Bytes)
    requires forall i :: 0 <= i < |ascii| ==> ascii[i] as int < 0x80
    requires IsUtf8(s)
    ensures IsUtf8(ascii + s)
  {
    if ascii == [] {
      assert ascii + s == s;
    } else {
      AsciiThenUtf8(ascii[1..], s);
      assert (ascii + s)[1..] == ascii[1..] + s;
    }
  }

  lemma {:induction false} StatusLineReadBack(h: Head, reason: Bytes)
    requires IsHead(h) && IsReason(reason)
    ensures ParseStatusLine(StatusText(h, reason)) == Some((h.version, h.status))
    ensures IsPlain(StatusText(h, reason))
  {
    hide IsUtf8, Parse, Render, Find, IsPlain;
    var version, status := VersionText(h.version), Render(h.status, Decimal);
    var rest: Bytes := status + ([' '] + reason);
    NoBlanks(h);
    FindAfter(' ', version, rest);
    FindAfter(' ', status, reason);
    RenderedParses(h.status, Decimal, U16_MAX);
    StatusTextIsPlain(h, reason);
    hide Has, VersionText;
    assert CutBlank(StatusText(h, reason)) == (version, Some(rest)) && CutBlank(rest).0 == status;
    VersionReadBack(h.version);
  }

  lemma {:induction false} NoBlanks(h: Head)
    ensures !Has(' ', VersionText(h.version)) && !Has(' ', Render(h.status, Decimal))
  {
    hide Render;
  }

  lemma {:induction false} VersionReadBack(version: Version)
    ensures VersionOf(VersionText(version)) == Some(version)
  {
  }

  lemma {:induction false} StatusTextIsPlain(h: Head, reason: Bytes)
    requires IsReason(reason)
    ensures IsUtf8(StatusText(h, reason)) && IsPlain(StatusText(h, reason))
  {
    hide IsUtf8, Render;
    var version, status := VersionText(h.version), Render(h.status, Decimal);
    var ascii: Bytes := version + ([' '] + (status + [' ']));
    assert StatusText(h, reason) == ascii + reason;
    AsciiThenUtf8(ascii, reason);
  }

  lemma {:induction false} FieldReadBack(h: Header)
    requires IsHeader(h)
    ensures ParseField(FieldText(h)) == Some(h) && IsPlain(FieldText(h))
  {
    hide FindFrom, At, Trim;
    FindAfter(':', h.name, [' '] + h.value);
    TrimNothing(h.value);
  }

  lemma {:induction false} PlainLine(line: Bytes)
    requires IsPlain(line)
    ensures StripLine(line) == Some(line) && StripLine(line + ['\r']) == Some(line)
  {
    assert (line + ['\r'])[..|line|] == line;
  }

  lemma {:induction false} FieldsReadBack(line: Bytes, headers: seq<Header>)
    requires IsPlain(line) && forall i :: 0 <= i < |headers| ==> IsHeader(headers[i])
    ensures var lines := Split<Byte>('\n', HeadText(line, headers));
            lines != [] && StripLine(lines[0]) == Some(line) && ParseFields(lines[1..]) == Some(headers)
    decreases |headers|
  {
    hide StripLine, ParseField, FieldText, IsHeader;
    PlainLine(line);
    if headers == [] {
      SplitPiece<Byte>('\n', line, []);
    } else {
      var next := FieldText(headers[0]);
      FieldReadBack(headers[0]);
      FieldsReadBack(next, headers[1..]);
      var more := HeadText(next, headers[1..]);
      var raw: Bytes := line + ['\r'];
      assert HeadText(line, headers) == raw + ['\n'] + more;
      SplitPiece<Byte>('\n', raw, more);
      assert ([raw] + Split<Byte>('\n', more))[1..] == Split<Byte>('\n', more);
      assert [headers[0]] + headers[1..] == headers;
    }
  }

  /** A rendered head is read back as it was. */
  lemma {:induction false} HeadReadBack(h: Head, reason: Bytes)
    requires IsHead(h) && IsReason(reason)
    ensures ParseHead(RenderHead(h, reason)) == Some(h)
  {
    hide ParseStatusLine, StatusText;
    StatusLineReadBack(h, reason);
    FieldsReadBack(StatusText(h, reason), h.headers);
  }

  lemma {:induction false} FieldIsHeader(line: Bytes)
    ensures ParseField(line).Some? ==> IsHeader(ParseField(line).value)
  {
    hide Find, Trim;
    if ParseField(line).Some? {
      var i := Find(":", line).value;
      var _, _ := TrimmedEnds(line[i + 1..]);
      LowerName(line[..i]);
    }
  }

  lemma {:induction false} LowerName(name: Bytes)
    ensures Lower(Lower(name)) == Lower(name) && (IsName(name) ==> IsName(Lower(name)))
  {
  }

  lemma {:induction false} FieldsAreHeaders(lines: seq<Bytes>)
    ensures var r := ParseFields(lines);
            r.Some? ==> forall i :: 0 <= i < |r.value| ==> IsHeader(r.value[i])
  {
    hide FieldOf, IsHeader;
    if lines != [] {
      var first, more := FieldOf(lines[0]), ParseFields(lines[1..]);
      LineIsHeader(lines[0]);
      FieldsAreHeaders(lines[1..]);
      assert ParseFields(lines) == Onto(first, more);
      hide ParseFields;
      if first.Some? && more.Some? {
        var all := [first.value] + more.value;
        forall i | 0 <= i < |all| ensures IsHeader(all[i]) {
          assert all[i] == if i == 0 then first.value else more.value[i - 1];
        }
      }
    }
  }

  lemma {:induction false} LineIsHeader(raw: Bytes)
    ensures FieldOf(raw).Some? ==> IsHeader(FieldOf(raw).value)
  {
    hide ParseField, IsHeader, StripLine;
    if StripLine(raw).Some? {
      FieldIsHeader(StripLine(raw).value);
    }
  }

  /** Whatever is accepted is a head in canonical form, and is read back from its rendering: parsing is
      a projection onto canonical heads. */
  lemma {:induction false} ParsedIsHead(head: Bytes, reason: Bytes)
    requires IsReason(reason)
    ensures ParseHead(head).Some? ==>
              var h := ParseHead(head).value;
              IsHead(h) && ParseHead(RenderHead(h, reason)) == Some(h)
  {
    var lines := Split<Byte>('\n', head);
    FieldsAreHeaders(lines[1..]);
    hide IsHeader, ParseFields, StripLine, IsUtf8, CutBlank, VersionOf;
    if ParseHead(head).Some? {
      HeadReadBack(ParseHead(head).value, reason);
    }
  }

  /** And it ends where the empty line behind it begins, not before. */
  lemma {:induction false} HeadEnds(line: Bytes, headers: seq<Header>, tail: Bytes)
    requires IsPlain(line) && forall i :: 0 <= i < |headers| ==> IsHeader(headers[i])
    ensures Find(CRLF_CRLF, HeadText(line, headers) + (CRLF_CRLF + tail)) == Some(|HeadText(line, headers)|)
    decreases |headers|
  {
    hide ParseField, FieldText, IsHeader, FindFrom, At;
    if headers == [] {
      PlainThenEnd(line, tail);
    } else {
      var next := FieldText(headers[0]);
      FieldReadBack(headers[0]);
      HeadEnds(next, headers[1..], tail);
      var more := HeadText(next, headers[1..]);
      assert HeadText(line, headers) + (CRLF_CRLF + tail) == Line(line, more + (CRLF_CRLF + tail));
      PlainThenMore(line, more + (CRLF_CRLF + tail));
    }
  }

  lemma {:induction false} PlainThenEnd(line: Bytes, tail: Bytes)
    requires IsPlain(line)
    ensures Find(CRLF_CRLF, line + (CRLF_CRLF + tail)) == Some(|line|)
  {
    var s := line + (CRLF_CRLF + tail);
    assert s[|line|..|line| + 4] == CRLF_CRLF;
    forall j: nat | j < |line| ensures !At(CRLF_CRLF, s, j) {
      if j + 4 <= |s| {
        assert s[j..j + 4][0] == line[j];
      }
    }
    FirstIs(CRLF_CRLF, s, |line|);
  }

  lemma {:induction false} NotYet(line: Bytes, more: Bytes, j: nat)
    requires IsPlain(line) && more != [] && more[0] != '\r' && j < |line| + 2
    ensures !At(CRLF_CRLF, Line(line, more), j)
  {
    var s := Line(line, more);
    if j + 4 <= |s| {
      var window := s[j..j + 4];
      assert window[0] == s[j] && window[2] == s[j + 2];
      if j < |line| {
        assert s[j] == line[j];
      } else if j == |line| {
        assert s[j + 2] == more[0];
      } else {
        assert s[j] == '\n';
      }
    }
  }

  lemma {:induction false} PlainThenMore(line: Bytes, more: Bytes)
    requires IsPlain(line) && more != [] && more[0] != '\r' && Find(CRLF_CRLF, more).Some?
    ensures Find(CRLF_CRLF, Line(line, more)) == Some(|line| + 2 + Find(CRLF_CRLF, more).value)
  {
    var s, k := Line(line, more), Find(CRLF_CRLF, more).value;
    var front := line + CRLF;
    assert s == front + more;
    forall j: nat | j < |front| ensures !At(CRLF_CRLF, s, j) {
      NotYet(line, more, j);
    }
    hide Line;
    forall j: nat | |front| <= j ensures At(CRLF_CRLF, s, j) == At(CRLF_CRLF, more, j - |front|) {
      AtShift(CRLF_CRLF, front, more, j - |front|);
    }
    FirstIs(CRLF_CRLF, s, |front| + k);
  }
}
