/** Which texts are response heads, and of what: characters, lines and fields spelled out, without the functions
    the parser is made of. */
module HeadRules {
  import opened Octets
  import opened Numbers
  import opened Numerals
  import opened ResponseHeads

  // ---- UTF-8 (RFC 3629) ----

  predicate IsScalar(c: nat) {
    c < 0x110000 && !(0xD800 <= c <= 0xDFFF)
  }

  function Octet(n: nat): Byte
    requires n < 256
  {
    n as char
  }

  function Utf8(c: nat): Bytes
    requires IsScalar(c)
  {
    if c < 0x80 then [Octet(c)]
    else if c < 0x800 then [Octet(0xC0 + c / 64), Octet(0x80 + c % 64)]
    else if c < 0x10000 then [Octet(0xE0 + c / 4096), Octet(0x80 + c / 64 % 64), Octet(0x80 + c % 64)]
    else [Octet(0xF0 + c / 262144), Octet(0x80 + c / 4096 % 64), Octet(0x80 + c / 64 % 64), Octet(0x80 + c % 64)]
  }

  predicate AreScalars(text: seq<nat>) {
    forall i :: 0 <= i < |text| ==> IsScalar(text[i])
  }

  function Utf8All(text: seq<nat>): Bytes
    requires AreScalars(text)
  {
    if text == [] then [] else Utf8(text[0]) + Utf8All(text[1..])
  }

  /** Some text is encoded in these octets. */
  ghost predicate IsText(s: Bytes) {
    exists text: seq<nat> :: AreScalars(text) && s == Utf8All(text)
  }

  lemma {:induction false} ScalarIsTaken(c: nat, rest: Bytes)
    requires IsScalar(c)
    ensures Utf8(c) != [] && Utf8Length(Utf8(c) + rest) == |Utf8(c)|
  {
    var s := Utf8(c) + rest;
    assert forall i :: 0 <= i < |Utf8(c)| ==> s[i] == Utf8(c)[i];
    if 0x800 <= c < 0x10000 {
      ThreeOctets(c);
    } else if c >= 0x10000 {
      FourOctets(c);
    }
  }

  lemma {:induction false} ThreeOctets(c: nat)
    requires IsScalar(c) && 0x800 <= c < 0x10000
    ensures c / 4096 < 16 && (c / 4096 == 0 ==> c / 64 % 64 >= 0x20) && (c / 4096 == 0xD ==> c / 64 % 64 < 0x20)
  {
  }

  lemma {:induction false} FourOctets(c: nat)
    requires IsScalar(c) && c >= 0x10000
    ensures c / 262144 <= 4 && (c / 262144 == 0 ==> c / 4096 % 64 >= 0x10) && (c / 262144 == 4 ==> c / 4096 % 64 < 0x10)
  {
  }

  /** The scalar that a well-formed sequence stands for. */
  lemma {:induction false} TakenIsScalar(s: Bytes) returns (c: nat)
    requires s != [] && Utf8Length(s) > 0
    ensures IsScalar(c) && s[..Utf8Length(s)] == Utf8(c)
  {
    var lead := s[0] as int;
    var n := Utf8Length(s);
    if n == 1 {
      c := lead;
    } else if n == 2 {
      c := (lead - 0xC0) * 64 + (s[1] as int - 0x80);
    } else if n == 3 {
      c := JoinThree(lead - 0xE0, s[1] as int - 0x80, s[2] as int - 0x80);
    } else {
      c := JoinFour(lead - 0xF0, s[1] as int - 0x80, s[2] as int - 0x80, s[3] as int - 0x80);
    }
  }

  lemma {:induction false} JoinThree(x: nat, y: nat, z: nat) returns (c: nat)
    requires x < 16 && y < 64 && z < 64 && (x == 0 ==> y >= 0x20) && (x == 0xD ==> y < 0x20)
    ensures IsScalar(c) && 0x800 <= c < 0x10000 && c / 4096 == x && c / 64 % 64 == y && c % 64 == z
  {
    c := x * 4096 + y * 64 + z;
    assert c / 64 == x * 64 + y;
  }

  lemma {:induction false} JoinFour(w: nat, x: nat, y: nat, z: nat) returns (c: nat)
    requires w <= 4 && x < 64 && y < 64 && z < 64 && (w == 0 ==> x >= 0x10) && (w == 4 ==> x < 0x10)
    ensures IsScalar(c) && c >= 0x10000 && c / 262144 == w && c / 4096 % 64 == x && c / 64 % 64 == y && c % 64 == z
  {
    c := w * 262144 + x * 4096 + y * 64 + z;
    assert c / 64 == w * 4096 + x * 64 + y;
    assert c / 4096 == w * 64 + x;
  }

  lemma {:induction false} TextIsUtf8(text: seq<nat>)
    requires AreScalars(text)
    ensures IsUtf8(Utf8All(text))
  {
    hide Utf8Length, Utf8;
    if text != [] {
      var first, rest := Utf8(text[0]), Utf8All(text[1..]);
      ScalarIsTaken(text[0], rest);
      TextIsUtf8(text[1..]);
      assert (first + rest)[|first|..] == rest;
    }
  }

  lemma {:induction false} Utf8IsText(s: Bytes) returns (text: seq<nat>)
    requires IsUtf8(s)
    ensures AreScalars(text) && s == Utf8All(text)
    decreases |s|
  {
    hide Utf8Length, Utf8;
    if s == [] {
      text := [];
    } else {
      var n := Utf8Length(s);
      var c := TakenIsScalar(s);
      var rest := Utf8IsText(s[n..]);
      text := [c] + rest;
      assert text[1..] == rest && s == s[..n] + s[n..];
    }
  }

  /** The status line's check accepts exactly the encodings of texts. */
  lemma {:induction false} Utf8Iff(s: Bytes)
    ensures IsUtf8(s) <==> IsText(s)
  {
    hide IsUtf8;
    if IsUtf8(s) {
      var text := Utf8IsText(s);
    }
    if IsText(s) {
      var text: seq<nat> :| AreScalars(text) && s == Utf8All(text);
      TextIsUtf8(text);
    }
  }

  // ---- Fields ----

  predicate IsNameChar(c: char) {
    '0' <= c <= '9' || 'a' <= c <= 'z' || 'A' <= c <= 'Z' || c in "!#$%&'*+-.^_`|~"
  }

  predicate IsNameText(name: Bytes) {
    0 < |name| <= 65535 && forall i :: 0 <= i < |name| ==> IsNameChar(name[i])
  }

  /** No control octet but the tab. */
  predicate IsValueText(value: Bytes) {
    forall i :: 0 <= i < |value| ==> value[i] as int == 9 || (value[i] as int >= 32 && value[i] as int != 127)
  }

  predicate NoOuterBlank(value: Bytes) {
    value == [] || (!IsOws(value[0]) && !IsOws(value[|value| - 1]))
  }

  /** The same letters, small. */
  predicate IsLowered(lower: Bytes, name: Bytes) {
    |lower| == |name|
    && forall i :: 0 <= i < |name| ==>
         lower[i] as int == if 'A' <= name[i] <= 'Z' then name[i] as int - 'A' as int + 'a' as int else name[i] as int
  }

  /** A field line: a name in any letter case, a colon, and a value between blanks. */
  ghost predicate IsFieldText(line: Bytes, h: Header) {
    exists name: Bytes, a: Bytes, b: Bytes ::
      && line == name + ([':'] + (a + h.value + b)) && AreBlank(a) && AreBlank(b)
      && IsNameText(name) && IsLowered(h.name, name) && IsValueText(h.value) && NoOuterBlank(h.value)
  }

  lemma {:induction false} NameCharIff(b: Byte)
    ensures IsNameByte(b) <==> IsNameChar(b)
  {
    var s := "!#$%&'*+-.^_`|~";
    assert s == ['!', '#', '$', '%', '&', '\'', '*', '+', '-', '.', '^', '_', '`', '|', '~'];
  }

  lemma {:induction false} NameIff(name: Bytes)
    ensures IsName(name) <==> IsNameText(name)
  {
    hide IsNameByte, IsNameChar;
    forall i | 0 <= i < |name| ensures IsNameByte(name[i]) <==> IsNameChar(name[i]) {
      NameCharIff(name[i]);
    }
  }

  lemma {:induction false} LoweredIff(lower: Bytes, name: Bytes)
    ensures lower == Lower(name) <==> IsLowered(lower, name)
  {
    if IsLowered(lower, name) {
      forall i | 0 <= i < |name| ensures lower[i] == Lower(name)[i] {
        assert lower[i] as int == LowerByte(name[i]) as int;
      }
    }
  }

  lemma {:induction false} NoColon(name: Bytes)
    requires IsNameText(name)
    ensures !Has(':', name)
  {
    assert "!#$%&'*+-.^_`|~" == ['!', '#', '$', '%', '&', '\'', '*', '+', '-', '.', '^', '_', '`', '|', '~'];
  }

  lemma {:induction false} ValueIff(value: Bytes)
    ensures IsValue(value) <==> IsValueText(value)
  {
    assert ' ' as int == 32 && '\t' as int == 9;
  }

  /** A field line is accepted, and as what, exactly when it is such a text. */
  lemma {:induction false} FieldIff(line: Bytes, h: Header)
    ensures ParseField(line) == Some(h) <==> IsFieldText(line, h)
  {
    hide Find, Trim, IsName, IsValue, Lower, IsNameText, IsValueText, IsLowered;
    if ParseField(line) == Some(h) {
      AcceptedField(line, h);
    }
    if IsFieldText(line, h) {
      var name: Bytes, a: Bytes, b: Bytes :|
        && line == name + ([':'] + (a + h.value + b)) && AreBlank(a) && AreBlank(b)
        && IsNameText(name) && IsLowered(h.name, name) && IsValueText(h.value) && NoOuterBlank(h.value);
      NoColon(name);
      FindAfter(':', name, a + h.value + b);
      TrimBetween(a, h.value, b);
      NameIff(name);
      ValueIff(h.value);
      LoweredIff(h.name, name);
    }
  }

  lemma {:induction false} AcceptedField(line: Bytes, h: Header)
    requires ParseField(line) == Some(h)
    ensures IsFieldText(line, h)
  {
    var i := Find(":", line).value;
    ColonAt(line, i);
    hide Find, Trim, IsName, IsValue, Lower, IsNameText, IsValueText, IsLowered;
    var name, after := line[..i], line[i + 1..];
    var a, b := TrimmedEnds(after);
    NameIff(name);
    ValueIff(h.value);
    LoweredIff(h.name, name);
    assert line == name + ([':'] + (a + h.value + b));
  }

  lemma {:induction false} ColonAt(line: Bytes, i: nat)
    requires Find(":", line) == Some(i)
    ensures i < |line| && line == line[..i] + ([':'] + line[i + 1..])
  {
    assert line[i..i + 1] == ":";
    assert line[i] == line[i..i + 1][0];
  }

  // ---- Status lines ----

  /** A version, a blank, a numeral of three digits' worth, and then nothing or a blank and any text. */
  ghost predicate IsStatusText(line: Bytes, version: Version, status: nat) {
    && IsText(line) && 100 <= status <= 999
    && exists code: Bytes, reason: Bytes ::
         && line == (if version.Http10? then "HTTP/1.0" else "HTTP/1.1") + ([' '] + (code + reason))
         && Spells(code, Decimal, status) && (reason == [] || reason[0] == ' ')
  }

  lemma {:induction false} StatusIff(line: Bytes, version: Version, status: nat)
    ensures ParseStatusLine(line) == Some((version, status)) <==> IsStatusText(line, version, status)
  {
    hide IsUtf8, IsText, Spells, CutBlank, Parse;
    Utf8Iff(line);
    if ParseStatusLine(line) == Some((version, status)) {
      AcceptedStatus(line, version, status);
    }
    if IsStatusText(line, version, status) {
      var code: Bytes, reason: Bytes :|
        && line == (if version.Http10? then "HTTP/1.0" else "HTTP/1.1") + ([' '] + (code + reason))
        && Spells(code, Decimal, status) && (reason == [] || reason[0] == ' ');
      NumeralHasNoBlank(code, status);
      VersionCut(version, code + reason);
      CodeCut(code, reason);
      ParseIff(code, Decimal, U16_MAX, status);
    }
  }

  lemma {:induction false} NumeralHasNoBlank(code: Bytes, n: nat)
    requires Spells(code, Decimal, n)
    ensures !Has(' ', code)
  {
    hide Spells;
    NumeralChars(code, Decimal, n);
  }

  lemma {:induction false} VersionCut(version: Version, rest: Bytes)
    ensures var text: Bytes := if version.Http10? then "HTTP/1.0" else "HTTP/1.1";
            CutBlank(text + ([' '] + rest)) == (text, Some(rest)) && VersionOf(text) == Some(version)
  {
    hide Find;
    var text: Bytes := if version.Http10? then "HTTP/1.0" else "HTTP/1.1";
    FindAfter(' ', text, rest);
  }

  lemma {:induction false} CodeCut(code: Bytes, reason: Bytes)
    requires !Has(' ', code) && (reason == [] || reason[0] == ' ')
    ensures CutBlank(code + reason).0 == code
  {
    if reason == [] {
      assert code + reason == code;
      forall j: nat ensures !At(" ", code, j) {
        if j < |code| {
          assert code[j..j + 1][0] == code[j];
        }
      }
      hide FindFrom;
    } else {
      hide Find;
      assert reason == [' '] + reason[1..];
      FindAfter(' ', code, reason[1..]);
    }
  }

  lemma {:induction false} CutIs(s: Bytes)
    ensures var (first, after) := CutBlank(s);
            s == first + (if after.Some? then [' '] + after.value else [])
  {
    match Find(" ", s)
    case None =>
    case Some(i) =>
      assert s[i..i + 1] == " " && s[i] == s[i..i + 1][0];
      assert s == s[..i] + ([' '] + s[i + 1..]);
  }

  lemma {:induction false} AcceptedStatus(line: Bytes, version: Version, status: nat)
    requires ParseStatusLine(line) == Some((version, status))
    ensures IsStatusText(line, version, status)
  {
    hide IsUtf8, IsText, Spells, CutBlank, Parse;
    Utf8Iff(line);
    var rest := CutBlank(line).1.value;
    var (code, after) := CutBlank(rest);
    CutIs(line);
    CutIs(rest);
    ParseIff(code, Decimal, U16_MAX, status);
    var reason: Bytes := if after.Some? then [' '] + after.value else [];
    assert rest == code + reason;
    assert line == (if version.Http10? then "HTTP/1.0" else "HTTP/1.1") + ([' '] + (code + reason));
  }

  // ---- Lines ----

  /** A line, with or without a carriage return behind it and with none in it. */
  predicate EndsLine(raw: Bytes, line: Bytes) {
    !Has('\r', line) && (raw == line || raw == line + ['\r'])
  }

  lemma {:induction false} StripIff(raw: Bytes, line: Bytes)
    ensures StripLine(raw) == Some(line) <==> EndsLine(raw, line)
  {
    if EndsLine(raw, line) && raw == line + ['\r'] {
      assert raw[..|line|] == line;
    }
    if raw != [] && raw[|raw| - 1] == '\r' {
      assert raw == raw[..|raw| - 1] + ['\r'];
      assert Has('\r', raw);
    }
  }

  function Lined(raws: seq<Bytes>): Bytes
    requires raws != []
  {
    if |raws| == 1 then raws[0] else raws[0] + (['\n'] + Lined(raws[1..]))
  }

  predicate AreRaw(raws: seq<Bytes>) {
    raws != [] && forall i :: 0 <= i < |raws| ==> '\n' !in raws[i]
  }

  lemma {:induction false} LinedSplits(raws: seq<Bytes>)
    requires AreRaw(raws)
    ensures Split<Byte>('\n', Lined(raws)) == raws
  {
    if |raws| == 1 {
      SplitPiece<Byte>('\n', raws[0], []);
      assert raws == [raws[0]];
    } else {
      LinedSplits(raws[1..]);
      hide Split;
      Regroup(raws[0], ['\n'], Lined(raws[1..]));
      SplitPiece<Byte>('\n', raws[0], Lined(raws[1..]));
      assert raws == [raws[0]] + raws[1..];
    }
  }

  lemma {:induction false} SplitLines(text: Bytes)
    ensures var raws := Split<Byte>('\n', text);
            AreRaw(raws) && Lined(raws) == text
    decreases |text|
  {
    FirstPiece<Byte>('\n', text);
    var first: Bytes := Split<Byte>('\n', text)[0];
    if |first| == |text| {
      assert text == first;
      SplitPiece<Byte>('\n', first, []);
    } else {
      var rest := text[|first| + 1..];
      SplitLines(rest);
      hide Split;
      assert text == first + ['\n'] + rest;
      Regroup(first, ['\n'], rest);
      SplitPiece<Byte>('\n', first, rest);
      assert ([first] + Split<Byte>('\n', rest))[1..] == Split<Byte>('\n', rest);
    }
  }

  // ---- Heads ----

  ghost predicate IsRawStatus(raw: Bytes, version: Version, status: nat) {
    exists line: Bytes :: EndsLine(raw, line) && IsStatusText(line, version, status)
  }

  ghost predicate IsRawField(raw: Bytes, h: Header) {
    exists line: Bytes :: EndsLine(raw, line) && IsFieldText(line, h)
  }

  /** A status line and a line for each header, each ended by CRLF or by LF alone. */
  ghost predicate IsHeadText(text: Bytes, h: Head) {
    exists raws: seq<Bytes> ::
      && AreRaw(raws) && text == Lined(raws) && |raws| == 1 + |h.headers| && IsRawStatus(raws[0], h.version, h.status)
      && forall i :: 0 <= i < |h.headers| ==> IsRawField(raws[i + 1], h.headers[i])
  }

  lemma {:induction false} RawFieldIff(raw: Bytes, h: Header)
    ensures FieldOf(raw) == Some(h) <==> IsRawField(raw, h)
  {
    hide ParseField, StripLine, EndsLine, IsFieldText;
    forall line: Bytes ensures StripLine(raw) == Some(line) <==> EndsLine(raw, line) {
      StripIff(raw, line);
    }
    forall line: Bytes ensures ParseField(line) == Some(h) <==> IsFieldText(line, h) {
      FieldIff(line, h);
    }
    FieldNeedsText(h);
  }

  lemma {:induction false} FieldNeedsText(h: Header)
    ensures ParseField([]) != Some(h)
  {
    hide IsFieldText;
    FieldIff([], h);
    NoEmptyField(h);
  }

  lemma {:induction false} NoEmptyField(h: Header)
    ensures !IsFieldText([], h)
  {
  }

  lemma {:induction false} FieldsIff(raws: seq<Bytes>, headers: seq<Header>)
    ensures ParseFields(raws) == Some(headers) <==>
            |raws| == |headers| && forall i :: 0 <= i < |headers| ==> IsRawField(raws[i], headers[i])
    decreases |raws|
  {
    hide FieldOf, IsRawField;
    if raws != [] && headers != [] {
      RawFieldIff(raws[0], headers[0]);
      FieldsIff(raws[1..], headers[1..]);
      FieldsStep(raws, headers);
      assert (forall i :: 0 <= i < |headers| && i < |raws| ==> IsRawField(raws[i], headers[i])) <==>
             IsRawField(raws[0], headers[0]) && forall i :: 0 <= i < |headers[1..]| && i < |raws[1..]| ==> IsRawField(raws[1..][i], headers[1..][i]) by {
        FieldsSplit(raws, headers);
      }
    }
  }

  lemma {:induction false} FieldsStep(raws: seq<Bytes>, headers: seq<Header>)
    requires raws != [] && headers != []
    ensures ParseFields(raws) == Some(headers) <==> FieldOf(raws[0]) == Some(headers[0]) && ParseFields(raws[1..]) == Some(headers[1..])
  {
    hide FieldOf;
    var first, more := FieldOf(raws[0]), ParseFields(raws[1..]);
    assert ParseFields(raws) == Onto(first, more);
    assert headers == [headers[0]] + headers[1..];
    if first.Some? && more.Some? {
      var all := [first.value] + more.value;
      assert all[0] == first.value && all[1..] == more.value;
    }
  }

  lemma {:induction false} FieldsSplit(raws: seq<Bytes>, headers: seq<Header>)
    requires raws != [] && headers != []
    ensures (forall i :: 0 <= i < |headers| && i < |raws| ==> IsRawField(raws[i], headers[i])) <==>
            IsRawField(raws[0], headers[0]) && forall i :: 0 <= i < |headers[1..]| && i < |raws[1..]| ==> IsRawField(raws[1..][i], headers[1..][i])
  {
    hide IsRawField;
    var r, h := raws[1..], headers[1..];
    if forall i :: 0 <= i < |headers| && i < |raws| ==> IsRawField(raws[i], headers[i]) {
      forall i | 0 <= i < |h| && i < |r| ensures IsRawField(r[i], h[i]) {
        assert IsRawField(raws[i + 1], headers[i + 1]);
      }
    }
    if IsRawField(raws[0], headers[0]) && forall i :: 0 <= i < |h| && i < |r| ==> IsRawField(r[i], h[i]) {
      forall i | 0 <= i < |headers| && i < |raws| ensures IsRawField(raws[i], headers[i]) {
        if i > 0 {
          assert IsRawField(r[i - 1], h[i - 1]);
        }
      }
    }
  }

  lemma {:induction false} RawStatusIff(raw: Bytes, version: Version, status: nat)
    ensures IsRawStatus(raw, version, status) <==>
            StripLine(raw).Some? && ParseStatusLine(StripLine(raw).value) == Some((version, status))
  {
    hide ParseStatusLine, StripLine, EndsLine, IsStatusText;
    forall line: Bytes ensures StripLine(raw) == Some(line) <==> EndsLine(raw, line) {
      StripIff(raw, line);
    }
    forall line: Bytes ensures ParseStatusLine(line) == Some((version, status)) <==> IsStatusText(line, version, status) {
      StatusIff(line, version, status);
    }
  }

  lemma {:induction false} LinesIff(raws: seq<Bytes>, h: Head)
    requires raws != []
    ensures ParseLines(raws) == Some(h) <==>
            && |raws| == 1 + |h.headers| && IsRawStatus(raws[0], h.version, h.status)
            && forall i :: 0 <= i < |h.headers| ==> IsRawField(raws[i + 1], h.headers[i])
  {
    hide ParseStatusLine, StripLine, IsRawStatus, IsRawField, ParseFields;
    RawStatusIff(raws[0], h.version, h.status);
    FieldsIff(raws[1..], h.headers);
    assert |raws| == 1 + |h.headers| ==> forall i :: 0 <= i < |h.headers| ==> raws[1..][i] == raws[i + 1];
  }

  /** A text is accepted, and as what head, exactly when its status line and every field line are. */
  lemma {:induction false} HeadIff(text: Bytes, h: Head)
    ensures ParseHead(text) == Some(h) <==> IsHeadText(text, h)
  {
    hide ParseLines, IsRawStatus, IsRawField, Split, Lined;
    SplitLines(text);
    LinesIff(Split<Byte>('\n', text), h);
    if IsHeadText(text, h) {
      var raws: seq<Bytes> :|
        && AreRaw(raws) && text == Lined(raws) && |raws| == 1 + |h.headers| && IsRawStatus(raws[0], h.version, h.status)
        && forall i :: 0 <= i < |h.headers| ==> IsRawField(raws[i + 1], h.headers[i]);
      LinedSplits(raws);
    }
  }
}
