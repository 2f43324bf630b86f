/** Server-sent events: the encoder, the stream that keeps an idle connection alive, and the event
    stream interpretation of section 9.2.6 of the HTML Standard, which both are proved against. */
module Sse {
  import opened Octets
  import opened Numbers

  datatype Event = Event(
    data: Option<string>, event: Option<string>, id: Option<string>, retry: Option<nat>, comments: seq<string>)

  // ---- Encoding ----

  function Terminated(lines: seq<string>): string {
    if lines == [] then "" else lines[0] + ("\n" + Terminated(lines[1..]))
  }

  function Prefixed(prefix: string, lines: seq<string>): seq<string> {
    seq(|lines|, i requires 0 <= i < |lines| => prefix + lines[i])
  }

  function DataLines(e: Event): seq<string> {
    if e.data.Some? then Prefixed("data: ", Split('\n', e.data.value)) else []
  }

  function Optional(prefix: string, value: Option<string>): seq<string> {
    if value.Some? then [prefix + value.value] else []
  }

  function RetryText(e: Event): Option<string> {
    if e.retry.Some? then Some(Render(e.retry.value, Decimal)) else None
  }

  /** The lines of an encoded event; the empty one at the end dispatches it. */
  function EventLines(e: Event): seq<string> {
    Prefixed(":", e.comments) + DataLines(e) + Optional("event: ", e.event) + Optional("id: ", e.id)
    + Optional("retry: ", RetryText(e)) + [""]
  }

  function Encode(e: Event): string {
    Terminated(EventLines(e))
  }

  function EncodeAll(events: seq<Event>): string {
    if events == [] then "" else Encode(events[0]) + EncodeAll(events[1..])
  }

  lemma {:induction false} TerminatedAppend(a: seq<string>, b: seq<string>)
    ensures Terminated(a + b) == Terminated(a) + Terminated(b)
  {
    if a == [] {
      assert a + b == b;
    } else {
      TerminatedAppend(a[1..], b);
      assert (a + b)[1..] == a[1..] + b;
      assert a[0] + ("\n" + (Terminated(a[1..]) + Terminated(b))) == (a[0] + ("\n" + Terminated(a[1..]))) + Terminated(b);
    }
  }

  lemma {:induction false} TerminatedOne(line: string)
    ensures Terminated([line]) == line + "\n"
  {
    assert Terminated([line][1..]) == "";
  }

  method PushLines(output: string, prefix: string, lines: seq<string>) returns (r: string)
    ensures r == output + Terminated(Prefixed(prefix, lines))
  {
    r := output;
    var i := 0;
    while i < |lines|
      invariant i <= |lines| && r == output + Terminated(Prefixed(prefix, lines[..i]))
    {
      assert Prefixed(prefix, lines[..i + 1]) == Prefixed(prefix, lines[..i]) + [prefix + lines[i]];
      hide Prefixed, Terminated;
      var line := prefix + lines[i];
      TerminatedAppend(Prefixed(prefix, lines[..i]), [line]);
      TerminatedOne(line);
      Regroup(output, Terminated(Prefixed(prefix, lines[..i])), line + "\n");
      Regroup(r, line, "\n");
      Regroup(r, prefix, lines[i]);
      r := r + prefix;
      r := r + lines[i];
      r := r + "\n";
      i := i + 1;
    }
    assert lines[..i] == lines;
  }

  method EncodeEvent(e: Event) returns (output: string)
    ensures output == Encode(e)
  {
    hide Split, Render;
    output := PushLines("", ":", e.comments);
    ghost var lines := Prefixed(":", e.comments);
    if e.data.Some? {
      output := PushLines(output, "data: ", Split('\n', e.data.value));
    }
    TerminatedAppend(lines, DataLines(e));
    lines := lines + DataLines(e);
    output := PushOptional(output, "event: ", e.event, lines);
    lines := lines + Optional("event: ", e.event);
    output := PushOptional(output, "id: ", e.id, lines);
    lines := lines + Optional("id: ", e.id);
    output := PushOptional(output, "retry: ", RetryText(e), lines);
    lines := lines + Optional("retry: ", RetryText(e));
    TerminatedAppend(lines, [""]);
    TerminatedOne("");
    output := output + "\n";
    assert lines + [""] == EventLines(e);
  }

  method PushOptional(output: string, prefix: string, value: Option<string>, ghost lines: seq<string>) returns (r: string)
    requires output == Terminated(lines)
    ensures r == Terminated(lines + Optional(prefix, value))
  {
    r := output;
    TerminatedAppend(lines, Optional(prefix, value));
    if value.Some? {
      TerminatedOne(prefix + value.value);
      r := r + prefix + value.value + "\n";
    }
  }

  // ---- Interpreting an event stream ----

  datatype Message = Message(data: string, kind: string, lastEventId: string)

  datatype Decoder = Decoder(data: string, kind: string, lastEventId: string, retry: Option<nat>, out: seq<Message>)

  const NEW := Decoder("", "", "", None, [])

  predicate IsBreak(c: char) {
    c == '\r' || c == '\n'
  }

  function FirstBreak(s: string): (r: nat)
    ensures r <= |s| && (r < |s| ==> IsBreak(s[r]))
    ensures forall i :: 0 <= i < r ==> !IsBreak(s[i])
  {
    if s == "" || IsBreak(s[0]) then 0 else 1 + FirstBreak(s[1..])
  }

  /** The terminated lines of a stream: a line ends with CRLF, LF or CR. */
  function Lines(s: string): seq<string>
    decreases |s|
  {
    var i := FirstBreak(s);
    if i == |s| then []
    else [s[..i]] + Lines(if s[i] == '\r' && i + 1 < |s| && s[i + 1] == '\n' then s[i + 2..] else s[i + 1..])
  }

  function Field(d: Decoder, name: string, value: string): Decoder {
    if name == "event" then d.(kind := value)
    else if name == "data" then d.(data := d.data + value + "\n")
    else if name == "id" then if HasNul(value) then d else d.(lastEventId := value)
    else if name == "retry" then
      if value != "" && (forall i :: 0 <= i < |value| ==> '0' <= value[i] <= '9') && Value(value, Decimal).Some?
      then d.(retry := Value(value, Decimal)) else d
    else d
  }

  predicate HasNul(s: string) {
    exists i :: 0 <= i < |s| && s[i] == '\0'
  }

  function Dispatch(d: Decoder): Decoder {
    if d.data == "" then d.(kind := "")
    else
      var data := if d.data[|d.data| - 1] == '\n' then d.data[..|d.data| - 1] else d.data;
      var kind := if d.kind == "" then "message" else d.kind;
      d.(data := "", kind := "", out := d.out + [Message(data, kind, d.lastEventId)])
  }

  function StripBlank(s: string): string {
    if s != "" && s[0] == ' ' then s[1..] else s
  }

  function TakeLine(d: Decoder, line: string): Decoder {
    if line == "" then Dispatch(d)
    else
      match Find(":", line)
      case None => Field(d, line, "")
      case Some(i) => if i == 0 then d else Field(d, line[..i], StripBlank(line[i + 1..]))
  }

  function TakeAll(d: Decoder, lines: seq<string>): Decoder
    decreases |lines|
  {
    if lines == [] then d else TakeAll(TakeLine(d, lines[0]), lines[1..])
  }

  function StripBom(s: string): string {
    if s != "" && s[0] == '\U{FEFF}' then s[1..] else s
  }

  function Decode(s: string): Decoder {
    TakeAll(NEW, Lines(StripBom(s)))
  }

  // ---- What a sequence of events means ----

  predicate IsPlain(s: string) {
    forall i :: 0 <= i < |s| ==> !IsBreak(s[i])
  }

  /** Exactly what an event must satisfy to survive the line-based format. Comments are checked when
      they are added. */
  predicate Clean(e: Event) {
    && (e.data.Some? ==> forall i :: 0 <= i < |e.data.value| ==> e.data.value[i] != '\r')
    && (e.event.Some? ==> IsPlain(e.event.value))
    && (e.id.Some? ==> IsPlain(e.id.value) && !HasNul(e.id.value))
  }

  predicate CommentsPlain(e: Event) {
    forall i :: 0 <= i < |e.comments| ==> IsPlain(e.comments[i])
  }

  /** One event's effect on an idle decoder. */
  function Meant(d: Decoder, e: Event): Decoder {
    var id := if e.id.Some? then e.id.value else d.lastEventId;
    var retry := if e.retry.Some? then e.retry else d.retry;
    var kind := if e.event.Some? && e.event.value != "" then e.event.value else "message";
    d.(lastEventId := id, retry := retry,
       out := d.out + if e.data.Some? then [Message(e.data.value, kind, id)] else [])
  }

  function MeantAll(d: Decoder, events: seq<Event>): Decoder
    decreases |events|
  {
    if events == [] then d else MeantAll(Meant(d, events[0]), events[1..])
  }

  // ---- Reading back what was written ----

  lemma {:induction false} BreakAfter(line: string, rest: string)
    requires IsPlain(line)
    ensures FirstBreak(line + ("\n" + rest)) == |line|
  {
    hide FirstBreak;
    var s := line + ("\n" + rest);
    assert s[|line|] == '\n' && forall k :: 0 <= k < |line| ==> s[k] == line[k];
  }

  lemma {:induction false} LineIsTaken(line: string, rest: string)
    requires IsPlain(line)
    ensures Lines(line + ("\n" + rest)) == [line] + Lines(rest)
  {
    hide FirstBreak, IsPlain;
    var s := line + ("\n" + rest);
    BreakAfter(line, rest);
    assert s[|line|] == '\n' && s[..|line|] == line && s[|line| + 1..] == rest;
  }

  lemma {:induction false} LinesAreTaken(lines: seq<string>, rest: string)
    requires forall i :: 0 <= i < |lines| ==> IsPlain(lines[i])
    ensures Lines(Terminated(lines) + rest) == lines + Lines(rest)
    decreases |lines|
  {
    hide Lines, FirstBreak, IsPlain;
    if lines == [] {
      assert Terminated(lines) + rest == rest;
    } else {
      TerminatedThen(lines, rest);
      LineIsTaken(lines[0], Terminated(lines[1..]) + rest);
      LinesAreTaken(lines[1..], rest);
      hide Terminated;
      assert [lines[0]] + (lines[1..] + Lines(rest)) == lines + Lines(rest);
    }
  }

  lemma {:induction false} TerminatedThen(lines: seq<string>, rest: string)
    requires lines != []
    ensures Terminated(lines) + rest == lines[0] + ("\n" + (Terminated(lines[1..]) + rest))
  {
  }

  lemma {:induction false} TakeAppend(d: Decoder, a: seq<string>, b: seq<string>)
    ensures TakeAll(d, a + b) == TakeAll(TakeAll(d, a), b)
    decreases |a|
  {
    hide TakeLine;
    if a == [] {
      assert a + b == b;
    } else {
      TakeAppend(TakeLine(d, a[0]), a[1..], b);
      assert (a + b)[1..] == a[1..] + b;
    }
  }

  lemma {:induction false} FieldIsTaken(d: Decoder, name: string, value: string)
    requires name != "" && forall i :: 0 <= i < |name| ==> name[i] != ':'
    ensures TakeLine(d, name + ": " + value) == Field(d, name, value)
  {
    var line := name + ": " + value;
    ColonAfter(name, value);
    hide Find, Field;
    assert line[..|name|] == name && line[|name| + 1..] == " " + value;
    assert (" " + value)[1..] == value;
  }

  lemma {:induction false} ColonAfter(name: string, value: string)
    requires forall i :: 0 <= i < |name| ==> name[i] != ':'
    ensures Find(":", name + ": " + value) == Some(|name|)
  {
    hide FindFrom;
    var line := name + ": " + value;
    assert line[|name|..|name| + 1] == ":";
    forall j: nat | j < |name| ensures !At(":", line, j) {
      assert line[j..j + 1][0] == name[j];
    }
    FirstIs(":", line, |name|);
  }

  lemma {:induction false} CommentIsIgnored(d: Decoder, text: string)
    ensures TakeLine(d, ":" + text) == d
  {
    assert (":" + text)[0..1] == ":";
    FirstIs(":", ":" + text, 0);
  }

  lemma {:induction false} CommentsAreIgnored(d: Decoder, comments: seq<string>)
    ensures TakeAll(d, Prefixed(":", comments)) == d
  {
    hide TakeLine;
    if comments != [] {
      CommentIsIgnored(d, comments[0]);
      assert Prefixed(":", comments)[1..] == Prefixed(":", comments[1..]);
      CommentsAreIgnored(d, comments[1..]);
    }
  }

  lemma {:induction false} DataIsTaken(d: Decoder, lines: seq<string>)
    ensures TakeAll(d, Prefixed("data: ", lines)) == d.(data := d.data + Terminated(lines))
    decreases |lines|
  {
    hide TakeLine;
    if lines == [] {
      assert d.data + "" == d.data;
    } else {
      FieldIsTaken(d, "data", lines[0]);
      assert "data: " + lines[0] == "data" + ": " + lines[0];
      var d' := Field(d, "data", lines[0]);
      assert Prefixed("data: ", lines)[1..] == Prefixed("data: ", lines[1..]);
      DataIsTaken(d', lines[1..]);
      assert d.data + lines[0] + "\n" + Terminated(lines[1..]) == d.data + (lines[0] + ("\n" + Terminated(lines[1..])));
    }
  }

  lemma {:induction false} SplitThenTerminate(s: string)
    ensures Terminated(Split('\n', s)) == s + "\n"
  {
    if s == "" {
      assert Split('\n', s) == [""];
      TerminatedOne("");
    } else {
      var rest := Split('\n', s[1..]);
      SplitThenTerminate(s[1..]);
      assert s == [s[0]] + s[1..];
      if s[0] == '\n' {
        assert ([""] + rest)[1..] == rest;
      } else {
        var first := [s[0]] + rest[0];
        assert ([first] + rest[1..])[1..] == rest[1..];
        assert first + ("\n" + Terminated(rest[1..])) == [s[0]] + (rest[0] + ("\n" + Terminated(rest[1..])));
      }
    }
  }

  lemma {:induction false} OptionalIsTaken(d: Decoder, name: string, value: Option<string>)
    requires name != "" && forall i :: 0 <= i < |name| ==> name[i] != ':'
    ensures TakeAll(d, Optional(name + ": ", value)) == if value.Some? then Field(d, name, value.value) else d
  {
    hide TakeLine;
    if value.Some? {
      FieldIsTaken(d, name, value.value);
      var lines := Optional(name + ": ", value);
      assert lines[0] == name + ": " + value.value && lines[1..] == [];
    }
  }

  lemma {:induction false} RetryIsTaken(d: Decoder, e: Event)
    ensures TakeAll(d, Optional("retry: ", RetryText(e))) == if e.retry.Some? then d.(retry := e.retry) else d
  {
    hide TakeAll, Optional, Render;
    assert "retry" + ": " == "retry: ";
    OptionalIsTaken(d, "retry", RetryText(e));
    if e.retry.Some? {
      RenderedValue(e.retry.value, Decimal);
      DecimalDigits(e.retry.value);
    }
  }

  lemma {:induction false} DecimalDigits(n: nat)
    ensures forall i :: 0 <= i < |Render(n, Decimal)| ==> '0' <= Render(n, Decimal)[i] <= '9'
  {
    var (high, low) := Unshift(n, Decimal);
    if high != 0 {
      DecimalDigits(high);
    }
  }

  /** A clean event does to an idle decoder what it means. */
  lemma {:induction false} EventIsTaken(d: Decoder, e: Event)
    requires d.data == "" && d.kind == "" && Clean(e)
    ensures TakeAll(d, EventLines(e)) == Meant(d, e)
  {
    hide TakeAll, TakeLine, Prefixed, DataLines, Optional, RetryText;
    CommentsAreIgnored(d, e.comments);
    DataLinesAreTaken(d, e);
    var d1 := if e.data.Some? then d.(data := e.data.value + "\n") else d;
    OptionalIsTaken(d1, "event", e.event);
    var d2 := if e.event.Some? then d1.(kind := e.event.value) else d1;
    OptionalIsTaken(d2, "id", e.id);
    var d3 := if e.id.Some? then d2.(lastEventId := e.id.value) else d2;
    RetryIsTaken(d3, e);
    assert "event" + ": " == "event: " && "id" + ": " == "id: ";
    TakeInTurn(d, Prefixed(":", e.comments), DataLines(e), Optional("event: ", e.event), Optional("id: ", e.id),
               Optional("retry: ", RetryText(e)));
    if e.data.Some? {
      assert (e.data.value + "\n")[..|e.data.value|] == e.data.value;
    }
  }

  lemma {:induction false} TakeInTurn(
    d: Decoder, a: seq<string>, b: seq<string>, c: seq<string>, e: seq<string>, f: seq<string>)
    ensures TakeAll(d, a + b + c + e + f + [""]) == Dispatch(TakeAll(TakeAll(TakeAll(TakeAll(TakeAll(d, a), b), c), e), f))
  {
    hide TakeAll, Dispatch;
    TakeAppend(d, a, b);
    TakeAppend(d, a + b, c);
    TakeAppend(d, a + b + c, e);
    TakeAppend(d, a + b + c + e, f);
    TakeAppend(d, a + b + c + e + f, [""]);
    BlankDispatches(TakeAll(d, a + b + c + e + f));
  }

  lemma {:induction false} DataLinesAreTaken(d: Decoder, e: Event)
    requires d.data == ""
    ensures TakeAll(d, DataLines(e)) == if e.data.Some? then d.(data := e.data.value + "\n") else d
  {
    hide TakeAll, Split;
    if e.data.Some? {
      DataIsTaken(d, Split('\n', e.data.value));
      SplitThenTerminate(e.data.value);
      assert "" + (e.data.value + "\n") == e.data.value + "\n";
    } else {
      TakeNothing(d);
    }
  }

  lemma {:induction false} TakeNothing(d: Decoder)
    ensures TakeAll(d, []) == d
  {
  }

  lemma {:induction false} BlankDispatches(d: Decoder)
    ensures TakeAll(d, [""]) == Dispatch(d)
  {
    assert [""][1..] == [];
  }

  lemma {:induction false} PiecesOf(sep: char, s: string, c: char)
    requires forall i :: 0 <= i < |s| ==> s[i] != c
    ensures forall i, j :: 0 <= i < |Split(sep, s)| && 0 <= j < |Split(sep, s)[i]| ==> Split(sep, s)[i][j] != c
  {
    if s != "" {
      PiecesOf(sep, s[1..], c);
    }
  }

  lemma {:induction false} EventLinesArePlain(e: Event)
    requires Clean(e) && CommentsPlain(e)
    ensures forall i :: 0 <= i < |EventLines(e)| ==> IsPlain(EventLines(e)[i])
  {
    hide Split, Render, Value;
    DataLinesArePlain(e);
    if e.retry.Some? {
      DecimalDigits(e.retry.value);
    }
  }

  lemma {:induction false} DataLinesArePlain(e: Event)
    requires Clean(e)
    ensures forall i :: 0 <= i < |DataLines(e)| ==> IsPlain(DataLines(e)[i])
  {
    if e.data.Some? {
      var pieces := Split('\n', e.data.value);
      PiecesOf('\n', e.data.value, '\r');
      forall i | 0 <= i < |pieces| ensures IsPlain("data: " + pieces[i]) {
        assert '\n' !in pieces[i];
      }
    }
  }

  lemma {:induction false} StreamIsTaken(d: Decoder, events: seq<Event>)
    requires d.data == "" && d.kind == ""
    requires forall i :: 0 <= i < |events| ==> Clean(events[i]) && CommentsPlain(events[i])
    ensures TakeAll(d, Lines(EncodeAll(events))) == MeantAll(d, events)
    decreases |events|
  {
    hide TakeLine, EventLines, Clean, CommentsPlain;
    if events == [] {
      assert Lines("") == [];
    } else {
      EventLinesArePlain(events[0]);
      LinesAreTaken(EventLines(events[0]), EncodeAll(events[1..]));
      TakeAppend(d, EventLines(events[0]), Lines(EncodeAll(events[1..])));
      EventIsTaken(d, events[0]);
      StreamIsTaken(Meant(d, events[0]), events[1..]);
    }
  }

  lemma {:induction false} NoBom(events: seq<Event>)
    ensures StripBom(EncodeAll(events)) == EncodeAll(events)
  {
    if events != [] {
      FirstChar(events[0]);
    }
  }

  lemma {:induction false} FirstChar(e: Event)
    ensures Encode(e) != "" && Encode(e)[0] != '\U{FEFF}'
  {
    hide Split, Render;
    var lines := EventLines(e);
    var first := lines[0];
    assert Encode(e)[0] == if first == "" then '\n' else first[0];
  }

  /** Any sequence of clean events is read back as what it means. */
  lemma {:induction false} RoundTrip(events: seq<Event>)
    requires forall i :: 0 <= i < |events| ==> Clean(events[i]) && CommentsPlain(events[i])
    ensures Decode(EncodeAll(events)) == MeantAll(NEW, events)
  {
    hide EncodeAll, Lines, TakeAll, MeantAll, StripBom;
    NoBom(events);
    StreamIsTaken(NEW, events);
  }

  /** Each comment is a line of its own behind a colon, in order, before all else. */
  lemma {:induction false} CommentsLead(e: Event)
    requires CommentsPlain(e)
    ensures var lines := Lines(Encode(e));
            |lines| >= |e.comments| && forall i :: 0 <= i < |e.comments| ==> lines[i] == ":" + e.comments[i]
  {
    var comments := Prefixed(":", e.comments);
    forall i | 0 <= i < |comments| ensures IsPlain(comments[i]) {
      assert IsPlain(e.comments[i]);
    }
    CommentsFirst(e);
    hide Lines, IsPlain, EventLines, Terminated;
    var others := EventLines(e)[|comments|..];
    assert EventLines(e) == comments + others;
    TerminatedAppend(comments, others);
    LinesAreTaken(comments, Terminated(others));
  }

  lemma {:induction false} CommentsFirst(e: Event)
    ensures Prefixed(":", e.comments) <= EventLines(e)
  {
    hide DataLines, Optional, RetryText;
  }

  // ---- And only that ----

  /** Whatever stream a decoder reads, nothing it holds or delivers contains what a line cannot. */
  predicate Tidy(d: Decoder) {
    && NoReturn(d.data) && IsPlain(d.kind) && IsPlain(d.lastEventId) && !HasNul(d.lastEventId)
    && forall i :: 0 <= i < |d.out| ==> IsTidy(d.out[i])
  }

  predicate IsTidy(m: Message) {
    NoReturn(m.data) && IsPlain(m.kind) && IsPlain(m.lastEventId) && !HasNul(m.lastEventId)
  }

  predicate NoReturn(s: string) {
    forall i :: 0 <= i < |s| ==> s[i] != '\r'
  }

  lemma {:induction false} LineKeepsTidy(d: Decoder, line: string)
    requires Tidy(d) && IsPlain(line)
    ensures Tidy(TakeLine(d, line))
  {
    if line == "" {
      DispatchKeepsTidy(d);
    } else {
      var found := Find(":", line);
      hide Find, Field, Dispatch, Tidy, HasNul;
      if found.None? {
        FieldKeepsTidy(d, line, "");
      } else if found.value > 0 {
        FieldKeepsTidy(d, line[..found.value], StripBlank(line[found.value + 1..]));
      }
    }
  }

  lemma {:induction false} DispatchKeepsTidy(d: Decoder)
    requires Tidy(d)
    ensures Tidy(Dispatch(d))
  {
  }

  lemma {:induction false} FieldKeepsTidy(d: Decoder, name: string, value: string)
    requires Tidy(d) && IsPlain(value)
    ensures Tidy(Field(d, name, value))
  {
    hide Value, IsTidy;
  }

  lemma {:induction false} LinesArePlain(s: string)
    ensures forall i :: 0 <= i < |Lines(s)| ==> IsPlain(Lines(s)[i])
    decreases |s|
  {
    var i := FirstBreak(s);
    hide FirstBreak;
    if i < |s| {
      var rest := if s[i] == '\r' && i + 1 < |s| && s[i + 1] == '\n' then s[i + 2..] else s[i + 1..];
      assert IsPlain(s[..i]);
      LinesArePlain(rest);
      var more := Lines(rest);
      assert Lines(s) == [s[..i]] + more;
      hide IsPlain, Lines;
      forall k | 0 <= k < |[s[..i]] + more| ensures IsPlain(([s[..i]] + more)[k]) {
        assert k > 0 ==> ([s[..i]] + more)[k] == more[k - 1];
      }
    }
  }

  lemma {:induction false} AllKeepTidy(d: Decoder, lines: seq<string>)
    requires Tidy(d) && forall i :: 0 <= i < |lines| ==> IsPlain(lines[i])
    ensures Tidy(TakeAll(d, lines))
    decreases |lines|
  {
    hide TakeLine, Tidy;
    if lines != [] {
      LineKeepsTidy(d, lines[0]);
      AllKeepTidy(TakeLine(d, lines[0]), lines[1..]);
    }
  }

  lemma {:induction false} OutputGrows(d: Decoder, events: seq<Event>)
    ensures d.out <= MeantAll(d, events).out
    decreases |events|
  {
    if events != [] {
      OutputGrows(Meant(d, events[0]), events[1..]);
    }
  }

  lemma {:induction false} UncleanShows(d: Decoder, events: seq<Event>, i: nat)
    requires i < |events| && events[i].data.Some? && !Clean(events[i])
    ensures exists j :: 0 <= j < |MeantAll(d, events).out| && !IsTidy(MeantAll(d, events).out[j])
    decreases |events|
  {
    var d' := Meant(d, events[0]);
    if i == 0 {
      OutputGrows(d', events[1..]);
      assert !IsTidy(d'.out[|d.out|]);
      assert MeantAll(d, events).out[|d.out|] == d'.out[|d.out|];
    } else {
      UncleanShows(d', events[1..], i - 1);
      assert MeantAll(d, events) == MeantAll(d', events[1..]);
    }
  }

  /** A stream survives exactly when all of its events are clean, if every event that is not clean has
      data by which a reader would notice. */
  lemma {:induction false} SurvivesIffClean(events: seq<Event>)
    requires forall i :: 0 <= i < |events| ==> CommentsPlain(events[i]) && (events[i].data.Some? || Clean(events[i]))
    ensures Decode(EncodeAll(events)).out == MeantAll(NEW, events).out
            <==> forall i :: 0 <= i < |events| ==> Clean(events[i])
  {
    hide TakeAll, Lines, EncodeAll, StripBom, Clean, CommentsPlain, MeantAll;
    if i :| 0 <= i < |events| && !Clean(events[i]) {
      LinesArePlain(StripBom(EncodeAll(events)));
      AllKeepTidy(NEW, Lines(StripBom(EncodeAll(events))));
      UncleanShows(NEW, events, i);
    } else {
      RoundTrip(events);
    }
  }

  /** An identifier that is not clean leaves the decoder with another last identifier than was meant. */
  lemma {:induction false} UncleanIdShows(events: seq<Event>, i: nat)
    requires i < |events| && events[i].id.Some? && !(IsPlain(events[i].id.value) && !HasNul(events[i].id.value))
    requires forall j :: i < j < |events| ==> events[j].id.None?
    ensures Decode(EncodeAll(events)).lastEventId != MeantAll(NEW, events).lastEventId
  {
    hide TakeAll, Lines, EncodeAll, StripBom, MeantAll, IsPlain, HasNul;
    LinesArePlain(StripBom(EncodeAll(events)));
    NewIsTidy();
    AllKeepTidy(NEW, Lines(StripBom(EncodeAll(events))));
    LastIdMeant(NEW, events, i);
  }

  lemma {:induction false} NewIsTidy()
    ensures Tidy(NEW)
  {
  }

  lemma {:induction false} LastIdMeant(d: Decoder, events: seq<Event>, i: nat)
    requires i < |events| && events[i].id.Some? && forall j :: i < j < |events| ==> events[j].id.None?
    ensures MeantAll(d, events).lastEventId == events[i].id.value
    decreases |events|
  {
    if i > 0 {
      LastIdMeant(Meant(d, events[0]), events[1..], i - 1);
    } else {
      IdKept(Meant(d, events[0]), events[1..]);
    }
  }

  lemma {:induction false} IdKept(d: Decoder, events: seq<Event>)
    requires forall j :: 0 <= j < |events| ==> events[j].id.None?
    ensures MeantAll(d, events).lastEventId == d.lastEventId
    decreases |events|
  {
    if events != [] {
      IdKept(Meant(d, events[0]), events[1..]);
    }
  }

  /** A type with a line break, in an event without data: what follows the break is read as a line of its
      own, so a message shows exactly when that line is a data field. */
  lemma {:induction false} BrokenTypeShowsIff(a: string, b: string)
    requires IsPlain(a) && IsPlain(b)
    ensures var e := Event(None, Some(a + ("\n" + b)), None, None, []);
            Decode(Encode(e)).out != Meant(NEW, e).out <==> TakeLine(NEW.(kind := a), b).data != ""
  {
    var e := Event(None, Some(a + ("\n" + b)), None, None, []);
    var lines := ["event: " + a, b, ""];
    BrokenTypeLines(a, b);
    hide EventLines, Encode, Terminated, TakeLine, Lines, TakeAll, StripBom;
    assert Encode(e) == Terminated(lines) + "";
    PlainLines(a, b);
    LinesAreTaken(lines, "");
    NoLines();
    assert lines + [] == lines;
    NoBomHere(e);
    FieldIsTaken(NEW, "event", a);
    assert "event" + ": " + a == "event: " + a;
    TakeThree(NEW, lines[0], b);
    BlankIsDispatch(TakeLine(NEW.(kind := a), b));
    OutSoFar(NEW.(kind := a), b);
  }

  lemma {:induction false} BrokenTypeLines(a: string, b: string)
    ensures Encode(Event(None, Some(a + ("\n" + b)), None, None, [])) == Terminated(["event: " + a, b, ""])
  {
    var e := Event(None, Some(a + ("\n" + b)), None, None, []);
    assert EventLines(e) == ["event: " + (a + ("\n" + b)), ""];
    hide EventLines;
    TwoLines("event: ", a, b);
  }

  /** A line with a break in it reads as two lines. */
  lemma {:induction false} TwoLines(prefix: string, a: string, b: string)
    ensures Terminated([prefix + (a + ("\n" + b)), ""]) == Terminated([prefix + a, b, ""])
  {
    var rest := Terminated([""]);
    var x, t := prefix + a, prefix + (a + ("\n" + b));
    TerminatedFirst(t, [""]);
    TerminatedFirst(x, [b, ""]);
    TerminatedFirst(b, [""]);
    assert [t] + [""] == [t, ""] && [x] + [b, ""] == [x, b, ""] && [b] + [""] == [b, ""];
    hide Terminated;
    Regroup(prefix, a, "\n" + b);
    Regroup(x, "\n" + b, "\n" + rest);
    Regroup("\n", b, "\n" + rest);
  }

  lemma {:induction false} TerminatedFirst(line: string, rest: seq<string>)
    ensures Terminated([line] + rest) == line + ("\n" + Terminated(rest))
  {
    assert ([line] + rest)[1..] == rest;
  }

  lemma {:induction false} PlainLines(a: string, b: string)
    requires IsPlain(a) && IsPlain(b)
    ensures IsPlain("event: " + a) && IsPlain("")
  {
  }

  lemma {:induction false} NoLines()
    ensures Lines("") == []
  {
  }

  lemma {:induction false} NoBomHere(e: Event)
    ensures StripBom(Encode(e)) == Encode(e)
  {
    FirstChar(e);
  }

  lemma {:induction false} TakeThree(d: Decoder, x: string, y: string)
    ensures TakeAll(d, [x, y, ""]) == TakeLine(TakeLine(TakeLine(d, x), y), "")
  {
    hide TakeLine;
    assert [x, y, ""][1..] == [y, ""] && [y, ""][1..] == [""] && [""][1..] == [];
    assert TakeAll(TakeLine(d, x), [y, ""]) == TakeAll(TakeLine(TakeLine(d, x), y), [""]);
    assert TakeAll(TakeLine(TakeLine(d, x), y), [""]) == TakeLine(TakeLine(TakeLine(d, x), y), "");
  }

  lemma {:induction false} BlankIsDispatch(d: Decoder)
    ensures TakeLine(d, "") == Dispatch(d)
  {
  }

  /** A line adds to the output only by dispatching, and only then with data before it. */
  lemma {:induction false} OutSoFar(d: Decoder, line: string)
    requires d.data == ""
    ensures TakeLine(d, line).out == d.out
  {
    hide Find, Value;
  }

  /** Both happen. */
  lemma {:induction false} BrokenTypes()
    ensures TakeLine(NEW.(kind := "a"), "b").data == ""
    ensures TakeLine(NEW.(kind := "a"), "data: x").data != ""
  {
    FieldIsTaken(NEW.(kind := "a"), "data", "x");
    assert "data" + ": " + "x" == "data: x";
    forall j: nat ensures !At(":", "b", j) {
    }
  }

  // ---- Keeping an idle stream alive ----

  /** The wrapped stream's answer to a poll. */
  datatype Upstream = Item(event: Event) | End | Idle

  datatype Poll = Poll(upstream: Upstream, now: nat)

  datatype Polled = Ready(emission: Emission) | Finished | Pending

  /** What the wrapper hands on: an item of the wrapped stream, or a keepalive. */
  datatype Emission = Relayed(event: Event, at: nat) | Inserted(event: Event, at: nat)

  class KeepAliveStream {
    const keepAlive: Event
    const interval: nat
    var deadline: nat

    constructor (keepAlive: Event, interval: nat, now: nat)
      ensures this.keepAlive == keepAlive && this.interval == interval && deadline == now + interval
    {
      this.keepAlive, this.interval, deadline := keepAlive, interval, now + interval;
    }

    /** The wrapped stream goes first; the timer is asked only while that is idle, and starts over
        whenever something is emitted. */
    method PollNext(poll: Poll) returns (r: Polled)
      modifies this`deadline
      ensures poll.upstream.Item? ==> r == Ready(Relayed(poll.upstream.event, poll.now))
      ensures poll.upstream.End? ==> r == Finished
      ensures poll.upstream.Idle? ==> r == if poll.now >= old(deadline) then Ready(Inserted(keepAlive, poll.now)) else Pending
      ensures deadline == if r.Ready? then poll.now + interval else old(deadline)
    {
      match poll.upstream
      case Item(event) =>
        deadline := poll.now + interval;
        r := Ready(Relayed(event, poll.now));
      case End =>
        r := Finished;
      case Idle =>
        if poll.now < deadline {
          return Pending;
        }
        deadline := poll.now + interval;
        r := Ready(Inserted(keepAlive, poll.now));
    }

    method Run(polls: seq<Poll>) returns (output: seq<Emission>)
      modifies this`deadline
      ensures output == Ran(polls, old(deadline), interval, keepAlive)
    {
      output := [];
      var i := 0;
      ghost var all := Ran(polls, deadline, interval, keepAlive);
      assert polls[0..] == polls && [] + all == all;
      while i < |polls|
        invariant i <= |polls| && output + Ran(polls[i..], deadline, interval, keepAlive) == all
      {
        assert polls[i..][0] == polls[i] && polls[i..][1..] == polls[i + 1..];
        var r := PollNext(polls[i]);
        if r.Finished? {
          break;
        }
        if r.Ready? {
          Regroup(output, [r.emission], Ran(polls[i + 1..], deadline, interval, keepAlive));
          output := output + [r.emission];
        }
        i := i + 1;
      }
      assert output + [] == output;
    }
  }

  /** What driving the wrapper through any polls emits. */
  function Ran(polls: seq<Poll>, deadline: nat, interval: nat, keepAlive: Event): seq<Emission> {
    if polls == [] || polls[0].upstream.End? then []
    else
      var now := polls[0].now;
      if polls[0].upstream.Item? then
        [Relayed(polls[0].upstream.event, now)] + Ran(polls[1..], now + interval, interval, keepAlive)
      else if now >= deadline then
        [Inserted(keepAlive, now)] + Ran(polls[1..], now + interval, interval, keepAlive)
      else Ran(polls[1..], deadline, interval, keepAlive)
  }

  /** The items a wrapped stream delivers before it ends. */
  function ItemsOf(polls: seq<Poll>): seq<Event> {
    if polls == [] || polls[0].upstream.End? then []
    else (if polls[0].upstream.Item? then [polls[0].upstream.event] else []) + ItemsOf(polls[1..])
  }

  /** The relayed part of an output. */
  function Items(output: seq<Emission>): seq<Event> {
    if output == [] then []
    else (if output[0].Relayed? then [output[0].event] else []) + Items(output[1..])
  }

  /** An output as the response carries it. */
  function Sent(output: seq<Emission>): seq<Event> {
    seq(|output|, i requires 0 <= i < |output| => output[i].event)
  }

  function Deadline(output: seq<Emission>, first: nat, interval: nat): nat {
    if output == [] then first else output[|output| - 1].at + interval
  }

  predicate Spaced(output: seq<Emission>, first: nat, interval: nat, keepAlive: Event) {
    forall i :: 0 <= i < |output| && output[i].Inserted? ==>
      output[i].event == keepAlive && output[i].at >= Deadline(output[..i], first, interval)
  }

  lemma {:induction false} SpacedStep(e: Emission, rest: seq<Emission>, first: nat, interval: nat, keepAlive: Event)
    ensures Spaced([e] + rest, first, interval, keepAlive) <==>
              && (e.Inserted? ==> e.event == keepAlive && e.at >= first)
              && Spaced(rest, e.at + interval, interval, keepAlive)
  {
    var all := [e] + rest;
    forall i | 0 < i < |all| ensures Deadline(all[..i], first, interval) == Deadline(rest[..i - 1], e.at + interval, interval) {
      assert all[..i] == [e] + rest[..i - 1];
    }
    assert forall i :: 0 <= i < |rest| ==> all[i + 1] == rest[i];
    assert all[0] == e && Deadline(all[..0], first, interval) == first;
    if Spaced(all, first, interval, keepAlive) {
      forall i | 0 <= i < |rest| && rest[i].Inserted?
        ensures rest[i].event == keepAlive && rest[i].at >= Deadline(rest[..i], e.at + interval, interval)
      {
        assert all[i + 1] == rest[i];
      }
    }
  }

  /** Every run relays exactly the wrapped stream's items, in order. */
  lemma {:induction false} RunsRelayAll(polls: seq<Poll>, deadline: nat, interval: nat, keepAlive: Event)
    ensures Items(Ran(polls, deadline, interval, keepAlive)) == ItemsOf(polls)
    decreases |polls|
  {
    if polls != [] && !polls[0].upstream.End? {
      var now, rest := polls[0].now, polls[1..];
      var emits := polls[0].upstream.Item? || now >= deadline;
      var deadline' := if emits then now + interval else deadline;
      RunsRelayAll(rest, deadline', interval, keepAlive);
      if emits {
        var e := if polls[0].upstream.Item? then Relayed(polls[0].upstream.event, now) else Inserted(keepAlive, now);
        ItemsFirst(e, Ran(rest, deadline', interval, keepAlive));
      }
    }
  }

  lemma {:induction false} NoItems()
    ensures Items([]) == []
  {
  }

  lemma {:induction false} ItemsFirst(e: Emission, rest: seq<Emission>)
    ensures Items([e] + rest) == (if e.Relayed? then [e.event] else []) + Items(rest)
  {
    assert ([e] + rest)[1..] == rest;
  }

  /** And it inserts a keepalive only after a full interval without an emission. */
  lemma {:induction false} RunsAreSpaced(polls: seq<Poll>, deadline: nat, interval: nat, keepAlive: Event)
    ensures Spaced(Ran(polls, deadline, interval, keepAlive), deadline, interval, keepAlive)
    decreases |polls|
  {
    hide Spaced;
    if polls == [] || polls[0].upstream.End? {
      NothingIsSpaced(deadline, interval, keepAlive);
    } else {
      var now, rest := polls[0].now, polls[1..];
      var emits := polls[0].upstream.Item? || now >= deadline;
      var deadline' := if emits then now + interval else deadline;
      RunsAreSpaced(rest, deadline', interval, keepAlive);
      if emits {
        var e := if polls[0].upstream.Item? then Relayed(polls[0].upstream.event, now) else Inserted(keepAlive, now);
        SpacedStep(e, Ran(rest, deadline', interval, keepAlive), deadline, interval, keepAlive);
      }
    }
  }

  lemma {:induction false} NothingIsSpaced(first: nat, interval: nat, keepAlive: Event)
    ensures Spaced([], first, interval, keepAlive)
  {
  }

  /** The polls that make the wrapper emit `output`. */
  function PollsFor(output: seq<Emission>): seq<Poll> {
    seq(|output|, i requires 0 <= i < |output| =>
      Poll(if output[i].Relayed? then Item(output[i].event) else Idle, output[i].at))
  }

  /** Nothing else restricts it: every output so spaced is the output of a run. */
  lemma {:induction false} SpacedIsRun(output: seq<Emission>, deadline: nat, interval: nat, keepAlive: Event)
    requires Spaced(output, deadline, interval, keepAlive)
    ensures Ran(PollsFor(output), deadline, interval, keepAlive) == output
    decreases |output|
  {
    hide Spaced;
    if output != [] {
      var e, rest := output[0], output[1..];
      assert output == [e] + rest;
      SpacedStep(e, rest, deadline, interval, keepAlive);
      SpacedIsRun(rest, e.at + interval, interval, keepAlive);
      assert PollsFor(output)[1..] == PollsFor(rest);
    }
  }

  /** A keepalive that says nothing to the reader: no data and no identifier. The default one is a
      comment only. */
  predicate IsQuiet(e: Event) {
    e.data.None? && e.id.None?
  }

  predicate AllClean(events: seq<Event>) {
    forall i :: 0 <= i < |events| ==> Clean(events[i]) && CommentsPlain(events[i])
  }

  predicate Inserts(output: seq<Emission>, keepAlive: Event) {
    forall i :: 0 <= i < |output| && output[i].Inserted? ==> output[i].event == keepAlive
  }

  lemma {:induction false} QuietIsUnseen(d: Decoder, d': Decoder, output: seq<Emission>, keepAlive: Event)
    requires Inserts(output, keepAlive) && IsQuiet(keepAlive)
    requires d.out == d'.out && d.lastEventId == d'.lastEventId
    ensures MeantAll(d, Sent(output)).out == MeantAll(d', Items(output)).out
    decreases |output|
  {
    if output != [] {
      var e, rest := output[0], output[1..];
      assert Sent(output)[1..] == Sent(rest);
      if e.Relayed? {
        assert ([e.event] + Items(rest))[1..] == Items(rest);
        QuietIsUnseen(Meant(d, e.event), Meant(d', e.event), rest, keepAlive);
      } else {
        assert [] + Items(rest) == Items(rest);
        QuietIsUnseen(Meant(d, e.event), d', rest, keepAlive);
      }
    }
  }

  lemma {:induction false} CleanTogether(output: seq<Emission>, keepAlive: Event)
    requires AllClean(Items(output)) && Inserts(output, keepAlive) && Clean(keepAlive) && CommentsPlain(keepAlive)
    ensures AllClean(Sent(output))
  {
    hide Clean, CommentsPlain;
    if output != [] {
      var rest := output[1..];
      assert Sent(output) == [output[0].event] + Sent(rest);
      if output[0].Relayed? {
        assert Items(output)[0] == output[0].event && Items(output)[1..] == Items(rest);
      } else {
        assert [] + Items(rest) == Items(rest);
      }
      CleanTogether(rest, keepAlive);
    }
  }

  lemma {:induction false} ItemsAreClean(output: seq<Emission>)
    requires AllClean(Sent(output))
    ensures AllClean(Items(output))
  {
    hide Clean, CommentsPlain;
    if output != [] {
      assert Sent(output)[1..] == Sent(output[1..]) && Sent(output)[0] == output[0].event;
      ItemsAreClean(output[1..]);
    }
  }

  /** Keepalives that are quiet leave the decoded messages as they are, wherever they fall. */
  lemma {:induction false} KeepAlivesAreTransparent(output: seq<Emission>, keepAlive: Event)
    requires Inserts(output, keepAlive) && IsQuiet(keepAlive) && AllClean(Sent(output))
    ensures Decode(EncodeAll(Sent(output))).out == Decode(EncodeAll(Items(output))).out
  {
    hide Decode, MeantAll, EncodeAll, Inserts, Clean, CommentsPlain, Items, Sent;
    ItemsAreClean(output);
    RoundTrip(Sent(output));
    RoundTrip(Items(output));
    QuietIsUnseen(NEW, NEW, output, keepAlive);
  }

  /** A keepalive that is not quiet is seen, on some stream. */
  lemma {:induction false} LoudIsSeen(keepAlive: Event, interval: nat) returns (output: seq<Emission>)
    requires Clean(keepAlive) && CommentsPlain(keepAlive) && !IsQuiet(keepAlive)
    ensures Spaced(output, interval, interval, keepAlive) && InTime(PollsFor(output))
    ensures AllClean(Sent(output)) && AllClean(Items(output))
    ensures Decode(EncodeAll(Sent(output))).out != Decode(EncodeAll(Items(output))).out
  {
    hide Decode, EncodeAll, Clean, CommentsPlain;
    if keepAlive.data.Some? {
      output := [Inserted(keepAlive, interval)];
      assert Sent(output) == [keepAlive] && output[1..] == [] && Items(output) == [];
      assert [keepAlive][1..] == [];
    } else {
      output := LoudId(keepAlive, interval);
    }
    hide MeantAll, Items;
    RoundTrip(Sent(output));
    RoundTrip(Items(output));
  }

  lemma {:induction false} LoudId(keepAlive: Event, interval: nat) returns (output: seq<Emission>)
    requires Clean(keepAlive) && CommentsPlain(keepAlive) && keepAlive.id.Some? && keepAlive.data.None?
    ensures Spaced(output, interval, interval, keepAlive) && InTime(PollsFor(output))
    ensures AllClean(Sent(output)) && AllClean(Items(output))
    ensures MeantAll(NEW, Sent(output)).out != MeantAll(NEW, Items(output)).out
  {
    hide Clean, CommentsPlain, MeantAll, Items;
    var id := keepAlive.id.value;
    var plain := Event(Some(""), None, None, None, []);
    var named := plain.(id := Some(id + "x"));
    MarkersAreClean(keepAlive, plain, named);
    output := [Relayed(named, 0), Inserted(keepAlive, interval), Relayed(plain, interval)];
    assert output[..1] == [output[0]];
    assert Sent(output) == [named, keepAlive, plain];
    ItemsOfThree(output[0], output[1], output[2]);
    MeantThree(named, keepAlive, plain);
    MeantTwo(named, plain);
    assert MeantAll(NEW, Sent(output)).out[1].lastEventId == id;
    assert MeantAll(NEW, Items(output)).out[1].lastEventId == id + "x";
  }

  lemma {:induction false} ItemsOfThree(a: Emission, b: Emission, c: Emission)
    requires a.Relayed? && b.Inserted? && c.Relayed?
    ensures Items([a, b, c]) == [a.event, c.event]
  {
    hide Items;
    ItemsFirst(a, [b, c]);
    ItemsFirst(b, [c]);
    ItemsFirst(c, []);
    NoItems();
    assert [a] + [b, c] == [a, b, c] && [b] + [c] == [b, c] && [c] + [] == [c];
  }

  /** Time does not run back. */
  predicate InTime(polls: seq<Poll>) {
    forall i, j :: 0 <= i < j < |polls| ==> polls[i].now <= polls[j].now
  }

  /** On every run over clean items, from a timer set at time zero, a reader gets the messages of the items
      alone. */
  ghost predicate IsInvisible(keepAlive: Event, interval: nat) {
    forall polls ::
      AllClean(ItemsOf(polls)) && InTime(polls) ==>
        Decode(EncodeAll(Sent(Ran(polls, interval, interval, keepAlive)))).out == Decode(EncodeAll(ItemsOf(polls))).out
  }

  /** A clean keepalive is invisible on all runs exactly when it carries neither data nor identifier. */
  lemma {:induction false} InvisibleIffQuiet(keepAlive: Event, interval: nat)
    requires Clean(keepAlive) && CommentsPlain(keepAlive)
    ensures IsInvisible(keepAlive, interval) <==> IsQuiet(keepAlive)
  {
    hide Decode, EncodeAll, Ran, ItemsOf, Items, AllClean, Clean, CommentsPlain, Sent;
    if IsQuiet(keepAlive) {
      forall polls | AllClean(ItemsOf(polls)) && InTime(polls)
        ensures Decode(EncodeAll(Sent(Ran(polls, interval, interval, keepAlive)))).out == Decode(EncodeAll(ItemsOf(polls))).out
      {
        var output := Ran(polls, interval, interval, keepAlive);
        RunsRelayAll(polls, interval, interval, keepAlive);
        RunsAreSpaced(polls, interval, interval, keepAlive);
        assert Inserts(output, keepAlive);
        CleanTogether(output, keepAlive);
        KeepAlivesAreTransparent(output, keepAlive);
      }
    } else {
      var output := LoudIsSeen(keepAlive, interval);
      SpacedIsRun(output, interval, interval, keepAlive);
      RunsRelayAll(PollsFor(output), interval, interval, keepAlive);
    }
  }

  lemma {:induction false} MarkersAreClean(keepAlive: Event, plain: Event, named: Event)
    requires Clean(keepAlive) && keepAlive.id.Some?
    requires plain == Event(Some(""), None, None, None, []) && named == plain.(id := Some(keepAlive.id.value + "x"))
    ensures Clean(plain) && CommentsPlain(plain) && Clean(named) && CommentsPlain(named)
  {
    var id, longer := keepAlive.id.value, named.id.value;
    assert forall i :: 0 <= i < |longer| ==> longer[i] == if i < |id| then id[i] else 'x';
  }

  lemma {:induction false} MeantTwo(a: Event, b: Event)
    ensures MeantAll(NEW, [a, b]) == Meant(Meant(NEW, a), b)
  {
    assert [a, b][1..] == [b] && [b][1..] == [];
    assert MeantAll(Meant(NEW, a), [b]) == MeantAll(Meant(Meant(NEW, a), b), [b][1..]);
  }

  lemma {:induction false} MeantThree(a: Event, b: Event, c: Event)
    ensures MeantAll(NEW, [a, b, c]) == Meant(Meant(Meant(NEW, a), b), c)
  {
    hide Meant;
    var d := Meant(NEW, a);
    assert [a, b, c][1..] == [b, c] && [b, c][1..] == [c] && [c][1..] == [];
    assert MeantAll(d, [b, c]) == MeantAll(Meant(d, b), [b, c][1..]);
    assert MeantAll(Meant(d, b), [c]) == MeantAll(Meant(Meant(d, b), c), [c][1..]);
  }
}
