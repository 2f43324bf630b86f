/** Reading a whole response: any number of interim heads, the final head, and the hand-over of the
    octets behind it to the body reader. */
module Responses {
  import opened Octets
  import opened BodyFraming
  import opened Cuts
  import opened ResponseHeads
  import opened ResponseBodies
  import opened FramingRules

  datatype ResponseError = Transport | ClosedEarly | HeadTooLong | BadHead | BadFraming | UnsupportedUpgrade

  datatype Outcome =
    | Delivered(head: Head, mode: BodyMode, rest: Bytes)
    | Refused(error: ResponseError)

  /** What the stream answers, whether every head on the way stays within the limit, so that it is never
      refused for its length, and whether every head is one that can be accepted at all. */
  datatype Reading = Reading(outcome: Outcome, fits: bool, within: bool)

  predicate HeadFits(s: Bytes) {
    match Find(CRLF_CRLF, s)
    case Some(end) => end + 4 <= MAX_RESPONSE_HEAD_BYTES
    case None => |s| < MAX_RESPONSE_HEAD_BYTES
  }

  const SWITCHING_PROTOCOLS: nat := 101

  function Answer(s: Bytes, headRequest: bool): Reading
    decreases |s|, 0
  {
    match Find(CRLF_CRLF, s)
    case None => Reading(Refused(ClosedEarly), HeadFits(s), true)
    case Some(end) =>
      AlsoHead(AfterHead(ParseHead(s[..end]), s[end + 4..], headRequest), HeadFits(s), end + 4 <= MAX_BUFFERED)
  }

  /** The rest of a reading, behind a head that keeps the limit as stated. */
  function AlsoHead(r: Reading, fits: bool, within: bool): Reading {
    r.(fits := fits && r.fits, within := within && r.within)
  }

  function AfterHead(head: Option<Head>, rest: Bytes, headRequest: bool): Reading
    decreases |rest|, 1
  {
    if head.Some? && head.value.status == SWITCHING_PROTOCOLS then Reading(Refused(UnsupportedUpgrade), true, true)
    else if head.Some? && IsInformational(head.value.status) then Answer(rest, headRequest)
    else Reading(FinalOutcome(head, rest, headRequest), true, true)
  }

  function FinalOutcome(head: Option<Head>, rest: Bytes, headRequest: bool): Outcome {
    match head
    case None => Refused(BadHead)
    case Some(h) =>
      match Framing(h.headers, h.status, headRequest)
      case None => Refused(BadFraming)
      case Some(mode) => Delivered(h, mode, rest)
  }

  /** What is left to the body is the end of the stream, untouched. */
  lemma {:induction false} RestIsSuffix(s: Bytes, headRequest: bool)
    ensures var outcome := Answer(s, headRequest).outcome;
            outcome.Delivered? ==> |outcome.rest| <= |s| && s[|s| - |outcome.rest|..] == outcome.rest
    decreases |s|
  {
    hide ParseHead, FindFrom, Framing, HeadFits;
    var found := Find(CRLF_CRLF, s);
    if found.Some? {
      RestIsSuffix(s[found.value + 4..], headRequest);
    }
  }

  // ---- The responses a server may send ----

  /** Heads as raw octets, in the order they are sent, with the body octets last. */
  datatype Exchange = Final(raw: Bytes, body: Bytes) | Interim(raw: Bytes, more: Exchange)

  /** A head that parses and that the empty line behind it really ends. */
  predicate IsRawHead(raw: Bytes) {
    ParseHead(raw).Some? && Find(CRLF_CRLF, raw + CRLF_CRLF) == Some(|raw|)
  }

  predicate IsExchange(x: Exchange) {
    && IsRawHead(x.raw)
    && var status := ParseHead(x.raw).value.status;
       match x
       case Final(_, _) => !IsInformational(status)
       case Interim(_, more) => IsInformational(status) && status != SWITCHING_PROTOCOLS && IsExchange(more)
  }

  function Wire(x: Exchange): Bytes {
    match x
    case Final(raw, body) => (raw + CRLF_CRLF) + body
    case Interim(raw, more) => (raw + CRLF_CRLF) + Wire(more)
  }

  function FinalHead(x: Exchange): Option<Head> {
    match x
    case Final(raw, _) => ParseHead(raw)
    case Interim(_, more) => FinalHead(more)
  }

  function FinalBody(x: Exchange): Bytes {
    match x
    case Final(_, body) => body
    case Interim(_, more) => FinalBody(more)
  }

  lemma {:induction false} FinalHeadParses(x: Exchange)
    requires IsExchange(x)
    ensures FinalHead(x).Some?
  {
    hide ParseHead, Find;
    if x.Interim? {
      FinalHeadParses(x.more);
    }
  }

  predicate HeadsFit(x: Exchange, max: nat) {
    |x.raw| + 4 <= max && (x.Interim? ==> HeadsFit(x.more, max))
  }

  lemma {:induction false} RawHeadStep(raw: Bytes, rest: Bytes, headRequest: bool)
    requires IsRawHead(raw)
    ensures Answer((raw + CRLF_CRLF) + rest, headRequest) ==
            AlsoHead(AfterHead(ParseHead(raw), rest, headRequest),
                     |raw| + 4 <= MAX_RESPONSE_HEAD_BYTES, |raw| + 4 <= MAX_BUFFERED)
  {
    hide ParseHead, FindFrom, At;
    var s := (raw + CRLF_CRLF) + rest;
    FindInPrefix(CRLF_CRLF, raw + CRLF_CRLF, rest);
    assert s[..|raw|] == raw && s[|raw| + 4..] == rest;
  }

  /** However many interim responses come first, the answer is the final head's, and exactly the
      octets behind that head are left for the body. */
  lemma {:induction false} InterimsAreSkipped(x: Exchange, headRequest: bool)
    requires IsExchange(x)
    ensures Answer(Wire(x), headRequest) ==
            Reading(FinalOutcome(FinalHead(x), FinalBody(x), headRequest),
                    HeadsFit(x, MAX_RESPONSE_HEAD_BYTES), HeadsFit(x, MAX_BUFFERED))
  {
    hide ParseHead, FindFrom, At, Framing, Answer;
    match x
    case Final(raw, body) =>
      RawHeadStep(raw, body, headRequest);
    case Interim(raw, more) =>
      RawHeadStep(raw, Wire(more), headRequest);
      InterimsAreSkipped(more, headRequest);
  }

  /** Rendered heads are such heads. */
  lemma {:induction false} RenderedHeads(h: Head, reason: Bytes)
    requires IsHead(h) && IsReason(reason)
    ensures IsRawHead(RenderHead(h, reason)) && ParseHead(RenderHead(h, reason)) == Some(h)
  {
    hide ParseHead, FindFrom, At;
    HeadReadBack(h, reason);
    StatusLineReadBack(h, reason);
    HeadEnds(StatusText(h, reason), h.headers, []);
    assert CRLF_CRLF + [] == CRLF_CRLF;
  }

  /** A head and the reason text it is sent with. */
  datatype Announced = Announced(head: Head, reason: Bytes)

  predicate IsAnnounced(a: Announced) {
    IsHead(a.head) && IsReason(a.reason)
  }

  function Text(a: Announced): Bytes {
    RenderHead(a.head, a.reason)
  }

  /** Any heads at all, rendered one behind the other. */
  function Announce(interims: seq<Announced>, final: Announced, body: Bytes): Exchange {
    if interims == [] then Final(Text(final), body)
    else Interim(Text(interims[0]), Announce(interims[1..], final, body))
  }

  predicate IsInterim(a: Announced) {
    IsAnnounced(a) && 100 <= a.head.status <= 199 && a.head.status != 101
  }

  /** Whatever interim heads are announced before a final one, and whatever follows it, that head and
      what follows are the answer. */
  lemma {:induction false} AnnouncedIsAnswered(interims: seq<Announced>, final: Announced, body: Bytes, headRequest: bool)
    requires IsAnnounced(final) && !(100 <= final.head.status <= 199)
    requires forall i :: 0 <= i < |interims| ==> IsInterim(interims[i])
    ensures IsExchange(Announce(interims, final, body))
    ensures Answer(Wire(Announce(interims, final, body)), headRequest).outcome
            == FinalOutcome(Some(final.head), body, headRequest)
    decreases |interims|
  {
    hide Answer, ParseHead, RenderHead, FinalOutcome, IsReason, IsHead, IsRawHead;
    if interims == [] {
      RenderedHeads(final.head, final.reason);
      RawHeadStep(Text(final), body, headRequest);
    } else {
      RenderedHeads(interims[0].head, interims[0].reason);
      AnnouncedIsAnswered(interims[1..], final, body, headRequest);
      RawHeadStep(Text(interims[0]), Wire(Announce(interims[1..], final, body)), headRequest);
    }
  }

  /** A switch of protocols is refused, whatever came before it and whatever follows. */
  lemma {:induction false} SwitchingIsRefused(interims: seq<Announced>, final: Announced, body: Bytes, headRequest: bool)
    requires IsAnnounced(final) && final.head.status == 101
    requires forall i :: 0 <= i < |interims| ==> IsInterim(interims[i])
    ensures Answer(Wire(Announce(interims, final, body)), headRequest).outcome == Refused(UnsupportedUpgrade)
    decreases |interims|
  {
    hide Answer, ParseHead, RenderHead, FinalOutcome, IsReason, IsHead, IsRawHead;
    if interims == [] {
      RenderedHeads(final.head, final.reason);
      RawHeadStep(Text(final), body, headRequest);
    } else {
      RenderedHeads(interims[0].head, interims[0].reason);
      SwitchingIsRefused(interims[1..], final, body, headRequest);
      RawHeadStep(Text(interims[0]), Wire(Announce(interims[1..], final, body)), headRequest);
    }
  }

  // ---- The incremental reader ----

  function HeadVerdict(r: Result<nat, ResponseError>): Verdict {
    match r
    case Ok(end) => Found(end)
    case Err(error) => if error.HeadTooLong? then TooLong else if error.ClosedEarly? then Closed else Undecided
  }

  /** What the buffer shows of the stream's first head; `before` is the buffer before the last read. */
  lemma {:induction false} HeadSeen(before: Bytes, read: Bytes, unread: Bytes)
    ensures var buffered := before + read;
            && (Find(CRLF_CRLF, buffered).Some? ==>
                  && Find(CRLF_CRLF, buffered).value + 4 <= |buffered|
                  && Find(CRLF_CRLF, buffered + unread) == Find(CRLF_CRLF, buffered)
                  && (Find(CRLF_CRLF, before).None? ==> |before| < Find(CRLF_CRLF, buffered).value + 4))
            && (Find(CRLF_CRLF, buffered).None? && |buffered| >= MAX_RESPONSE_HEAD_BYTES ==> !HeadFits(buffered + unread))
  {
    hide FindFrom;
    FindInPrefix(CRLF_CRLF, before + read, unread);
    FindInPrefix(CRLF_CRLF, before, read);
  }

  /** Whether a head is refused for its length depends on how the stream is cut, exactly when it ends within
      one read past the limit; shorter ones never are and longer ones always. */
  lemma {:induction false} HeadMayGoEitherWay(raw: Bytes, rest: Bytes)
    requires Find(CRLF_CRLF, raw + CRLF_CRLF) == Some(|raw|)
    ensures var s, max := (raw + CRLF_CRLF) + rest, MAX_RESPONSE_HEAD_BYTES;
            && (MayJudge(CRLF_CRLF, [], s, max, TooLong) <==> |raw| > 65532)
            && (MayJudge(CRLF_CRLF, [], s, max, Found(|raw|)) <==> |raw| <= 69627)
  {
    hide MayJudge, FindFrom, At;
    var s := (raw + CRLF_CRLF) + rest;
    FindInPrefix(CRLF_CRLF, raw + CRLF_CRLF, rest);
    assert [] + s == s;
    MayRefuseIff(CRLF_CRLF, [], s, MAX_RESPONSE_HEAD_BYTES);
    MayAcceptIff(CRLF_CRLF, [], s, MAX_RESPONSE_HEAD_BYTES);
  }

  /** Fills the buffer until it shows a head's end. The limit can only strike a head that, with the empty
      line, exceeds it; the reads made are a cut of the stream, and the verdict is the one that this cut
      calls for. */
  method ReadResponseHead(connection: Connection, initial: Bytes)
    returns (r: Result<nat, ResponseError>, buffered: Bytes)
    modifies connection
    ensures buffered + connection.unread == initial + old(connection.unread)
    ensures r.Ok? ==> r.value + 4 <= |buffered|
                      && Find(CRLF_CRLF, buffered + connection.unread) == Some(r.value)
    ensures r.Err? ==> r.error in {Transport, ClosedEarly, HeadTooLong}
    ensures r == Err(ClosedEarly) ==> Find(CRLF_CRLF, buffered + connection.unread).None?
    ensures r == Err(HeadTooLong) ==> !HeadFits(buffered + connection.unread)
    ensures |buffered| <= |initial| || |buffered| <= MAX_BUFFERED
    ensures r.Ok? ==> |buffered| <= |initial| || |buffered| < r.value + 4 + READ_SIZE
    ensures Scans(CRLF_CRLF, initial, old(connection.unread), old(connection.log), connection.log,
                  MAX_RESPONSE_HEAD_BYTES, HeadVerdict(r))
    ensures connection.faults == old(connection.faults) + if r == Err(Transport) then 1 else 0
  {
    hide Scans, IsScanning, Find, HeadFits;
    buffered := initial;
    ghost var before: Bytes, last: Bytes := initial, [];
    ghost var unread, log := connection.unread, connection.log;
    StartsScanning(CRLF_CRLF, initial, unread, log, MAX_RESPONSE_HEAD_BYTES);
    assert before + last == initial;
    while true
      invariant IsScanning(CRLF_CRLF, initial, unread, log, MAX_RESPONSE_HEAD_BYTES, buffered, connection.unread, connection.log)
      invariant |buffered| <= |initial| || |buffered| <= MAX_BUFFERED
      invariant connection.faults == old(connection.faults)
      invariant buffered == before + last && |last| <= READ_SIZE
      invariant buffered == initial || Find(CRLF_CRLF, before).None?
      decreases |connection.unread|
    {
      HeadSeen(before, last, connection.unread);
      StopsScanning(CRLF_CRLF, initial, unread, log, MAX_RESPONSE_HEAD_BYTES, buffered, connection.unread, connection.log);
      var end := Find(CRLF_CRLF, buffered);
      if end.Some? {
        return Ok(end.value), buffered;
      }
      if |buffered| >= MAX_RESPONSE_HEAD_BYTES {
        return Err(HeadTooLong), buffered;
      }
      ghost var logged := connection.log;
      var read := connection.Read(READ_SIZE);
      if read.Err? {
        return Err(Transport), buffered;
      }
      ScansOn(CRLF_CRLF, initial, unread, log, MAX_RESPONSE_HEAD_BYTES, buffered, read.value, connection.unread, logged);
      if read.value == [] {
        assert buffered + connection.unread == buffered;
        return Err(ClosedEarly), buffered;
      }
      before, last := buffered, read.value;
      buffered := buffered + read.value;
    }
  }

  /** For every segmentation the response is the stream's own answer, the body reader starts on
      exactly the octets left over, and the limit strikes only where it is exceeded. A response that is
      delivered had no head longer than the buffer ever gets. */
  method ReadResponse(connection: Connection, headRequest: bool)
    returns (head: Option<Head>, body: ResponseBody?, error: Option<ResponseError>)
    modifies connection
    ensures error.None? ==> head.Some? && body != null && fresh(body) && body.connection == connection
    ensures error.None? ==>
              Answer(old(connection.unread), headRequest).outcome == Delivered(head.value, body.mode, body.Stream())
              && |body.buffered| < READ_SIZE
    ensures error.Some? && error.value !in {Transport, HeadTooLong} ==>
              Answer(old(connection.unread), headRequest).outcome == Refused(error.value)
    ensures error == Some(HeadTooLong) ==> !Answer(old(connection.unread), headRequest).fits
    ensures error.None? ==> Answer(old(connection.unread), headRequest).within
    ensures connection.faults == old(connection.faults) + if error == Some(Transport) then 1 else 0
  {
    hide ParseHead, Framing, At, FindFrom;
    head, body := None, null;
    ghost var whole := Answer(old(connection.unread), headRequest);
    ghost var consumed: Bytes := [];
    var buffered: Bytes := [];
    assert connection.unread == buffered + connection.unread;
    while true
      invariant |buffered| < READ_SIZE && connection.faults == old(connection.faults)
      invariant old(connection.unread) == consumed + (buffered + connection.unread)
      invariant whole.outcome == Answer(buffered + connection.unread, headRequest).outcome
      invariant whole.fits ==> Answer(buffered + connection.unread, headRequest).fits
      invariant Answer(buffered + connection.unread, headRequest).within ==> whole.within
      decreases |buffered| + |connection.unread|
    {
      ghost var stream := buffered + connection.unread;
      var end;
      end, buffered := ReadResponseHead(connection, buffered);
      if end.Err? {
        return None, null, Some(end.error);
      }
      var raw := buffered[..end.value];
      assert stream[..end.value] == raw && stream[end.value + 4..] == buffered[end.value + 4..] + connection.unread;
      buffered := buffered[end.value + 4..];
      consumed := consumed + stream[..end.value + 4];
      assert stream == stream[..end.value + 4] + stream[end.value + 4..];
      var parsed := ParseResponseHead(raw);
      if parsed.None? {
        return None, null, Some(BadHead);
      }
      var h := parsed.value;
      if IsInformational(h.status) && h.status != SWITCHING_PROTOCOLS {
        continue;
      }
      if h.status == SWITCHING_PROTOCOLS {
        return None, null, Some(UnsupportedUpgrade);
      }
      var mode := ResponseBodyMode(h.headers, h.status, headRequest);
      if mode.None? {
        return None, null, Some(BadFraming);
      }
      body := new ResponseBody(connection, buffered, mode.value);
      return Some(h), body, None;
    }
  }

  /** From the first octet to the last: interim responses, a final head, and whatever follows. Unless the
      transport itself fails, the caller gets that head and then what the body it announces decodes to,
      whatever the segmentation and whatever the sizes of its buffers; a body that fails to decode fails
      where the decoder does, and exactly what follows a complete one stays unread. */
  method Exchanged(connection: Connection, headRequest: bool, ghost x: Exchange)
    returns (head: Option<Head>, data: Bytes, body: ResponseBody?, refused: Option<ResponseError>, error: Option<ReadError>)
    requires IsExchange(x) && HeadsFit(x, MAX_RESPONSE_HEAD_BYTES) && connection.unread == Wire(x)
    modifies connection
    ensures refused in {None, Some(Transport), Some(BadFraming)} && (refused.Some? ==> error == None)
    ensures connection.faults == old(connection.faults) ==> refused != Some(Transport) && error != Some(Io)
    ensures refused == None ==> head.Some? && head == FinalHead(x) && body != null
    ensures refused == Some(BadFraming) ==>
              FinalHead(x).Some? && Framing(FinalHead(x).value.headers, FinalHead(x).value.status, headRequest).None?
    ensures refused == None ==>
              var mode := Framing(head.value.headers, head.value.status, headRequest);
              && mode.Some?
              && var decoded := Body(mode.value, FinalBody(x));
                 && data <= decoded.data && |body.buffered| < MAX_CHUNK_LINE_BYTES + READ_SIZE
                 && (error == None ==> data == decoded.data && decoded.end == Complete(body.Stream()) && decoded.within)
                 && (error.Some? && error.value !in {Io, LineTooLong, TrailersTooLong} ==>
                       data == decoded.data && decoded.end == Failed(error.value))
                 && (decoded.fits ==> error !in {Some(LineTooLong), Some(TrailersTooLong)})
  {
    hide ParseHead, Framing, Answer, Body;
    InterimsAreSkipped(x, headRequest);
    FinalHeadParses(x);
    head, body, refused := ReadResponse(connection, headRequest);
    if refused.Some? {
      return None, [], null, refused, None;
    }
    data, error := body.ReadToEnd();
  }

  /** In particular a message in the chunked coding, behind a head that announces it, comes out as its data. */
  method ExchangedMessage(connection: Connection, ghost x: Exchange, ghost m: Message, ghost tail: Bytes)
    returns (head: Option<Head>, data: Bytes, body: ResponseBody?, refused: Option<ResponseError>, error: Option<ReadError>)
    requires IsExchange(x) && HeadsFit(x, MAX_RESPONSE_HEAD_BYTES) && connection.unread == Wire(x)
    requires IsMessage(m) && WithinLimits(m, MAX_CHUNK_LINE_BYTES) && FinalBody(x) == Encode(m, tail)
    requires var h := FinalHead(x);
             h.Some? && Framing(h.value.headers, h.value.status, false) == Some(Chunked(0, false, false))
    modifies connection
    ensures refused in {None, Some(Transport)} && error in {None, Some(Io)}
    ensures connection.faults == old(connection.faults) ==> refused == None && error == None
    ensures refused == None ==> head == FinalHead(x) && body != null && data <= Data(m)
    ensures refused == None && error == None ==> data == Data(m) && body.Stream() == tail
  {
    hide ParseHead, Framing, Encode, Body;
    ChunkedRoundTrip(m, tail);
    head, data, body, refused, error := Exchanged(connection, false, x);
  }

  /** And a head that gives the length `n`, in one or more fields and with no coding, has exactly the first `n`
      octets behind it as its body and leaves the others; with fewer behind it the body is cut short. */
  method ExchangedCounted(connection: Connection, ghost x: Exchange, ghost h: Head, ghost n: nat)
    returns (head: Option<Head>, data: Bytes, body: ResponseBody?, refused: Option<ResponseError>, error: Option<ReadError>)
    requires IsExchange(x) && HeadsFit(x, MAX_RESPONSE_HEAD_BYTES) && connection.unread == Wire(x)
    requires FinalHead(x) == Some(h) && MayHaveBody(h.status, false) && n <= 0xFFFF_FFFF_FFFF_FFFF
    requires NoCoding(h.headers) && HasField(h.headers, CONTENT_LENGTH) && AllSpell(h.headers, n)
    modifies connection
    ensures refused in {None, Some(Transport)} && error in {None, Some(Io), Some(UnexpectedEof)}
    ensures connection.faults == old(connection.faults) ==> refused == None && error != Some(Io)
    ensures refused == None && error == None ==>
              head == Some(h) && body != null && n <= |FinalBody(x)| && data == FinalBody(x)[..n] && body.Stream() == FinalBody(x)[n..]
    ensures refused == None && error == Some(UnexpectedEof) ==> |FinalBody(x)| < n && data == FinalBody(x)
  {
    hide ParseHead, Framing, NoCoding, HasField, AllSpell, Chunks;
    LengthRule(h.headers, h.status);
    head, data, body, refused, error := Exchanged(connection, false, x);
  }

  /** Without a coding or a length the body is all that follows, up to the close. */
  method ExchangedUntilClose(connection: Connection, ghost x: Exchange, ghost h: Head)
    returns (head: Option<Head>, data: Bytes, body: ResponseBody?, refused: Option<ResponseError>, error: Option<ReadError>)
    requires IsExchange(x) && HeadsFit(x, MAX_RESPONSE_HEAD_BYTES) && connection.unread == Wire(x)
    requires FinalHead(x) == Some(h) && MayHaveBody(h.status, false)
    requires NoCoding(h.headers) && !HasField(h.headers, CONTENT_LENGTH)
    modifies connection
    ensures refused in {None, Some(Transport)} && error in {None, Some(Io)}
    ensures connection.faults == old(connection.faults) ==> refused == None && error == None
    ensures refused == None && error == None ==> head == Some(h) && body != null && data == FinalBody(x) && body.Stream() == []
  {
    hide ParseHead, Framing, NoCoding, HasField, Chunks;
    UntilCloseRule(h.headers, h.status);
    head, data, body, refused, error := Exchanged(connection, false, x);
  }

  /** And where no body is allowed, nothing that follows is touched. */
  method ExchangedWithoutBody(connection: Connection, headRequest: bool, ghost x: Exchange, ghost h: Head)
    returns (head: Option<Head>, data: Bytes, body: ResponseBody?, refused: Option<ResponseError>, error: Option<ReadError>)
    requires IsExchange(x) && HeadsFit(x, MAX_RESPONSE_HEAD_BYTES) && connection.unread == Wire(x)
    requires FinalHead(x) == Some(h) && (headRequest || h.status == 204 || h.status == 304)
    modifies connection
    ensures refused in {None, Some(Transport)} && error in {None, Some(Io)}
    ensures connection.faults == old(connection.faults) ==> refused == None && error == None
    ensures refused == None && error == None ==> head == Some(h) && body != null && data == [] && body.Stream() == FinalBody(x)
  {
    hide ParseHead, Framing, Chunks;
    NoBodyRule(h.headers, h.status, headRequest);
    head, data, body, refused, error := Exchanged(connection, headRequest, x);
  }

  /** What is refused, and as what: a stream without an end of head, a head that is none, and a final head whose
      fields contradict each other. */
  lemma {:induction false} Refusals(raw: Bytes, rest: Bytes, headRequest: bool)
    ensures Find(CRLF_CRLF, rest).None? ==> Answer(rest, headRequest).outcome == Refused(ClosedEarly)
    ensures Find(CRLF_CRLF, raw + CRLF_CRLF) == Some(|raw|) ==>
              var outcome := Answer((raw + CRLF_CRLF) + rest, headRequest).outcome;
              match ParseHead(raw)
              case None => outcome == Refused(BadHead)
              case Some(h) =>
                !(100 <= h.status <= 199) && Framing(h.headers, h.status, headRequest).None? ==> outcome == Refused(BadFraming)
  {
    hide ParseHead, FindFrom, Framing, At, HeadFits;
    if Find(CRLF_CRLF, raw + CRLF_CRLF) == Some(|raw|) {
      var s := (raw + CRLF_CRLF) + rest;
      FindInPrefix(CRLF_CRLF, raw + CRLF_CRLF, rest);
      assert s[..|raw|] == raw && s[|raw| + 4..] == rest;
    }
  }
}
