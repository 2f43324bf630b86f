/** A client request from its absolute URI to the wire: choosing the origin, the HTTP/1 target and `Host`,
    and sending again what a stale pooled connection handed back. */
module Requests {
  import opened Octets
  import opened Numbers

  datatype Version = Http10 | Http11 | Http2 | OtherVersion

  datatype Port = Port(text: string, number: nat)

  datatype Authority = Authority(text: string, host: string, port: Option<Port>)

  datatype Uri = Uri(scheme: Option<string>, authority: Option<Authority>, pathAndQuery: Option<string>)

  type Headers = map<string, seq<string>>

  datatype Request = Request(method_: string, version: Version, body: Bytes, uri: Uri, headers: Headers)

  datatype Origin = Origin(scheme: string, authority: Authority)

  datatype Error = AbsoluteUriRequired | UnsupportedMethod | UnsupportedVersion | Canceled | SendRequest | Connect

  const HOST := "host"
  const CONNECT := "CONNECT"
  const ROOT := Uri(None, None, Some("/"))

  // ---- The origin ----

  /** An absolute URI names its origin; for CONNECT a bare authority does, with the scheme taken from the
      port. */
  function Absolute(uri: Uri, isConnect: bool): Option<Uri> {
    if uri.scheme.Some? && uri.authority.Some? then Some(uri)
    else if uri.scheme.None? && uri.authority.Some? && isConnect then
      var secure := uri.authority.value.port.Some? && uri.authority.value.port.value.number == 443;
      Some(Uri(Some(if secure then "https" else "http"), uri.authority, Some("/")))
    else None
  }

  // ---- The HTTP/1 form ----

  predicate IsSecure(uri: Uri) {
    uri.scheme == Some("https") || uri.scheme == Some("wss")
  }

  function NonDefaultPort(uri: Uri): Option<Port>
    requires uri.authority.Some?
  {
    var port := uri.authority.value.port;
    if port.Some? && port.value.number == (if IsSecure(uri) then 443 else 80) then None else port
  }

  function HostText(uri: Uri): string
    requires uri.authority.Some?
  {
    var host := uri.authority.value.host;
    match NonDefaultPort(uri)
    case Some(port) => host + ":" + port.text
    case None => host
  }

  function WithHost(r: Request): Request
    requires HOST !in r.headers ==> r.uri.authority.Some?
  {
    if HOST in r.headers then r else r.(headers := r.headers[HOST := [HostText(r.uri)]])
  }

  function PathText(uri: Uri): string {
    if uri.pathAndQuery.None? || uri.pathAndQuery.value == "" then "/" else uri.pathAndQuery.value
  }

  /** Origin form for all methods but CONNECT, which uses authority form. */
  function Target(r: Request): Uri {
    if r.method_ == CONNECT then Uri(None, r.uri.authority, None)
    else if PathText(r.uri) == "/" then ROOT
    else Uri(None, None, r.uri.pathAndQuery)
  }

  function OnWire(r: Request, setHost: bool): Request
    requires r.uri.authority.Some?
  {
    var hosted := if setHost then WithHost(r) else r;
    hosted.(uri := Target(r))
  }

  /** An origin is named by scheme and authority; for CONNECT by an authority alone, which is then https
      exactly for port 443. */
  lemma {:induction false} AbsoluteMeans(uri: Uri, isConnect: bool)
    ensures uri.authority.None? ==> Absolute(uri, isConnect).None?
    ensures uri.authority.Some? && uri.scheme.Some? ==> Absolute(uri, isConnect) == Some(uri)
    ensures uri.authority.Some? && uri.scheme.None? && !isConnect ==> Absolute(uri, isConnect).None?
    ensures uri.authority.Some? && uri.scheme.None? && isConnect ==>
              && Absolute(uri, isConnect).Some?
              && var a := Absolute(uri, isConnect).value;
                 && a.authority == uri.authority && a.pathAndQuery == Some("/") && a.scheme in {Some("http"), Some("https")}
                 && (a.scheme == Some("https") <==> exists text :: uri.authority.value.port == Some(Port(text, 443)))
  {
    if uri.authority.Some? && uri.authority.value.port.Some? && uri.authority.value.port.value.number == 443 {
      assert uri.authority.value.port == Some(Port(uri.authority.value.port.value.text, 443));
    }
  }

  /** The HTTP/1 form, part by part: the target is the authority for CONNECT and else the path, never empty; a
      `Host` is added only when asked for and missing, and names the port unless it is the scheme's own; the rest
      is the caller's. */
  lemma {:induction false} WireForm(r: Request, setHost: bool)
    requires r.uri.authority.Some?
    ensures var w, a := OnWire(r, setHost), r.uri.authority.value;
            var own := if r.uri.scheme == Some("https") || r.uri.scheme == Some("wss") then 443 else 80;
            && w.method_ == r.method_ && w.version == r.version && w.body == r.body
            && w.uri == (if r.method_ == "CONNECT" then Uri(None, Some(a), None)
                         else if r.uri.pathAndQuery in {None, Some(""), Some("/")} then Uri(None, None, Some("/"))
                         else Uri(None, None, r.uri.pathAndQuery))
            && w.headers ==
               if !setHost || "host" in r.headers then r.headers
               else r.headers["host" := [if a.port.None? || a.port.value.number == own then a.host else a.host + ":" + a.port.value.text]]
  {
  }

  class ClientRequest {
    const method_: string
    const version: Version
    const body: Bytes
    var uri: Uri
    var headers: Headers

    constructor (r: Request)
      ensures View() == r
    {
      method_, version, body, uri, headers := r.method_, r.version, r.body, r.uri, r.headers;
    }

    ghost function View(): Request
      reads this
    {
      Request(method_, version, body, uri, headers)
    }

    method ExtractOrigin(isConnect: bool) returns (r: Result<Origin, Error>)
      modifies this`uri
      ensures match Absolute(old(uri), isConnect)
              case Some(a) => r == Ok(Origin(a.scheme.value, a.authority.value)) && uri == a
              case None => r == Err(AbsoluteUriRequired) && uri == old(uri)
    {
      if uri.authority.None? {
        return Err(AbsoluteUriRequired);
      }
      var authority := uri.authority.value;
      if uri.scheme.Some? {
        return Ok(Origin(uri.scheme.value, authority));
      }
      if !isConnect {
        return Err(AbsoluteUriRequired);
      }
      var scheme := if authority.port.Some? && authority.port.value.number == 443 then "https" else "http";
      uri := uri.(scheme := Some(scheme));
      uri := uri.(pathAndQuery := Some("/"));
      r := Ok(Origin(scheme, authority));
    }

    method SynthesizeHost()
      requires HOST !in headers ==> uri.authority.Some?
      modifies this`headers
      ensures View() == WithHost(old(View()))
    {
      if HOST in headers {
        return;
      }
      var value := uri.authority.value.host;
      var port := NonDefaultPort(uri);
      if port.Some? {
        value := value + ":" + port.value.text;
      }
      headers := headers[HOST := [value]];
    }

    method NormalizeHttp1(setHost: bool)
      requires uri.authority.Some?
      modifies this
      ensures View() == OnWire(old(View()), setHost)
    {
      if setHost {
        SynthesizeHost();
      }
      if method_ == CONNECT {
        uri := Uri(None, uri.authority, None);
      } else if PathText(uri) != "/" {
        uri := Uri(None, None, uri.pathAndQuery);
      } else {
        uri := ROOT;
      }
    }
  }

  // ---- What the wire form means ----

  predicate IsHost(host: string) {
    if host != "" && host[0] == '[' then Find("]", host) == Some(|host| - 1) else Find(":", host).None?
  }

  predicate IsPort(port: Port) {
    port.text != "" && Value(port.text, Decimal) == Some(port.number)
  }

  predicate IsAuthority(a: Authority) {
    IsHost(a.host) && (a.port.Some? ==> IsPort(a.port.value))
  }

  /** Where the host part of `uri-host [":" port]` ends. */
  function HostEnd(s: string): (k: nat)
    ensures k <= |s|
  {
    if s != "" && s[0] == '[' then
      match Find("]", s) { case Some(i) => i + 1 case None => |s| }
    else
      match Find(":", s) { case Some(i) => i case None => |s| }
  }

  function EffectivePort(port: Option<nat>, secure: bool): nat {
    match port
    case Some(n) => n
    case None => if secure then 443 else 80
  }

  /** The resource a request names: host, port and path. */
  datatype Resource = Resource(secure: bool, host: string, port: nat, path: string)

  function Named(uri: Uri): Resource
    requires uri.authority.Some?
  {
    var a := uri.authority.value;
    Resource(IsSecure(uri), a.host, EffectivePort(if a.port.Some? then Some(a.port.value.number) else None, IsSecure(uri)),
             PathText(uri))
  }

  /** How a server reconstructs it from an origin-form target and `Host`, by section 7.1 of RFC 9110. */
  function Reconstructed(host: string, target: Uri, secure: bool): Resource {
    var k := HostEnd(host);
    var port := if k < |host| && host[k] == ':' then Value(host[k + 1..], Decimal) else None;
    Resource(secure, host[..k], EffectivePort(port, secure), PathText(target))
  }

  lemma {:induction false} HostEndsThere(host: string, rest: string)
    requires IsHost(host) && (rest == "" || rest[0] == ':')
    ensures HostEnd(host + rest) == |host|
  {
    var s := host + rest;
    if host != "" && host[0] == '[' {
      FindInPrefix("]", host, rest);
    } else if rest == "" {
      assert s == host;
    } else {
      assert s[|host|..|host| + 1] == ":";
      forall j: nat | j < |host| ensures !At(":", s, j) {
        assert s[j..j + 1] == host[j..j + 1];
        assert !At(":", host, j);
      }
      FirstIs(":", s, |host|);
    }
  }

  lemma {:induction false} HostReadBack(uri: Uri)
    requires uri.authority.Some? && IsAuthority(uri.authority.value)
    ensures var a, text, k := uri.authority.value, HostText(uri), HostEnd(HostText(uri));
            && text[..k] == a.host
            && match NonDefaultPort(uri)
               case Some(port) => k < |text| && text[k] == ':' && text[k + 1..] == port.text
               case None => k == |text|
  {
    hide HostEnd, IsHost;
    var host := uri.authority.value.host;
    match NonDefaultPort(uri)
    case Some(port) =>
      HostEndsThere(host, ":" + port.text);
      assert host + ":" + port.text == host + (":" + port.text);
    case None =>
      HostEndsThere(host, "");
      assert host + "" == host;
  }

  /** The HTTP/1 form of a request still names the resource its absolute URI named. */
  lemma {:induction false} WireNamesTheResource(r: Request)
    requires r.uri.authority.Some? && IsAuthority(r.uri.authority.value)
    requires r.method_ != CONNECT && HOST !in r.headers
    ensures var wire := OnWire(r, true);
            && |wire.headers[HOST]| == 1
            && Reconstructed(wire.headers[HOST][0], wire.uri, IsSecure(r.uri)) == Named(r.uri)
  {
    hide HostEnd, IsHost, HostText, Value;
    HostReadBack(r.uri);
  }

  // ---- Sending ----

  /** How a connection disposes of a request: it answers, hands the request back unsent, or breaks. */
  datatype Reply = Answered(response: string) | HandedBack | Broken

  /** The pool and the peer, one attempt at a time. */
  datatype Attempt = NoConnection(error: Error) | Connected(http1: bool, reused: bool, reply: Reply)

  datatype Dispatch = Dispatch(wire: Request, http1: bool, reused: bool, reply: Reply)

  datatype Outcome = Response(response: string, reused: bool) | Failed(error: Error) | Unresolved

  function Drive(r: Request, absolute: Uri, retry: bool, setHost: bool, attempts: seq<Attempt>): (Outcome, seq<Dispatch>)
    requires r.uri == absolute && absolute.authority.Some?
    decreases |attempts|
  {
    if attempts == [] then (Unresolved, [])
    else if attempts[0].NoConnection? then (Failed(attempts[0].error), [])
    else if attempts[0].http1 && r.version == Http2 then (Failed(UnsupportedVersion), [])
    else
      var a := attempts[0];
      var wire := if a.http1 then OnWire(r, setHost) else r;
      match a.reply
      case Answered(response) => (Response(response, a.reused), [Dispatch(wire, a.http1, a.reused, a.reply)])
      case Broken => (Failed(SendRequest), [Dispatch(wire, a.http1, a.reused, a.reply)])
      case HandedBack =>
        if !retry || !a.reused then (Failed(Canceled), [Dispatch(wire, a.http1, a.reused, a.reply)])
        else
          var (outcome, log) := Drive(wire.(uri := absolute), absolute, retry, setHost, attempts[1..]);
          (outcome, [Dispatch(wire, a.http1, a.reused, a.reply)] + log)
  }

  method SendAll(request: ClientRequest, retry: bool, setHost: bool, attempts: seq<Attempt>)
    returns (outcome: Outcome, log: seq<Dispatch>)
    requires request.uri.authority.Some?
    modifies request
    ensures (outcome, log) == Drive(old(request.View()), old(request.uri), retry, setHost, attempts)
  {
    hide OnWire;
    var absolute := request.uri;
    log := [];
    var i := 0;
    ghost var all := Drive(request.View(), absolute, retry, setHost, attempts);
    assert attempts[0..] == attempts && [] + all.1 == all.1;
    while i < |attempts|
      invariant i <= |attempts| && request.uri == absolute
      invariant var rest := Drive(request.View(), absolute, retry, setHost, attempts[i..]);
                all.0 == rest.0 && all.1 == log + rest.1
    {
      ghost var before := log;
      var a := attempts[i];
      assert log + [] == log;
      assert attempts[i..][0] == a && attempts[i..][1..] == attempts[i + 1..];
      if a.NoConnection? {
        return Failed(a.error), log;
      }
      if a.http1 {
        if request.version == Http2 {
          return Failed(UnsupportedVersion), log;
        }
        request.NormalizeHttp1(setHost);
      }
      var sent := Request(request.method_, request.version, request.body, request.uri, request.headers);
      log := log + [Dispatch(sent, a.http1, a.reused, a.reply)];
      if a.reply.Answered? {
        return Response(a.reply.response, a.reused), log;
      }
      if a.reply.Broken? {
        return Failed(SendRequest), log;
      }
      if !retry || !a.reused {
        return Failed(Canceled), log;
      }
      request.uri := absolute;
      i := i + 1;
      assert forall more :: before + ([log[|before|]] + more) == log + more;
    }
    assert log + [] == log;
    outcome := Unresolved;
  }

  /** The dispatches follow the attempts, and each but the last was handed back unsent by a reused
      connection, with retrying on. */
  predicate Orderly(log: seq<Dispatch>, attempts: seq<Attempt>, retry: bool) {
    && |log| <= |attempts|
    && (forall i :: 0 <= i < |log| ==> attempts[i] == Connected(log[i].http1, log[i].reused, log[i].reply))
    && forall i :: 0 <= i < |log| - 1 ==> retry && log[i].reused && log[i].reply.HandedBack?
  }

  /** Every HTTP/1 dispatch is the same request; the others differ from the caller's request only by a
      `Host` that an earlier HTTP/1 attempt may have left. */
  predicate Alike(log: seq<Dispatch>, first: Request, setHost: bool)
    requires first.uri.authority.Some?
  {
    forall i :: 0 <= i < |log| ==>
      if log[i].http1 then log[i].wire == OnWire(first, setHost)
      else log[i].wire == first || (setHost && log[i].wire == WithHost(first))
  }

  lemma {:induction false} AtMostOnce(r: Request, retry: bool, setHost: bool, attempts: seq<Attempt>)
    requires r.uri.authority.Some?
    ensures var (outcome, log) := Drive(r, r.uri, retry, setHost, attempts);
            && Orderly(log, attempts, retry)
            && (outcome.Response? <==> log != [] && log[|log| - 1].reply.Answered?)
            && (outcome.Response? ==> log[|log| - 1].reply.response == outcome.response)
    decreases |attempts|
  {
    hide OnWire;
    if attempts != [] && attempts[0].Connected? && attempts[0].reply.HandedBack? {
      var wire := if attempts[0].http1 then OnWire(r, setHost) else r;
      AtMostOnce(wire.(uri := r.uri), retry, setHost, attempts[1..]);
    }
  }

  lemma {:induction false} SameOnTheWire(first: Request, r: Request, retry: bool, setHost: bool, attempts: seq<Attempt>)
    requires first.uri.authority.Some?
    requires r == first || (setHost && r == WithHost(first))
    ensures Alike(Drive(r, first.uri, retry, setHost, attempts).1, first, setHost)
    decreases |attempts|
  {
    assert OnWire(r, setHost) == OnWire(first, setHost);
    if attempts != [] && attempts[0].Connected? {
      var wire := if attempts[0].http1 then OnWire(r, setHost) else r;
      var next := wire.(uri := first.uri);
      assert next == first || (setHost && next == WithHost(first));
      SameOnTheWire(first, next, retry, setHost, attempts[1..]);
    }
  }

  /** A list of attempts stands for any longer future: once a request is resolved nothing later matters, and
      until then more attempts only add to what was dispatched. */
  lemma {:induction false} MoreAttempts(r: Request, retry: bool, setHost: bool, attempts: seq<Attempt>, more: seq<Attempt>)
    requires r.uri.authority.Some?
    ensures var (outcome, log) := Drive(r, r.uri, retry, setHost, attempts);
            var longer := Drive(r, r.uri, retry, setHost, attempts + more);
            log <= longer.1 && (!outcome.Unresolved? ==> longer == (outcome, log))
    decreases |attempts|
  {
    hide OnWire;
    if attempts == [] {
      assert attempts + more == more;
    } else {
      assert (attempts + more)[0] == attempts[0] && (attempts + more)[1..] == attempts[1..] + more;
      if attempts[0].Connected? && attempts[0].reply.HandedBack? {
        var wire := if attempts[0].http1 then OnWire(r, setHost) else r;
        MoreAttempts(wire.(uri := r.uri), retry, setHost, attempts[1..], more);
      }
    }
  }

  /** The request was handed back by a reused connection that could have carried it, and may be sent again. */
  predicate GoesOn(a: Attempt, version: Version, retry: bool) {
    retry && a.Connected? && a.reused && a.reply.HandedBack? && !(a.http1 && version.Http2?)
  }

  /** What a call answers is decided by the first attempt at which it does not go on. */
  lemma {:induction false} FirstStopDecides(r: Request, retry: bool, setHost: bool, attempts: seq<Attempt>, k: nat)
    requires r.uri.authority.Some? && k <= |attempts|
    requires forall i :: 0 <= i < k ==> GoesOn(attempts[i], r.version, retry)
    requires k < |attempts| ==> !GoesOn(attempts[k], r.version, retry)
    ensures var (outcome, log) := Drive(r, r.uri, retry, setHost, attempts);
            if k == |attempts| then outcome == Unresolved && |log| == k
            else
              match attempts[k]
              case NoConnection(error) => outcome == Failed(error) && |log| == k
              case Connected(http1, reused, reply) =>
                if http1 && r.version.Http2? then outcome == Failed(UnsupportedVersion) && |log| == k
                else
                  && |log| == k + 1
                  && outcome == match reply
                                case Answered(response) => Response(response, reused)
                                case Broken => Failed(SendRequest)
                                case HandedBack => Failed(Canceled)
    decreases |attempts|
  {
    hide OnWire;
    if k > 0 {
      var wire := if attempts[0].http1 then OnWire(r, setHost) else r;
      WireVersion(r, setHost);
      FirstStopDecides(wire.(uri := r.uri), retry, setHost, attempts[1..], k - 1);
    }
  }

  lemma {:induction false} WireVersion(r: Request, setHost: bool)
    requires r.uri.authority.Some?
    ensures OnWire(r, setHost).version == r.version
  {
  }

  /** The whole of a client call: the version and the URI are checked before anything is sent. */
  function Submitted(r: Request, retry: bool, setHost: bool, attempts: seq<Attempt>): (Outcome, seq<Dispatch>) {
    if r.version.OtherVersion? then (Failed(UnsupportedVersion), [])
    else if r.version.Http10? && r.method_ == CONNECT then (Failed(UnsupportedMethod), [])
    else
      match Absolute(r.uri, r.method_ == CONNECT)
      case None => (Failed(AbsoluteUriRequired), [])
      case Some(a) => Drive(r.(uri := a), a, retry, setHost, attempts)
  }

  method SubmitRequest(request: ClientRequest, retry: bool, setHost: bool, attempts: seq<Attempt>)
    returns (outcome: Outcome, log: seq<Dispatch>)
    modifies request
    ensures (outcome, log) == Submitted(old(request.View()), retry, setHost, attempts)
  {
    hide Drive;
    var isConnect := request.method_ == CONNECT;
    match request.version {
      case Http11 | Http2 =>
      case Http10 =>
        if isConnect {
          return Failed(UnsupportedMethod), [];
        }
      case OtherVersion =>
        return Failed(UnsupportedVersion), [];
    }
    var key := request.ExtractOrigin(isConnect);
    if key.Err? {
      return Failed(key.error), [];
    }
    outcome, log := SendAll(request, retry, setHost, attempts);
  }

  /** No caller, configuration or network can make a request be dispatched twice or change between
      HTTP/1 dispatches. */
  lemma {:induction false} SubmittedOnce(r: Request, retry: bool, setHost: bool, attempts: seq<Attempt>)
    ensures var (outcome, log) := Submitted(r, retry, setHost, attempts);
            && Orderly(log, attempts, retry)
            && (log != [] ==>
                  var absolute := Absolute(r.uri, r.method_ == CONNECT);
                  absolute.Some? && Alike(log, r.(uri := absolute.value), setHost))
            && (outcome.Response? <==> log != [] && log[|log| - 1].reply.Answered?)
  {
    hide Drive, Alike;
    var absolute := Absolute(r.uri, r.method_ == CONNECT);
    if absolute.Some? {
      var first := r.(uri := absolute.value);
      AtMostOnce(first, retry, setHost, attempts);
      SameOnTheWire(first, first, retry, setHost, attempts);
    }
  }

  /** What is refused before anything is sent, and with which error. */
  lemma {:induction false} RefusedUnsent(r: Request, retry: bool, setHost: bool, attempts: seq<Attempt>)
    ensures var (outcome, log) := Submitted(r, retry, setHost, attempts);
            && (r.version.OtherVersion? ==> outcome == Failed(UnsupportedVersion) && log == [])
            && (r.version.Http10? && r.method_ == "CONNECT" ==> outcome == Failed(UnsupportedMethod) && log == [])
            && (!r.version.OtherVersion? && !(r.version.Http10? && r.method_ == "CONNECT")
                && (r.uri.authority.None? || (r.uri.scheme.None? && r.method_ != "CONNECT")) ==>
                  outcome == Failed(AbsoluteUriRequired) && log == [])
  {
    hide Drive;
  }
}
