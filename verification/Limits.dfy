/** The two places that bound a request body: the body wrapper a route installs and the collector an
    extractor runs over it. */
module Limits {
  import opened Octets
  import opened Numbers

  const USIZE_MAX: nat := 0xFFFF_FFFF_FFFF_FFFF
  const ISIZE_MAX: nat := 0x7FFF_FFFF_FFFF_FFFF

  function SaturatingAdd(a: nat, b: nat): nat {
    if a + b <= USIZE_MAX then a + b else USIZE_MAX
  }

  /** Which limit was crossed, and the count at that moment. */
  datatype Exceeded = Exceeded(limit: nat, received: nat)

  datatype BodyError =
    | Limited(exceeded: Option<Exceeded>, message: string) // from the body wrapper
    | Bare(exceeding: Exceeded)
    | Foreign(message: string)

  function Describe(x: Exceeded): string {
    "request body exceeded limit of " + Render(x.limit, Decimal)
    + " bytes (received at least " + Render(x.received, Decimal) + " bytes)"
  }

  function Display(e: BodyError): string {
    match e
    case Limited(_, message) => message
    case Bare(x) => Describe(x)
    case Foreign(message) => message
  }

  /** One answer of a body: a data frame, a frame of another kind, or a failure. A body is the sequence of
      its answers; polling may go on after a failure. */
  datatype Item = Data(bytes: Bytes) | Other(fields: string) | Failed(error: BodyError)

  function DataOf(items: seq<Item>): Bytes {
    if items == [] then [] else (if items[0].Data? then items[0].bytes else []) + DataOf(items[1..])
  }

  // ---- The wrapper ----

  /** What the wrapper answers for one item, having received `received` octets before. */
  function Pass(item: Item, limit: nat, received: nat): (Item, nat) {
    match item
    case Data(bytes) =>
      var next := SaturatingAdd(received, |bytes|);
      if next > limit then
        (Failed(Limited(Some(Exceeded(limit, next)), Describe(Exceeded(limit, next)))), next)
      else (item, next)
    case Other(_) => (item, received)
    case Failed(error) => (Failed(Limited(None, Display(error))), received)
  }

  /** All of the wrapper's answers. */
  function Wrapped(items: seq<Item>, limit: nat, received: nat): seq<Item> {
    if items == [] then []
    else [Pass(items[0], limit, received).0] + Wrapped(items[1..], limit, Pass(items[0], limit, received).1)
  }

  class LimitedBody {
    var inner: seq<Item>
    const limit: nat
    var received: nat

    constructor (inner: seq<Item>, limit: nat)
      ensures this.limit == limit && Remaining() == Wrapped(inner, limit, 0)
    {
      this.inner, this.limit, received := inner, limit, 0;
    }

    ghost function Remaining(): seq<Item>
      reads this
    {
      Wrapped(inner, limit, received)
    }

    method PollFrame() returns (r: Option<Item>)
      modifies this
      ensures old(Remaining()) == [] ==> r == None && Remaining() == []
      ensures old(Remaining()) != [] ==> r == Some(old(Remaining())[0]) && Remaining() == old(Remaining())[1..]
    {
      if inner == [] {
        return None;
      }
      var frame := inner[0];
      inner := inner[1..];
      match frame
      case Data(bytes) =>
        var next := SaturatingAdd(received, |bytes|);
        received := next;
        if next > limit {
          var exceeded := Exceeded(limit, next);
          r := Some(Failed(Limited(Some(exceeded), Describe(exceeded))));
        } else {
          r := Some(Data(bytes));
        }
      case Other(_) =>
        r := Some(frame);
      case Failed(error) =>
        r := Some(Failed(Limited(None, Display(error))));
    }
  }

  /** Once crossed, the limit stays crossed: no data gets through however long polling goes on. */
  lemma {:induction false} CrossedStaysCrossed(items: seq<Item>, limit: nat, received: nat)
    requires limit < received <= USIZE_MAX
    ensures DataOf(Wrapped(items, limit, received)) == []
    decreases |items|
  {
    if items != [] {
      var (item, next) := Pass(items[0], limit, received);
      CrossedStaysCrossed(items[1..], limit, next);
      assert Wrapped(items, limit, received)[1..] == Wrapped(items[1..], limit, next);
    }
  }

  lemma {:induction false} EmitsWithin(items: seq<Item>, limit: nat, received: nat)
    requires received <= limit < USIZE_MAX
    ensures |DataOf(Wrapped(items, limit, received))| <= limit - received
    decreases |items|
  {
    if items != [] {
      var (item, next) := Pass(items[0], limit, received);
      assert Wrapped(items, limit, received)[1..] == Wrapped(items[1..], limit, next);
      if next > limit {
        CrossedStaysCrossed(items[1..], limit, next);
      } else {
        EmitsWithin(items[1..], limit, next);
      }
    }
  }

  predicate RealFrames(items: seq<Item>) {
    forall i :: 0 <= i < |items| && items[i].Data? ==> |items[i].bytes| <= ISIZE_MAX
  }

  /** The bound a wrapper promises, over every body it may be given. */
  ghost predicate Bounds(limit: nat) {
    forall items :: RealFrames(items) ==> |DataOf(Wrapped(items, limit, 0))| <= limit
  }

  /** With the largest limit the saturated counter can never pass it, so nothing is ever cut off. */
  lemma {:induction false} MaximalLimitIsNone(items: seq<Item>, received: nat)
    requires received <= USIZE_MAX
    ensures DataOf(Wrapped(items, USIZE_MAX, received)) == DataOf(items)
    decreases |items|
  {
    if items != [] {
      var (item, next) := Pass(items[0], USIZE_MAX, received);
      assert Wrapped(items, USIZE_MAX, received)[1..] == Wrapped(items[1..], USIZE_MAX, next);
      MaximalLimitIsNone(items[1..], next);
    }
  }

  function Block(n: nat): (b: Bytes)
    ensures |b| == n
  {
    seq(n, _ => '0')
  }

  /** The wrapper keeps its total within the limit exactly when the limit is below the largest count. */
  lemma {:induction false} BoundsIff(limit: nat)
    requires limit <= USIZE_MAX
    ensures Bounds(limit) <==> limit < USIZE_MAX
  {
    if limit < USIZE_MAX {
      forall items ensures |DataOf(Wrapped(items, limit, 0))| <= limit {
        EmitsWithin(items, limit, 0);
      }
    } else {
      var items := [Data(Block(ISIZE_MAX)), Data(Block(ISIZE_MAX)), Data(Block(2))];
      MaximalLimitIsNone(items, 0);
      ThreeFrames(items[0], items[1], items[2]);
      assert RealFrames(items);
    }
  }

  lemma {:induction false} ThreeFrames(a: Item, b: Item, c: Item)
    requires a.Data? && b.Data? && c.Data?
    ensures |DataOf([a, b, c])| == |a.bytes| + |b.bytes| + |c.bytes|
  {
    assert [a, b, c][1..] == [b, c] && [b, c][1..] == [c] && [c][1..] == [];
    assert |DataOf([c])| == |c.bytes|;
    assert |DataOf([b, c])| == |b.bytes| + |c.bytes|;
  }

  // ---- The collector ----

  datatype CollectionError = Body(error: BodyError) | LimitExceeded(exceeded: Exceeded)

  function Collect(items: seq<Item>, limit: nat, received: nat): Result<Bytes, CollectionError> {
    if items == [] then Ok([])
    else
      match items[0]
      case Data(bytes) =>
        var next := SaturatingAdd(received, |bytes|);
        if next > limit then Err(LimitExceeded(Exceeded(limit, next)))
        else
          (match Collect(items[1..], limit, next)
          case Ok(rest) => Ok(bytes + rest)
          case Err(error) => Err(error))
      case Other(_) => Collect(items[1..], limit, received)
      case Failed(error) => Err(Body(error))
  }

  /** `output` followed by what is still to be collected. */
  function After(output: Bytes, r: Result<Bytes, CollectionError>): Result<Bytes, CollectionError> {
    match r
    case Ok(rest) => Ok(output + rest)
    case Err(_) => r
  }

  method CollectBytesLimited(body: seq<Item>, limit: nat) returns (r: Result<Bytes, CollectionError>)
    ensures r == Collect(body, limit, 0)
  {
    var output: Bytes, received: nat, i: nat := [], 0, 0;
    assert body[0..] == body;
    AfterNothing(Collect(body, limit, 0));
    while i < |body|
      invariant i <= |body| && After(output, Collect(body[i..], limit, received)) == Collect(body, limit, 0)
    {
      assert body[i..][1..] == body[i + 1..];
      if body[i].Failed? {
        return Err(Body(body[i].error));
      }
      if body[i].Data? {
        var data := body[i].bytes;
        var next := SaturatingAdd(received, |data|);
        if next > limit {
          return Err(LimitExceeded(Exceeded(limit, next)));
        }
        AfterTwice(output, data, Collect(body[i + 1..], limit, next));
        output := output + data;
        received := next;
      }
      i := i + 1;
    }
    assert output + [] == output;
    r := Ok(output);
  }

  lemma {:induction false} AfterNothing(r: Result<Bytes, CollectionError>)
    ensures After([], r) == r
  {
    assert r.Ok? ==> [] + r.value == r.value;
  }

  lemma {:induction false} AfterTwice(output: Bytes, bytes: Bytes, rest: Result<Bytes, CollectionError>)
    ensures After(output, After(bytes, rest)) == After(output + bytes, rest)
  {
    if rest.Ok? {
      Regroup(output, bytes, rest.value);
    }
  }

  /** The index of the first failure, or the length of the body. */
  function FirstFailure(items: seq<Item>): (n: nat)
    ensures n <= |items| && (n < |items| ==> items[n].Failed?)
    ensures forall i :: 0 <= i < n ==> !items[i].Failed?
  {
    if items == [] || items[0].Failed? then 0 else 1 + FirstFailure(items[1..])
  }

  /** The octets a body delivers before anything goes wrong. */
  function Delivered(items: seq<Item>): Bytes {
    DataOf(items[..FirstFailure(items)])
  }

  lemma {:induction false} DeliveredNothing(items: seq<Item>)
    ensures items == [] || items[0].Failed? ==> Delivered(items) == []
  {
    assert items[..0] == [];
  }

  lemma {:induction false} DeliveredStep(items: seq<Item>)
    requires items != [] && !items[0].Failed?
    ensures Delivered(items) == (if items[0].Data? then items[0].bytes else []) + Delivered(items[1..])
  {
    var n := FirstFailure(items);
    assert items[..n][1..] == items[1..][..n - 1];
  }

  /** Collection, told without its loop: an overrun before the first failure is always the limit case, a
      failure within the limit is that failure, and otherwise the result is all of the data. */
  lemma {:induction false} CollectMeans(items: seq<Item>, limit: nat, received: nat)
    requires received <= limit <= USIZE_MAX
    ensures var r, n := Collect(items, limit, received), FirstFailure(items);
            if SaturatingAdd(received, |Delivered(items)|) > limit then
              r.Err? && r.error.LimitExceeded? && r.error.exceeded.limit == limit < r.error.exceeded.received
            else if n < |items| then r == Err(Body(items[n].error))
            else r == Ok(DataOf(items))
    decreases |items|
  {
    if items == [] {
    } else if items[0].Failed? {
      assert items[..0] == [];
    } else {
      DeliveredStep(items);
      hide Delivered;
      assert [] + DataOf(items[1..]) == DataOf(items[1..]);
      var next := SaturatingAdd(received, if items[0].Data? then |items[0].bytes| else 0);
      if next <= limit {
        CollectMeans(items[1..], limit, next);
      }
    }
  }

  // ---- Both together ----

  function LimitOf(e: BodyError): Option<Exceeded> {
    match e
    case Limited(exceeded, _) => exceeded
    case Bare(x) => Some(x)
    case Foreign(_) => None
  }

  /** The limit an unsuccessful collection ran into, if that is why it stopped. */
  function BodyLimitFromCollection(e: CollectionError): Option<Exceeded> {
    match e
    case Body(error) => LimitOf(error)
    case LimitExceeded(x) => Some(x)
  }

  /** What an extractor makes of it: the bytes, status 413, or status 400. */
  datatype Verdict = Accepted(bytes: Bytes) | TooLarge(exceeded: Exceeded) | Unreadable

  function Judge(r: Result<Bytes, CollectionError>): Verdict {
    match r
    case Ok(bytes) => Accepted(bytes)
    case Err(error) =>
      match BodyLimitFromCollection(error)
      case Some(x) => TooLarge(x)
      case None => Unreadable
  }

  function Blurred(r: Result<Bytes, CollectionError>): Verdict {
    if r.Err? && r.error.Body? then Unreadable else Judge(r)
  }

  /** Collecting the wrapped body is collecting the body, except that a failure from below is no longer
      recognised as a limit. */
  lemma {:induction false} WrappedVerdict(items: seq<Item>, limit: nat, received: nat)
    requires received <= limit
    ensures Judge(Collect(Wrapped(items, limit, received), limit, received)) == Blurred(Collect(items, limit, received))
    decreases |items|
  {
    hide Describe, Display;
    if items != [] {
      var (item, next) := Pass(items[0], limit, received);
      assert Wrapped(items, limit, received)[1..] == Wrapped(items[1..], limit, next);
      if next <= limit {
        WrappedVerdict(items[1..], limit, next);
      }
    }
  }

  /** A failure carrying a limit of its own reaches the collector before an overrun. */
  predicate FailsOnLowerLimit(items: seq<Item>, limit: nat) {
    var n := FirstFailure(items);
    n < |items| && LimitOf(items[n].error).Some? && SaturatingAdd(0, |Delivered(items)|) <= limit
  }

  /** Stacking the wrapper under the collector with the same limit changes no verdict, unless the body below
      fails on a limit of its own: that is answered with 400 in place of 413. */
  lemma {:induction false} StackedLimitsAgree(items: seq<Item>, limit: nat)
    requires limit <= USIZE_MAX
    ensures Judge(Collect(Wrapped(items, limit, 0), limit, 0)) == Judge(Collect(items, limit, 0))
            <==> !FailsOnLowerLimit(items, limit)
  {
    hide Collect, Wrapped, Delivered, FirstFailure;
    WrappedVerdict(items, limit, 0);
    CollectMeans(items, limit, 0);
  }

  /** Whether bytes are accepted, and which, never depends on the stacking. */
  lemma {:induction false} SameBytes(items: seq<Item>, limit: nat)
    requires limit <= USIZE_MAX
    ensures var direct, stacked := Collect(items, limit, 0), Collect(Wrapped(items, limit, 0), limit, 0);
            && (direct.Ok? || stacked.Ok? ==> direct == stacked)
            && (direct.Ok? <==> FirstFailure(items) == |items| && SaturatingAdd(0, |DataOf(items)|) <= limit)
  {
    hide Collect, Wrapped, FirstFailure;
    WrappedVerdict(items, limit, 0);
    CollectMeans(items, limit, 0);
    if FirstFailure(items) == |items| {
      assert items[..|items|] == items;
    }
  }

  /** A wrapper's own overrun, seen by a collector above it with no lower limit. */
  lemma {:induction false} OverrunReported(items: seq<Item>, lower: nat, limit: nat, received: nat)
    requires received <= lower <= limit <= USIZE_MAX && SaturatingAdd(received, |Delivered(items)|) > lower
    ensures var r := Collect(Wrapped(items, lower, received), limit, received);
            r.Err? && r.error.Body? && LimitOf(r.error.error).Some? && LimitOf(r.error.error).value.limit == lower
    decreases |items|
  {
    DeliveredNothing(items);
    hide Delivered, Describe;
    if items != [] && !items[0].Failed? {
      DeliveredStep(items);
      var (item, next) := Pass(items[0], lower, received);
      assert Wrapped(items, lower, received)[1..] == Wrapped(items[1..], lower, next);
      if next <= lower {
        OverrunReported(items[1..], lower, limit, next);
      }
    }
  }

  /** The family in which stacking matters is real: of two wrappers, one in the other, the overrun of the
      inner one is answered with 400, though a collector right above it answers 413. */
  lemma {:induction false} LowerLimitIsLost(items: seq<Item>, lower: nat, limit: nat)
    requires lower <= limit <= USIZE_MAX && SaturatingAdd(0, |Delivered(items)|) > lower
    ensures var inner := Wrapped(items, lower, 0);
            && FailsOnLowerLimit(inner, limit)
            && Judge(Collect(inner, limit, 0)).TooLarge?
            && Judge(Collect(Wrapped(inner, limit, 0), limit, 0)) == Unreadable
  {
    hide Collect, Wrapped, Delivered, FirstFailure;
    OverrunReported(items, lower, limit, 0);
    WrappedVerdict(Wrapped(items, lower, 0), limit, 0);
    CollectMeans(Wrapped(items, lower, 0), limit, 0);
  }

  // ---- Both, item by item ----

  /** A count that stops at the largest value of the type. */
  function Capped(n: nat): nat {
    if n <= 0xFFFF_FFFF_FFFF_FFFF then n else 0xFFFF_FFFF_FFFF_FFFF
  }

  lemma {:induction false} CountedTwice(a: nat, b: nat, c: nat)
    ensures Capped(SaturatingAdd(a, b) + c) == Capped(a + b + c) && Capped(a + b) == SaturatingAdd(a, b)
  {
  }

  lemma {:induction false} DataOfMore(items: seq<Item>, i: nat)
    requires 0 < i <= |items|
    ensures |DataOf(items[..i])| == (if items[0].Data? then |items[0].bytes| else 0) + |DataOf(items[1..][..i - 1])|
  {
    assert items[..i][1..] == items[1..][..i - 1];
  }

  /** The wrapper's answer for any item: a data frame passes while the count up to and with it is within the
      limit, and else is answered with that count; other frames always pass; a failure keeps its text. */
  lemma {:induction false} WrappedAt(items: seq<Item>, limit: nat, received: nat, i: nat)
    requires i < |items| && received <= USIZE_MAX
    ensures |Wrapped(items, limit, received)| == |items|
    ensures var total := Capped(received + |DataOf(items[..i + 1])|);
            Wrapped(items, limit, received)[i] ==
            match items[i]
            case Data(_) =>
              if total <= limit then items[i]
              else Failed(Limited(Some(Exceeded(limit, total)), Describe(Exceeded(limit, total))))
            case Other(_) => items[i]
            case Failed(error) => Failed(Limited(None, Display(error)))
    decreases |items|
  {
    hide Describe, Display, DataOf, Wrapped;
    var (item, next) := Pass(items[0], limit, received);
    DataOfMore(items, i + 1);
    WrappedFirst(items, limit, received);
    var own := if items[0].Data? then |items[0].bytes| else 0;
    CountedTwice(received, own, |DataOf(items[1..][..i])|);
    hide Capped, SaturatingAdd;
    if |items| > 1 {
      WrappedAt(items[1..], limit, next, if i > 0 then i - 1 else 0);
    } else {
      WrappedNone(items[1..], limit, next);
    }
    if i == 0 {
      NoData(items[1..][..0]);
    }
  }

  lemma {:induction false} WrappedFirst(items: seq<Item>, limit: nat, received: nat)
    requires items != []
    ensures var (item, next) := Pass(items[0], limit, received);
            var all, rest := Wrapped(items, limit, received), Wrapped(items[1..], limit, next);
            |all| == 1 + |rest| && all[0] == item && forall i :: 0 <= i < |rest| ==> all[i + 1] == rest[i]
  {
    hide Pass;
  }

  lemma {:induction false} WrappedNone(items: seq<Item>, limit: nat, received: nat)
    requires items == []
    ensures Wrapped(items, limit, received) == []
  {
  }

  lemma {:induction false} NoData(items: seq<Item>)
    requires items == []
    ensures DataOf(items) == []
  {
  }

  /** The count that a collector reports: that of the data up to and with the frame that crosses the limit. */
  lemma {:induction false} CollectReports(items: seq<Item>, limit: nat, received: nat, k: nat)
    requires received <= limit && received <= USIZE_MAX && k < |items| && items[k].Data?
    requires forall i :: 0 <= i < k ==> !items[i].Failed?
    requires Capped(received + |DataOf(items[..k])|) <= limit < Capped(received + |DataOf(items[..k + 1])|)
    ensures Collect(items, limit, received) ==
            Err(LimitExceeded(Exceeded(limit, Capped(received + |DataOf(items[..k + 1])|))))
    decreases |items|
  {
    var own := if items[0].Data? then |items[0].bytes| else 0;
    var next := SaturatingAdd(received, own);
    DataOfMore(items, k + 1);
    CountedTwice(received, own, |DataOf(items[1..][..k])|);
    if k == 0 {
      NoData(items[1..][..0]);
    } else {
      DataOfMore(items, k);
      CountedTwice(received, own, |DataOf(items[1..][..k - 1])|);
      hide DataOf;
      CollectReports(items[1..], limit, next, k - 1);
    }
  }

  /** What each way of failing is answered with. */
  lemma {:induction false} Answers(x: Exceeded, text: string)
    ensures Judge(Err(LimitExceeded(x))) == TooLarge(x)
    ensures Judge(Err(Body(Limited(Some(x), text)))) == TooLarge(x) && Judge(Err(Body(Bare(x)))) == TooLarge(x)
    ensures Judge(Err(Body(Limited(None, text)))) == Unreadable && Judge(Err(Body(Foreign(text)))) == Unreadable
  {
  }
}
