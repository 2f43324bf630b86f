/** One origin's share of the connection pool: what the pool's tables hold for it, together with the
    guards, handles and channels that are alive outside the lock. Each function is one critical
    section of the pool, on values. */
module Origins {
  import opened Octets

  /** A connection of this origin. HTTP/1 connections are unique to one exchange; HTTP/2 ones are
      shared. */
  datatype Conn = Conn(serial: nat, shared: bool)

  datatype Idle = Idle(conn: Conn, idleAt: nat)

  /** A waiter's channel as its receiver sees it. */
  datatype Mail = Waiting | Sent(conn: Conn) | Orphaned

  /** A checked-out connection: whether dropping it goes back to the pool, and whether it owns an
      HTTP/1 slot. */
  datatype Handle = Handle(conn: Conn, linked: bool, h1Slot: bool)

  datatype Config = Config(maxIdle: nat, maxH1: nat, timeout: Option<nat>)

  predicate IsConfig(cfg: Config) {
    cfg.maxIdle >= 1 && cfg.maxH1 >= 1
  }

  datatype Origin = Origin(
    // the pool's four tables, at this origin's key
    connecting: bool,
    slots: Option<nat>,
    idle: Option<seq<Idle>>,
    waiters: Option<seq<nat>>,
    // what is alive outside the lock
    channels: map<nat, Mail>,
    guards: map<nat, bool>,
    handles: map<nat, Handle>,
    // connections dropped while their slot stayed counted
    lost: nat,
    // the next unused name, and the time of the last step
    next: nat,
    clock: nat)

  const FRESH := Origin(false, None, None, None, map[], map[], map[], 0, 0, 0)

  function Slots(o: Origin): nat {
    if o.slots.Some? then o.slots.value else 0
  }

  function List(o: Origin): seq<Idle> {
    if o.idle.Some? then o.idle.value else []
  }

  function Queue(o: Origin): seq<nat> {
    if o.waiters.Some? then o.waiters.value else []
  }

  // ---- Slots ----

  function ReserveSlot(o: Origin, cfg: Config): (Origin, bool) {
    if Slots(o) >= cfg.maxH1 then (o.(slots := Some(Slots(o))), false)
    else (o.(slots := Some(Slots(o) + 1)), true)
  }

  /** Saturating, as in the release build. */
  function ReleaseSlot(o: Origin): Origin {
    match o.slots
    case None => o
    case Some(n) => o.(slots := if n <= 1 then None else Some(n - 1))
  }

  // ---- Waiters ----

  /** A queued waiter that still listens when its turn comes, and is not dropped (`gone`) between
      the check and the send. */
  predicate Able(w: nat, channels: map<nat, Mail>, gone: set<nat>) {
    w in channels && w !in gone
  }

  datatype Offered = Offered(queue: seq<nat>, channels: map<nat, Mail>, left: Option<Conn>)

  /** Offers a connection down the queue. A failed send hands it back. */
  function Offer(queue: seq<nat>, channels: map<nat, Mail>, conn: Conn, gone: set<nat>): Offered {
    if queue == [] then Offered([], channels, Some(conn))
    else
      var w, rest := queue[0], queue[1..];
      if w !in channels then Offer(rest, channels, conn, gone)
      else if w in gone then Offer(rest, channels - {w}, conn, gone)
      else if conn.shared then Offer(rest, channels[w := Sent(conn)], conn, gone)
      else Offered(rest, channels[w := Sent(conn)], None)
  }

  /** All senders queued for this origin are dropped. */
  function DropSenders(o: Origin): Origin {
    o.(waiters := None,
       channels := map w | w in o.channels :: if w in Queue(o) then Orphaned else o.channels[w])
  }

  function CleanQueue(queue: seq<nat>, channels: map<nat, Mail>): seq<nat> {
    if queue == [] then []
    else (if queue[0] in channels then [queue[0]] else []) + CleanQueue(queue[1..], channels)
  }

  function CleanWaiters(o: Origin): Origin {
    var queue := CleanQueue(Queue(o), o.channels);
    o.(waiters := if o.waiters.None? || queue == [] then None else Some(queue))
  }

  // ---- Idle connections ----

  /** Closed, or idle for longer than the timeout. */
  predicate IsDead(entry: Idle, cfg: Config, closed: set<nat>, now: nat) {
    entry.conn.serial in closed
    || (cfg.timeout.Some? && now > entry.idleAt + cfg.timeout.value)
  }

  datatype Popped = Popped(list: seq<Idle>, conn: Option<Conn>, evicted: nat)

  /** Takes the most recently used live connection, evicting the dead ones above it; a shared one
      stays in the list as well. */
  function Pop(list: seq<Idle>, cfg: Config, closed: set<nat>, now: nat): Popped {
    if list == [] then Popped([], None, 0)
    else
      var top, rest := list[|list| - 1], list[..|list| - 1];
      if IsDead(top, cfg, closed, now) then
        var more := Pop(rest, cfg, closed, now);
        more.(evicted := more.evicted + if top.conn.shared then 0 else 1)
      else if top.conn.shared then Popped(rest + [Idle(top.conn, now)], Some(top.conn), 0)
      else Popped(rest, Some(top.conn), 0)
  }

  function Keep(list: seq<Idle>, cfg: Config, closed: set<nat>, now: nat): seq<Idle> {
    if list == [] then []
    else
      var top, rest := list[|list| - 1], list[..|list| - 1];
      Keep(rest, cfg, closed, now) + if IsDead(top, cfg, closed, now) then [] else [top]
  }

  /** How many HTTP/1 connections of the list are dead. */
  function Evicted(list: seq<Idle>, cfg: Config, closed: set<nat>, now: nat): nat {
    if list == [] then 0
    else
      var top, rest := list[|list| - 1], list[..|list| - 1];
      Evicted(rest, cfg, closed, now) + if IsDead(top, cfg, closed, now) && !top.conn.shared then 1 else 0
  }

  // ---- Giving a connection back ----

  function Put(o: Origin, cfg: Config, conn: Conn, gone: set<nat>, now: nat): (Origin, bool) {
    if conn.shared && o.idle.Some? then (o, false)
    else
      var offered := Offer(Queue(o), o.channels, conn, gone);
      var o' := o.(channels := offered.channels,
                   waiters := if o.waiters.None? || offered.queue == [] then None else Some(offered.queue));
      if offered.left.None? then (o', true)
      else if |List(o)| >= cfg.maxIdle then (o'.(idle := Some(List(o))), false)
      else (o'.(idle := Some(List(o) + [Idle(conn, now)])), true)
  }

  // ---- The steps ----

  datatype Action =
    | Connect(http2: bool)
    | PooledUnique(guard: nat)
    | PooledShared(guard: nat, gone: set<nat>)
    | AlpnRelease(guard: nat)
    | DropGuard(guard: nat)
    | DropHandle(handle: nat, sawOpen: bool, gone: set<nat>)
    | Checkout(hasWaiter: bool, closed: set<nat>)
    | Receive(waiter: nat, sawOpen: bool)
    | DropReceiver(waiter: nat)
    | Clean
    | Sweep(closed: set<nat>)

  datatype Step = Step(action: Action, now: nat)

  /** Which steps the program can take: guards, handles and receivers are used while they are alive,
      a guard becomes a connection of the kind it was reserved for, the idle task runs only with a timeout
      above zero, and time does not run back. */
  predicate Enabled(o: Origin, cfg: Config, s: Step) {
    && o.clock <= s.now
    && match s.action
       case PooledUnique(g) => g in o.guards && o.guards[g]
       case PooledShared(g, _) => g in o.guards && !o.guards[g]
       case AlpnRelease(g) => g in o.guards && o.guards[g]
       case DropGuard(g) => g in o.guards
       case DropHandle(h, _, _) => h in o.handles
       case Receive(w, _) => w in o.channels
       case DropReceiver(w) => w in o.channels
       case Sweep(_) => cfg.timeout.Some? && cfg.timeout.value > 0
       case _ => true
  }

  function NewGuard(o: Origin, h1Slot: bool): Origin {
    o.(guards := o.guards[o.next := h1Slot], next := o.next + 1)
  }

  function NewHandle(o: Origin, conn: Conn): Origin {
    o.(handles := o.handles[o.next := Handle(conn, !conn.shared, !conn.shared)], next := o.next + 1)
  }

  function Establish(o: Origin, http2: bool, cfg: Config): Origin {
    if http2 then
      if o.connecting then o else NewGuard(o.(connecting := true), false)
    else
      var (o', reserved) := ReserveSlot(o, cfg);
      if reserved then NewGuard(o', true) else o'
  }

  /** The new connection takes the next name as its serial. */
  function PoolUnique(o: Origin, guard: nat): Origin {
    NewHandle(o.(guards := o.guards - {guard}, next := o.next + 1), Conn(o.next, false))
  }

  function PoolShared(o: Origin, cfg: Config, guard: nat, gone: set<nat>, now: nat): Origin {
    var conn := Conn(o.next, true);
    var (o', _) := Put(o.(guards := o.guards - {guard}, next := o.next + 1), cfg, conn, gone, now);
    NewHandle(DropSenders(o'.(connecting := false)), conn)
  }

  function CancelGuard(o: Origin, guard: nat): Origin {
    var h1Slot := guard in o.guards && o.guards[guard];
    var o' := o.(guards := o.guards - {guard});
    DropSenders(if h1Slot then ReleaseSlot(o') else o'.(connecting := false))
  }

  function ReleaseHandle(o: Origin, cfg: Config, handle: nat, sawOpen: bool, gone: set<nat>, now: nat): Origin {
    if handle !in o.handles then o
    else
      var h := o.handles[handle];
      var o' := o.(handles := o.handles - {handle});
      if !sawOpen || !h.linked then if h.linked && h.h1Slot then ReleaseSlot(o') else o'
      else
        var (o'', kept) := Put(o', cfg, h.conn, gone, now);
        if kept || !h.h1Slot then o'' else ReleaseSlot(o'')
  }

  function CheckOut(o: Origin, cfg: Config, hasWaiter: bool, closed: set<nat>, now: nat): Origin {
    var popped := Pop(List(o), cfg, closed, now);
    var o' := o.(idle := if popped.list == [] then None else Some(popped.list),
                 lost := o.lost + popped.evicted);
    if popped.conn.Some? then NewHandle(o', popped.conn.value)
    else if hasWaiter then o'
    else o'.(waiters := Some(Queue(o) + [o.next]), channels := o.channels[o.next := Waiting], next := o.next + 1)
  }

  function LoseMail(o: Origin, waiter: nat): Origin {
    var lost := if waiter in o.channels && o.channels[waiter].Sent? && !o.channels[waiter].conn.shared then 1 else 0;
    o.(channels := o.channels - {waiter}, lost := o.lost + lost)
  }

  function ReceiveMail(o: Origin, waiter: nat, sawOpen: bool): Origin {
    if waiter !in o.channels || o.channels[waiter].Waiting? then o
    else if o.channels[waiter].Sent? && sawOpen then
      NewHandle(o.(channels := o.channels - {waiter}), o.channels[waiter].conn)
    else LoseMail(o, waiter)
  }

  function SweepIdle(o: Origin, cfg: Config, closed: set<nat>, now: nat): Origin {
    var list := Keep(List(o), cfg, closed, now);
    o.(idle := if list == [] then None else Some(list),
       lost := o.lost + Evicted(List(o), cfg, closed, now))
  }

  function After(before: Origin, cfg: Config, s: Step): Origin {
    var o := before.(clock := s.now);
    match s.action
    case Connect(http2) => Establish(o, http2, cfg)
    case PooledUnique(g) => PoolUnique(o, g)
    case PooledShared(g, gone) => PoolShared(o, cfg, g, gone, s.now)
    case AlpnRelease(g) => ReleaseSlot(o.(guards := o.guards - {g}))
    case DropGuard(g) => CancelGuard(o, g)
    case DropHandle(h, sawOpen, gone) => ReleaseHandle(o, cfg, h, sawOpen, gone, s.now)
    case Checkout(hasWaiter, closed) => CheckOut(o, cfg, hasWaiter, closed, s.now)
    case Receive(w, sawOpen) => ReceiveMail(o, w, sawOpen)
    case DropReceiver(w) => LoseMail(o, w)
    case Clean => CleanWaiters(o)
    case Sweep(closed) => SweepIdle(o, cfg, closed, s.now)
  }
}
