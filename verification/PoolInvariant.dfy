/** What every step of the pool keeps, for one origin, and what follows for whole runs. */
module PoolInvariant {
  import opened Octets
  import opened Origins

  // ---- The parts of the invariant ----

  function SlotGuards(guards: map<nat, bool>): set<nat> {
    set g | g in guards && guards[g]
  }

  function H2Guards(guards: map<nat, bool>): set<nat> {
    set g | g in guards && !guards[g]
  }

  function SlotHandles(handles: map<nat, Handle>): set<nat> {
    set h | h in handles && handles[h].h1Slot
  }

  function SlotMail(channels: map<nat, Mail>): set<nat> {
    set w | w in channels && channels[w].Sent? && !channels[w].conn.shared
  }

  function UniqueIdle(list: seq<Idle>): nat {
    if list == [] then 0
    else UniqueIdle(list[..|list| - 1]) + if list[|list| - 1].conn.shared then 0 else 1
  }

  /** The HTTP/1 sockets of the origin: being dialed, in use, handed over, idle. */
  function Sockets(o: Origin): nat {
    |SlotGuards(o.guards)| + |SlotHandles(o.handles)| + |SlotMail(o.channels)| + UniqueIdle(List(o))
  }

  /** Every counted slot is a socket, a connection known to be lost, or one of the `held` that the
      running step has in its hands; and no counter stands at zero. */
  predicate Balanced(o: Origin, cfg: Config, held: nat) {
    && Slots(o) == Sockets(o) + o.lost + held
    && Slots(o) <= cfg.maxH1
    && (o.slots.Some? ==> o.slots.value > 0)
  }

  /** Exactly the HTTP/1 handles own a slot and lead back to the pool. */
  predicate Linked(handles: map<nat, Handle>) {
    forall h :: h in handles ==> handles[h].h1Slot == handles[h].linked == !handles[h].conn.shared
  }

  /** Oldest first, and at most one shared connection, at the bottom. */
  predicate IsIdleList(list: seq<Idle>, clock: nat) {
    && (forall i, j :: 0 <= i < j < |list| ==> list[i].idleAt <= list[j].idleAt)
    && (forall i, j :: 0 <= i < j < |list| ==> list[i].conn != list[j].conn)
    && (forall i :: 0 <= i < |list| ==> list[i].idleAt <= clock)
    && (forall i :: 0 < i < |list| ==> !list[i].conn.shared)
  }

  predicate Shaped(idle: Option<seq<Idle>>, cfg: Config, clock: nat) {
    idle.Some? ==> 0 < |idle.value| <= cfg.maxIdle && IsIdleList(idle.value, clock)
  }

  /** One establishment owner for HTTP/2, marked exactly while it is alive. */
  predicate Owned(connecting: bool, guards: map<nat, bool>) {
    |H2Guards(guards)| == (if connecting then 1 else 0)
  }

  /** First come, first in the queue: names are given in order of arrival. */
  predicate InOrder(queue: seq<nat>) {
    forall i, j :: 0 <= i < j < |queue| ==> queue[i] < queue[j]
  }

  /** The receivers that still wait are those whose sender is queued. */
  predicate Queued(queue: seq<nat>, channels: map<nat, Mail>) {
    InOrder(queue) && forall w :: w in channels ==> (channels[w].Waiting? <==> w in queue)
  }

  datatype Place = AtHandle(h: nat) | AtMail(w: nat) | AtIdle

  datatype Holders = Holders(handles: map<nat, Handle>, channels: map<nat, Mail>, list: seq<Idle>)

  function HoldersOf(o: Origin): Holders {
    Holders(o.handles, o.channels, List(o))
  }

  predicate Holds(all: Holders, p: Place, c: Conn) {
    match p
    case AtHandle(h) => h in all.handles && all.handles[h].conn == c
    case AtMail(w) => w in all.channels && all.channels[w] == Sent(c)
    case AtIdle => exists i :: 0 <= i < |all.list| && all.list[i].conn == c
  }

  /** An HTTP/1 connection is in at most one place. */
  ghost predicate Sole(all: Holders, next: nat) {
    && (forall p, q, c :: Holds(all, p, c) && Holds(all, q, c) && !c.shared ==> p == q)
    && (forall p, c :: Holds(all, p, c) ==> c.serial < next)
  }

  /** All names in use are below the next one. */
  predicate Named(o: Origin) {
    && (forall g :: g in o.guards ==> g < o.next)
    && (forall h :: h in o.handles ==> h < o.next)
    && (forall w :: w in o.channels ==> w < o.next)
    && (forall w :: w in Queue(o) ==> w < o.next)
  }

  ghost predicate Sound(o: Origin, cfg: Config, held: nat) {
    && IsConfig(cfg)
    && Balanced(o, cfg, held)
    && Linked(o.handles)
    && Shaped(o.idle, cfg, o.clock)
    && Owned(o.connecting, o.guards)
    && (o.waiters.Some? ==> o.waiters.value != [])
    && Queued(Queue(o), o.channels)
    && Sole(HoldersOf(o), o.next)
    && Named(o)
  }

  /** Between steps nothing is in anyone's hands. */
  ghost predicate Inv(o: Origin, cfg: Config) {
    Sound(o, cfg, 0)
  }

  // ---- Idle lists ----

  /** The length of the list up to its topmost live entry. */
  function TopLive(list: seq<Idle>, cfg: Config, closed: set<nat>, now: nat): (n: nat)
    ensures n <= |list| && (n > 0 ==> !IsDead(list[n - 1], cfg, closed, now))
    ensures forall i :: n <= i < |list| ==> IsDead(list[i], cfg, closed, now)
  {
    if list == [] || !IsDead(list[|list| - 1], cfg, closed, now) then |list|
    else TopLive(list[..|list| - 1], cfg, closed, now)
  }

  lemma {:induction false} PopForm(list: seq<Idle>, cfg: Config, closed: set<nat>, now: nat)
    ensures var n := TopLive(list, cfg, closed, now);
            var p := Pop(list, cfg, closed, now);
            && (n == 0 ==> p.list == [] && p.conn == None)
            && (n > 0 ==>
                  var conn := list[n - 1].conn;
                  p.conn == Some(conn)
                  && p.list == list[..n - 1] + if conn.shared then [Idle(conn, now)] else [])
            && UniqueIdle(list) == UniqueIdle(list[..n]) + p.evicted
  {
    if list != [] {
      var rest := list[..|list| - 1];
      if IsDead(list[|list| - 1], cfg, closed, now) {
        PopForm(rest, cfg, closed, now);
        var n := TopLive(rest, cfg, closed, now);
        assert rest[..n] == list[..n] && (n > 0 ==> rest[..n - 1] == list[..n - 1]);
      } else {
        assert list[..|list|] == list;
      }
    }
  }

  /** An entry may go on top of a list whose entries are all older and different. */
  lemma {:induction false} PushKeeps(list: seq<Idle>, entry: Idle, clock: nat)
    requires IsIdleList(list, clock) && entry.idleAt <= clock && (entry.conn.shared ==> list == [])
    requires forall i :: 0 <= i < |list| ==> list[i].conn != entry.conn && list[i].idleAt <= entry.idleAt
    ensures IsIdleList(list + [entry], clock)
  {
  }

  lemma {:induction false} PushCounts(list: seq<Idle>, entry: Idle)
    ensures UniqueIdle(list + [entry]) == UniqueIdle(list) + if entry.conn.shared then 0 else 1
  {
    assert (list + [entry])[..|list|] == list;
  }

  lemma {:induction false} KeepCounts(list: seq<Idle>, cfg: Config, closed: set<nat>, now: nat)
    ensures UniqueIdle(list) == UniqueIdle(Keep(list, cfg, closed, now)) + Evicted(list, cfg, closed, now)
    ensures |Keep(list, cfg, closed, now)| <= |list|
  {
    if list != [] {
      var top, rest := list[|list| - 1], list[..|list| - 1];
      KeepCounts(rest, cfg, closed, now);
      var kept := Keep(rest, cfg, closed, now);
      PushCounts(kept, top);
      assert kept + [] == kept;
    }
  }

  lemma {:induction false} KeepSelects(list: seq<Idle>, cfg: Config, closed: set<nat>, now: nat, i: nat) returns (j: nat)
    requires i < |Keep(list, cfg, closed, now)|
    ensures j < |list| && Keep(list, cfg, closed, now)[i] == list[j]
  {
    var top, rest := list[|list| - 1], list[..|list| - 1];
    if i < |Keep(rest, cfg, closed, now)| {
      j := KeepSelects(rest, cfg, closed, now, i);
    } else {
      j := |list| - 1;
    }
  }

  lemma {:induction false} KeepKeeps(list: seq<Idle>, cfg: Config, closed: set<nat>, now: nat)
    requires IsIdleList(list, now)
    ensures IsIdleList(Keep(list, cfg, closed, now), now)
  {
    if list != [] {
      var top, rest := list[|list| - 1], list[..|list| - 1];
      KeepKeeps(rest, cfg, closed, now);
      var kept := Keep(rest, cfg, closed, now);
      assert kept + [] == kept;
      forall i | 0 <= i < |kept| ensures kept[i].conn != top.conn && kept[i].idleAt <= top.idleAt && !top.conn.shared {
        var j := KeepSelects(rest, cfg, closed, now, i);
        assert rest[j] == list[j];
      }
      if !IsDead(top, cfg, closed, now) {
        PushKeeps(kept, top, now);
      }
    }
  }

  // ---- Waiters ----

  /** The position of the first waiter that can take the connection. */
  function FirstAble(queue: seq<nat>, channels: map<nat, Mail>, gone: set<nat>): (k: nat)
    ensures k <= |queue|
    ensures k < |queue| ==> Able(queue[k], channels, gone)
    ensures forall i :: 0 <= i < k ==> !Able(queue[i], channels, gone)
  {
    if queue == [] || Able(queue[0], channels, gone) then 0
    else 1 + FirstAble(queue[1..], channels, gone)
  }

  /** The channels that were dropped while the first `k` of the queue were tried. */
  function Vanished(queue: seq<nat>, k: nat, gone: set<nat>): set<nat>
    requires k <= |queue|
  {
    set i | 0 <= i < k && queue[i] in gone :: queue[i]
  }

  /** A unique connection goes to the first waiter able to take it and to no other; the queue behind
      that waiter is untouched. If there is none, the connection is handed back. */
  lemma {:induction false} OfferUnique(queue: seq<nat>, channels: map<nat, Mail>, conn: Conn, gone: set<nat>)
    requires !conn.shared
    ensures var k := FirstAble(queue, channels, gone);
            var remain := channels - Vanished(queue, k, gone);
            Offer(queue, channels, conn, gone) ==
            if k < |queue| then Offered(queue[k + 1..], remain[queue[k] := Sent(conn)], None)
            else Offered([], remain, Some(conn))
  {
    var k := FirstAble(queue, channels, gone);
    if queue == [] || k == 0 {
      assert channels - Vanished(queue, 0, gone) == channels;
    } else {
      var w, rest := queue[0], queue[1..];
      VanishedStep(queue, k, gone);
      if w in channels {
        FirstAbleIgnores(rest, channels, gone, w);
        OfferUnique(rest, channels - {w}, conn, gone);
        assert channels - Vanished(queue, k, gone) == channels - {w} - Vanished(rest, k - 1, gone);
      } else {
        OfferUnique(rest, channels, conn, gone);
        assert channels - Vanished(queue, k, gone) == channels - Vanished(rest, k - 1, gone);
      }
      assert k < |queue| ==> rest[k - 1] == queue[k] && rest[k..] == queue[k + 1..];
    }
  }

  lemma {:induction false} VanishedStep(queue: seq<nat>, k: nat, gone: set<nat>)
    requires 0 < k <= |queue|
    ensures Vanished(queue, k, gone) == Vanished(queue[1..], k - 1, gone) + if queue[0] in gone then {queue[0]} else {}
  {
    var rest := queue[1..];
    assert forall i :: 0 <= i < k - 1 ==> rest[i] == queue[i + 1];
    assert forall i :: 0 < i < k ==> rest[i - 1] == queue[i];
  }

  lemma {:induction false} FirstAbleIgnores(queue: seq<nat>, channels: map<nat, Mail>, gone: set<nat>, w: nat)
    requires w in gone
    ensures FirstAble(queue, channels - {w}, gone) == FirstAble(queue, channels, gone)
  {
    if queue != [] {
      FirstAbleIgnores(queue[1..], channels, gone, w);
    }
  }

  /** A shared connection reaches every waiter able to take it, and one copy is kept. */
  lemma {:induction false} OfferShared(queue: seq<nat>, channels: map<nat, Mail>, conn: Conn, gone: set<nat>)
    requires conn.shared
    ensures var r := Offer(queue, channels, conn, gone);
            && r.queue == [] && r.left == Some(conn)
            && r.channels.Keys == channels.Keys - Vanished(queue, |queue|, gone)
            && forall w :: w in r.channels ==> r.channels[w] == if w in queue then Sent(conn) else channels[w]
  {
    if queue != [] {
      var w, rest := queue[0], queue[1..];
      assert queue == [w] + rest;
      VanishedStep(queue, |queue|, gone);
      if w !in channels {
        OfferShared(rest, channels, conn, gone);
      } else if w in gone {
        OfferShared(rest, channels - {w}, conn, gone);
      } else {
        OfferShared(rest, channels[w := Sent(conn)], conn, gone);
      }
    }
  }

  // ---- Moves between places ----

  /** Nothing new is held anywhere. */
  ghost predicate HoldsLess(all: Holders, all': Holders) {
    forall p, c :: Holds(all', p, c) ==> Holds(all, p, c)
  }

  /** The only new thing is `conn` at `place`. */
  ghost predicate HoldsAlso(all: Holders, all': Holders, place: Place, conn: Conn) {
    forall p, c :: Holds(all', p, c) ==> Holds(all, p, c) || (p == place && c == conn)
  }

  ghost predicate Nowhere(all: Holders, c: Conn) {
    forall p :: !Holds(all, p, c)
  }

  lemma {:induction false} SoleLess(all: Holders, all': Holders, next: nat, next': nat)
    requires Sole(all, next) && HoldsLess(all, all') && next <= next'
    ensures Sole(all', next')
  {
  }

  lemma {:induction false} SoleAlso(all: Holders, all': Holders, place: Place, conn: Conn, next: nat, next': nat)
    requires Sole(all, next) && HoldsAlso(all, all', place, conn) && next <= next'
    requires conn.serial < next' && (!conn.shared ==> Nowhere(all, conn))
    ensures Sole(all', next')
  {
  }

  lemma {:induction false} SoleShared(all: Holders, all': Holders, conn: Conn, next: nat)
    requires Sole(all, next) && conn.shared && conn.serial < next
    requires forall p, c :: Holds(all', p, c) ==> Holds(all, p, c) || c == conn
    ensures Sole(all', next)
  {
  }

  lemma {:induction false} SoleSerial(all: Holders, place: Place, conn: Conn, next: nat)
    requires Sole(all, next) && Holds(all, place, conn)
    ensures conn.serial < next
  {
  }

  lemma {:induction false} SoleTaken(all: Holders, all': Holders, place: Place, conn: Conn, next: nat)
    requires Sole(all, next) && HoldsLess(all, all') && Holds(all, place, conn) && !Holds(all', place, conn)
    requires !conn.shared
    ensures Nowhere(all', conn)
  {
  }

  lemma {:induction false} Ticks(o: Origin, cfg: Config, now: nat)
    requires Inv(o, cfg) && o.clock <= now
    ensures Inv(o.(clock := now), cfg)
  {
    hide Sole, Queued, Owned, Linked, SlotHandles, SlotGuards, SlotMail, UniqueIdle;
  }

  /** A slot is released only when one is counted: never twice. */
  lemma {:induction false} ReleaseKeeps(o: Origin, cfg: Config)
    requires Sound(o, cfg, 1)
    ensures o.slots.Some? && o.slots.value > 0
    ensures Inv(ReleaseSlot(o), cfg)
  {
    hide Sole, Queued, Owned, Linked, Shaped, SlotHandles, SlotGuards, SlotMail, UniqueIdle;
  }

  lemma {:induction false} LoseKeeps(o: Origin, cfg: Config, n: nat)
    requires Sound(o, cfg, n)
    ensures Inv(o.(lost := o.lost + n), cfg)
  {
    hide Sole, Queued, Owned, Linked, Shaped, SlotHandles, SlotGuards, SlotMail, UniqueIdle;
  }

  lemma {:induction false} HandleAdded(handles: map<nat, Handle>, h: nat, handle: Handle)
    requires h !in handles && Linked(handles) && handle.h1Slot == handle.linked == !handle.conn.shared
    ensures Linked(handles[h := handle])
    ensures |SlotHandles(handles[h := handle])| == |SlotHandles(handles)| + if handle.h1Slot then 1 else 0
  {
    if handle.h1Slot {
      assert SlotHandles(handles[h := handle]) == SlotHandles(handles) + {h};
    } else {
      assert SlotHandles(handles[h := handle]) == SlotHandles(handles);
    }
  }

  lemma {:induction false} NewHandleKeeps(o: Origin, cfg: Config, conn: Conn)
    requires Sound(o, cfg, if conn.shared then 0 else 1)
    requires conn.serial < o.next && (!conn.shared ==> Nowhere(HoldersOf(o), conn))
    ensures Inv(NewHandle(o, conn), cfg)
  {
    hide Sole, Queued, Shaped, Owned, SlotMail, SlotHandles, SlotGuards, UniqueIdle;
    var o' := NewHandle(o, conn);
    HandleAdded(o.handles, o.next, Handle(conn, !conn.shared, !conn.shared));
    SoleAlso(HoldersOf(o), HoldersOf(o'), AtHandle(o.next), conn, o.next, o'.next);
  }

  lemma {:induction false} GuardTaken(guards: map<nat, bool>, g: nat)
    requires g in guards
    ensures guards[g] ==> |SlotGuards(guards - {g})| == |SlotGuards(guards)| - 1 && H2Guards(guards - {g}) == H2Guards(guards)
    ensures !guards[g] ==> SlotGuards(guards - {g}) == SlotGuards(guards) && |H2Guards(guards - {g})| == |H2Guards(guards)| - 1
  {
    if guards[g] {
      assert SlotGuards(guards - {g}) == SlotGuards(guards) - {g};
    } else {
      assert H2Guards(guards - {g}) == H2Guards(guards) - {g};
    }
  }

  lemma {:induction false} HandleTaken(handles: map<nat, Handle>, h: nat)
    requires h in handles && Linked(handles)
    ensures Linked(handles - {h})
    ensures |SlotHandles(handles - {h})| == |SlotHandles(handles)| - if handles[h].h1Slot then 1 else 0
  {
    assert SlotHandles(handles - {h}) == SlotHandles(handles) - {h};
  }

  lemma {:induction false} MailTaken(channels: map<nat, Mail>, w: nat)
    requires w in channels
    ensures var mail := channels[w];
            |SlotMail(channels - {w})| == |SlotMail(channels)| - if mail.Sent? && !mail.conn.shared then 1 else 0
  {
    assert SlotMail(channels - {w}) == SlotMail(channels) - {w};
  }

  lemma {:induction false} TakeGuardKeeps(o: Origin, cfg: Config, guard: nat)
    requires Inv(o, cfg) && guard in o.guards
    ensures o.guards[guard] ==> Sound(o.(guards := o.guards - {guard}), cfg, 1)
    ensures !o.guards[guard] ==> o.connecting && Inv(o.(guards := o.guards - {guard}, connecting := false), cfg)
  {
    hide Sole, Queued, Shaped, Linked, SlotMail, SlotHandles, SlotGuards, H2Guards, UniqueIdle;
    GuardTaken(o.guards, guard);
  }

  lemma {:induction false} TakeHandleKeeps(o: Origin, cfg: Config, handle: nat)
    requires Inv(o, cfg) && handle in o.handles
    ensures var h, o' := o.handles[handle], o.(handles := o.handles - {handle});
            h.h1Slot == h.linked == !h.conn.shared
            && Sound(o', cfg, if h.conn.shared then 0 else 1)
            && (!h.conn.shared ==> Nowhere(HoldersOf(o'), h.conn)) && h.conn.serial < o'.next
  {
    hide Sole, Queued, Shaped, Owned, SlotMail, SlotHandles, SlotGuards, UniqueIdle;
    var h, o' := o.handles[handle], o.(handles := o.handles - {handle});
    HandleTaken(o.handles, handle);
    SoleLess(HoldersOf(o), HoldersOf(o'), o.next, o'.next);
    SoleSerial(HoldersOf(o), AtHandle(handle), h.conn, o.next);
    if !h.conn.shared {
      SoleTaken(HoldersOf(o), HoldersOf(o'), AtHandle(handle), h.conn, o.next);
    }
  }

  lemma {:induction false} TakeMailKeeps(o: Origin, cfg: Config, waiter: nat)
    requires Inv(o, cfg) && waiter in o.channels
    ensures var mail, o' := o.channels[waiter], o.(channels := o.channels - {waiter});
            Sound(o', cfg, if mail.Sent? && !mail.conn.shared then 1 else 0)
            && (mail.Sent? ==> mail.conn.serial < o'.next && (!mail.conn.shared ==> Nowhere(HoldersOf(o'), mail.conn)))
  {
    hide Sole, Shaped, Owned, Linked, SlotMail, SlotHandles, SlotGuards, UniqueIdle;
    var mail, o' := o.channels[waiter], o.(channels := o.channels - {waiter});
    MailTaken(o.channels, waiter);
    SoleLess(HoldersOf(o), HoldersOf(o'), o.next, o'.next);
    if mail.Sent? {
      SoleSerial(HoldersOf(o), AtMail(waiter), mail.conn, o.next);
      if !mail.conn.shared {
        SoleTaken(HoldersOf(o), HoldersOf(o'), AtMail(waiter), mail.conn, o.next);
      }
    }
  }

  lemma {:induction false} DropSendersKeeps(o: Origin, cfg: Config, held: nat)
    requires Sound(o, cfg, held)
    ensures Sound(DropSenders(o), cfg, held)
  {
    var o' := DropSenders(o);
    hide Sole, Shaped, Owned, Linked, SlotHandles, SlotGuards, UniqueIdle;
    assert SlotMail(o'.channels) == SlotMail(o.channels);
    SoleLess(HoldersOf(o), HoldersOf(o'), o.next, o'.next);
  }

  // ---- Giving back ----

  /** What an offer of a unique connection does to the queue and the mail. */
  lemma {:induction false} UniqueOfferKeeps(queue: seq<nat>, channels: map<nat, Mail>, conn: Conn, gone: set<nat>)
    requires Queued(queue, channels) && !conn.shared
    ensures var r := Offer(queue, channels, conn, gone);
            && Queued(r.queue, r.channels) && r.channels.Keys <= channels.Keys
            && (forall w :: w in r.queue ==> w in queue)
            && |SlotMail(r.channels)| == |SlotMail(channels)| + (if r.left.None? then 1 else 0)
            && (r.left.Some? ==> r.left.value == conn)
            && (forall w :: w in r.channels && r.channels[w] != channels[w] ==> r.left.None? && r.channels[w] == Sent(conn))
            && (forall v, w :: v in r.channels && w in r.channels && r.channels[v] != channels[v] && r.channels[w] != channels[w] ==> v == w)
  {
    OfferUnique(queue, channels, conn, gone);
    var k := FirstAble(queue, channels, gone);
    QueueAfterOffer(queue, channels, conn, gone, k);
    hide SlotMail, Vanished, Queued, Offer, FirstAble, Able;
    MailAfterOffer(queue, channels, conn, gone, k);
  }

  lemma {:induction false} QueueAfterOffer(queue: seq<nat>, channels: map<nat, Mail>, conn: Conn, gone: set<nat>, k: nat)
    requires Queued(queue, channels) && k <= |queue| && (k < |queue| ==> Able(queue[k], channels, gone))
    requires forall i :: 0 <= i < k ==> !Able(queue[i], channels, gone)
    ensures var remain := channels - Vanished(queue, k, gone);
            && remain.Keys <= channels.Keys
            && (k == |queue| ==> Queued([], remain))
            && (k < |queue| ==> queue[k] in remain && Queued(queue[k + 1..], remain[queue[k] := Sent(conn)]))
  {
    var remain := channels - Vanished(queue, k, gone);
    assert forall i :: 0 <= i < k && queue[i] in channels ==> queue[i] in Vanished(queue, k, gone);
    forall w | w in remain && w in queue ensures exists i :: k <= i < |queue| && queue[i] == w {
      var i :| 0 <= i < |queue| && queue[i] == w;
      assert i >= k;
    }
    if k < |queue| {
      var rest := queue[k + 1..];
      forall w | w in remain && w != queue[k] ensures w in queue <==> w in rest {
        if w in queue {
          var i :| k <= i < |queue| && queue[i] == w;
          assert rest[i - k - 1] == w;
        }
      }
      assert queue[k] !in rest;
    }
  }

  lemma {:induction false} MailAfterOffer(queue: seq<nat>, channels: map<nat, Mail>, conn: Conn, gone: set<nat>, k: nat)
    requires Queued(queue, channels) && !conn.shared && k <= |queue| && (k < |queue| ==> Able(queue[k], channels, gone))
    ensures var remain := channels - Vanished(queue, k, gone);
            && SlotMail(remain) == SlotMail(channels)
            && (k < |queue| ==> |SlotMail(remain[queue[k] := Sent(conn)])| == |SlotMail(channels)| + 1)
  {
    var remain := channels - Vanished(queue, k, gone);
    assert SlotMail(remain) == SlotMail(channels);
    if k < |queue| {
      var w := queue[k];
      assert w in queue && channels[w].Waiting?;
      assert SlotMail(remain[w := Sent(conn)]) == SlotMail(channels) + {w};
    }
  }

  /** The offer as part of the origin's state: delivered, or still in hand. */
  lemma {:induction false} OfferKeeps(o: Origin, cfg: Config, conn: Conn, gone: set<nat>)
    requires Sound(o, cfg, 1) && !conn.shared && conn.serial < o.next && Nowhere(HoldersOf(o), conn)
    ensures var r := Offer(Queue(o), o.channels, conn, gone);
            var o1 := o.(channels := r.channels, waiters := if o.waiters.None? || r.queue == [] then None else Some(r.queue));
            if r.left.None? then Inv(o1, cfg)
            else Sound(o1, cfg, 1) && Nowhere(HoldersOf(o1), conn)
  {
    hide Sole, Owned, Linked, Shaped, SlotMail, SlotHandles, SlotGuards, UniqueIdle, Queued, Offer;
    UniqueOfferKeeps(Queue(o), o.channels, conn, gone);
    var r := Offer(Queue(o), o.channels, conn, gone);
    assert r.queue != [] ==> r.queue[0] in Queue(o);
    var o1 := o.(channels := r.channels, waiters := if o.waiters.None? || r.queue == [] then None else Some(r.queue));
    if r.left.None? {
      var place := NewMail(o.channels, r.channels, conn);
      SoleAlso(HoldersOf(o), HoldersOf(o1), place, conn, o.next, o.next);
    } else {
      assert HoldsLess(HoldersOf(o), HoldersOf(o1));
      SoleLess(HoldersOf(o), HoldersOf(o1), o.next, o.next);
    }
  }

  lemma {:induction false} StoreKeeps(o: Origin, cfg: Config, conn: Conn)
    requires Sound(o, cfg, if conn.shared then 0 else 1) && conn.serial < o.next && Nowhere(HoldersOf(o), conn)
    requires |List(o)| < cfg.maxIdle && (conn.shared ==> List(o) == [])
    ensures Inv(o.(idle := Some(List(o) + [Idle(conn, o.clock)])), cfg)
  {
    hide Sole, Owned, Linked, SlotMail, SlotHandles, SlotGuards, UniqueIdle, Queued;
    var entry := Idle(conn, o.clock);
    var o' := o.(idle := Some(List(o) + [entry]));
    PushOnto(o, entry);
    PushCounts(List(o), entry);
    SoleAlso(HoldersOf(o), HoldersOf(o'), AtIdle, conn, o.next, o.next);
  }

  lemma {:induction false} PutUniqueKeeps(o: Origin, cfg: Config, conn: Conn, gone: set<nat>)
    requires Sound(o, cfg, 1) && !conn.shared && conn.serial < o.next && Nowhere(HoldersOf(o), conn)
    ensures var (o', kept) := Put(o, cfg, conn, gone, o.clock);
            Sound(o', cfg, if kept then 0 else 1)
  {
    hide Sound, Offer, Nowhere;
    OfferKeeps(o, cfg, conn, gone);
    var r := Offer(Queue(o), o.channels, conn, gone);
    var o1 := o.(channels := r.channels, waiters := if o.waiters.None? || r.queue == [] then None else Some(r.queue));
    assert List(o1) == List(o);
    if r.left.Some? {
      if |List(o)| < cfg.maxIdle {
        StoreKeeps(o1, cfg, conn);
      } else {
        SoundIdle(o1, cfg);
      }
    }
  }

  lemma {:induction false} SoundIdle(o: Origin, cfg: Config)
    requires Sound(o, cfg, 1) && |List(o)| >= cfg.maxIdle
    ensures o.(idle := Some(List(o))) == o
  {
  }

  lemma {:induction false} NewMail(channels: map<nat, Mail>, channels': map<nat, Mail>, conn: Conn) returns (place: Place)
    requires channels'.Keys <= channels.Keys
    requires forall w :: w in channels' && channels'[w] != channels[w] ==> channels'[w] == Sent(conn)
    requires forall v, w :: v in channels' && w in channels' && channels'[v] != channels[v] && channels'[w] != channels[w] ==> v == w
    ensures forall w, c :: w in channels' && channels'[w] == Sent(c) ==> channels[w] == Sent(c) || (place == AtMail(w) && c == conn)
  {
    if w :| w in channels' && channels'[w] != channels[w] {
      place := AtMail(w);
    } else {
      place := AtIdle;
    }
  }

  lemma {:induction false} PushOnto(o: Origin, entry: Idle)
    requires IsIdleList(List(o), o.clock) && entry.idleAt == o.clock
    requires Nowhere(HoldersOf(o), entry.conn) && (entry.conn.shared ==> List(o) == [])
    ensures IsIdleList(List(o) + [entry], o.clock)
  {
    forall i | 0 <= i < |List(o)| ensures List(o)[i].conn != entry.conn {
      assert !Holds(HoldersOf(o), AtIdle, entry.conn);
    }
    PushKeeps(List(o), entry, o.clock);
  }

  lemma {:induction false} PutSharedKeeps(o: Origin, cfg: Config, conn: Conn, gone: set<nat>)
    requires Inv(o, cfg) && conn.shared && conn.serial < o.next && Nowhere(HoldersOf(o), conn)
    ensures Inv(Put(o, cfg, conn, gone, o.clock).0, cfg)
  {
    if o.idle.None? {
      hide Sole, Owned, Linked, Shaped, SlotMail, SlotHandles, SlotGuards, UniqueIdle, Offer;
      OfferShared(Queue(o), o.channels, conn, gone);
      var r := Offer(Queue(o), o.channels, conn, gone);
      SharedMail(o.channels, r.channels, conn);
      var o1 := o.(channels := r.channels, waiters := None);
      SharedStores(o, o1, cfg, conn);
    }
  }

  lemma {:induction false} SharedMail(channels: map<nat, Mail>, channels': map<nat, Mail>, conn: Conn)
    requires conn.shared && channels'.Keys <= channels.Keys
    requires forall w :: w in channels && w !in channels' ==> channels[w].Waiting?
    requires forall w :: w in channels' ==> channels'[w] == if channels[w].Waiting? then Sent(conn) else channels[w]
    ensures SlotMail(channels') == SlotMail(channels)
  {
  }

  lemma {:induction false} SharedStores(o: Origin, o1: Origin, cfg: Config, conn: Conn)
    requires Inv(o, cfg) && conn.shared && conn.serial < o.next && o.idle.None?
    requires o1 == o.(channels := o1.channels, waiters := None)
    requires o1.channels.Keys <= o.channels.Keys && SlotMail(o1.channels) == SlotMail(o.channels)
    requires Queued([], o1.channels)
    requires forall w :: w in o1.channels ==> o1.channels[w] == o.channels[w] || o1.channels[w] == Sent(conn)
    ensures Inv(o1.(idle := Some([] + [Idle(conn, o.clock)])), cfg)
  {
    hide Sole, Owned, Linked, SlotMail, SlotHandles, SlotGuards, UniqueIdle;
    var o' := o1.(idle := Some([] + [Idle(conn, o.clock)]));
    PushCounts([], Idle(conn, o.clock));
    SoleShared(HoldersOf(o), HoldersOf(o'), conn, o.next);
  }

  // ---- Taking out ----

  lemma {:induction false} PopKeeps(o: Origin, cfg: Config, closed: set<nat>)
    requires Inv(o, cfg)
    ensures var popped := Pop(List(o), cfg, closed, o.clock);
            var o' := o.(idle := if popped.list == [] then None else Some(popped.list), lost := o.lost + popped.evicted);
            && Sound(o', cfg, if popped.conn.Some? && !popped.conn.value.shared then 1 else 0)
            && (popped.conn.Some? ==>
                  popped.conn.value.serial < o.next
                  && (!popped.conn.value.shared ==> Nowhere(HoldersOf(o'), popped.conn.value)))
  {
    hide Sound, Pop, UniqueIdle, IsIdleList, Holds, Sole;
    var list := List(o);
    var popped := Pop(list, cfg, closed, o.clock);
    var n := TopLive(list, cfg, closed, o.clock);
    PopForm(list, cfg, closed, o.clock);
    SoundList(o, cfg);
    if n > 0 {
      PopShape(list, cfg, n, o.clock);
      FewerIdle(HoldersOf(o), popped.list, list[n - 1].conn, n - 1, o.next);
      RelistKeeps(o, cfg, popped.list, popped.evicted, if popped.conn.value.shared then 0 else 1);
    } else {
      PopNothing(list, o.clock);
      SoleLessIdle(HoldersOf(o), [], o.next);
      RelistKeeps(o, cfg, [], popped.evicted, 0);
    }
  }

  lemma {:induction false} PopNothing(list: seq<Idle>, clock: nat)
    ensures UniqueIdle(list[..0]) == UniqueIdle([]) == 0 && IsIdleList([], clock)
  {
  }

  lemma {:induction false} SoundList(o: Origin, cfg: Config)
    requires Inv(o, cfg)
    ensures |List(o)| <= cfg.maxIdle && IsIdleList(List(o), o.clock) && Sole(HoldersOf(o), o.next)
  {
  }

  /** The idle list may be exchanged for another good one, if the counts come out. */
  lemma {:induction false} RelistKeeps(o: Origin, cfg: Config, list: seq<Idle>, evicted: nat, held: nat)
    requires Inv(o, cfg) && |list| <= |List(o)| && IsIdleList(list, o.clock)
    requires UniqueIdle(List(o)) == UniqueIdle(list) + evicted + held
    requires Sole(HoldersOf(o).(list := list), o.next)
    ensures var o' := o.(idle := if list == [] then None else Some(list), lost := o.lost + evicted);
            List(o') == list && Sound(o', cfg, held)
  {
    hide Sole, Owned, Linked, Queued, SlotMail, SlotHandles, SlotGuards, UniqueIdle, IsIdleList;
  }

  lemma {:induction false} SoleLessIdle(all: Holders, list: seq<Idle>, next: nat)
    requires Sole(all, next) && |list| <= |all.list|
    requires forall i :: 0 <= i < |list| ==> list[i].conn == all.list[i].conn
    ensures Sole(all.(list := list), next)
    ensures HoldsLess(all, all.(list := list))
  {
    hide Sole;
    var all' := all.(list := list);
    forall c | Holds(all', AtIdle, c) ensures Holds(all, AtIdle, c) {
      var i :| 0 <= i < |list| && list[i].conn == c;
      assert all.list[i].conn == c;
    }
    assert HoldsLess(all, all');
    SoleLess(all, all', next, next);
  }

  lemma {:induction false} FewerIdle(all: Holders, list: seq<Idle>, taken: Conn, at: nat, next: nat)
    requires Sole(all, next) && |list| <= |all.list| && at < |all.list| && all.list[at].conn == taken
    requires forall i :: 0 <= i < |list| ==> list[i].conn == all.list[i].conn
    requires forall i :: 0 <= i < |list| && !taken.shared ==> list[i].conn != taken
    ensures Sole(all.(list := list), next) && taken.serial < next
    ensures !taken.shared ==> Nowhere(all.(list := list), taken)
  {
    hide Sole;
    SoleLessIdle(all, list, next);
    assert Holds(all, AtIdle, taken);
    SoleSerial(all, AtIdle, taken, next);
    if !taken.shared {
      SoleTaken(all, all.(list := list), AtIdle, taken, next);
    }
  }

  /** What is left under the entry that was taken. */
  lemma {:induction false} PopShape(list: seq<Idle>, cfg: Config, n: nat, now: nat)
    requires 0 < n <= |list| && IsIdleList(list, now)
    ensures var top := list[n - 1];
            var list' := list[..n - 1] + if top.conn.shared then [Idle(top.conn, now)] else [];
            && IsIdleList(list', now) && |list'| <= |list|
            && UniqueIdle(list[..n]) == UniqueIdle(list') + (if top.conn.shared then 0 else 1)
            && (forall i :: 0 <= i < |list'| ==> list'[i].conn == list[i].conn)
            && (forall i :: 0 <= i < |list'| && !top.conn.shared ==> list'[i].conn != top.conn)
  {
    hide UniqueIdle;
    if list[n - 1].conn.shared {
      SharedPopShape(list, now);
    } else {
      UniquePopShape(list, n, now);
      assert list[..n - 1] + [] == list[..n - 1];
    }
  }

  lemma {:induction false} SharedPopShape(list: seq<Idle>, now: nat)
    requires |list| > 0 && list[0].conn.shared
    ensures var list' := list[..0] + [Idle(list[0].conn, now)];
            list' == [Idle(list[0].conn, now)] && IsIdleList(list', now) && UniqueIdle(list[..1]) == UniqueIdle(list')
  {
    assert list[..0] == [] && list[..1] == [] + [list[0]];
    hide UniqueIdle;
    PushCounts([], list[0]);
    PushCounts([], Idle(list[0].conn, now));
  }

  lemma {:induction false} UniquePopShape(list: seq<Idle>, n: nat, now: nat)
    requires 0 < n <= |list| && IsIdleList(list, now) && !list[n - 1].conn.shared
    ensures IsIdleList(list[..n - 1], now) && UniqueIdle(list[..n]) == UniqueIdle(list[..n - 1]) + 1
    ensures forall i :: 0 <= i < n - 1 ==> list[..n - 1][i].conn == list[i].conn && list[i].conn != list[n - 1].conn
  {
    assert list[..n] == list[..n - 1] + [list[n - 1]];
    PushCounts(list[..n - 1], list[n - 1]);
    hide UniqueIdle;
    ListPrefix(list, n - 1, now);
  }

  lemma {:induction false} ListPrefix(list: seq<Idle>, n: nat, now: nat)
    requires n < |list| && IsIdleList(list, now)
    ensures IsIdleList(list[..n], now)
    ensures forall i :: 0 <= i < n ==> list[..n][i].conn == list[i].conn && list[i].conn != list[n].conn
  {
  }

  lemma {:induction false} EnqueueKeeps(o: Origin, cfg: Config)
    requires Inv(o, cfg)
    ensures Inv(o.(waiters := Some(Queue(o) + [o.next]), channels := o.channels[o.next := Waiting], next := o.next + 1), cfg)
  {
    hide Sole, Owned, Linked, Shaped, SlotMail, SlotHandles, SlotGuards, UniqueIdle, Queued;
    var o' := o.(waiters := Some(Queue(o) + [o.next]), channels := o.channels[o.next := Waiting], next := o.next + 1);
    QueueGrows(Queue(o), o.channels, o.next);
    SoleLess(HoldersOf(o), HoldersOf(o'), o.next, o'.next);
  }

  lemma {:induction false} QueueGrows(queue: seq<nat>, channels: map<nat, Mail>, w: nat)
    requires Queued(queue, channels) && (forall v :: v in queue ==> v < w) && w !in channels
    ensures Queued(queue + [w], channels[w := Waiting]) && SlotMail(channels[w := Waiting]) == SlotMail(channels)
  {
    assert forall i :: 0 <= i < |queue| ==> queue[i] in queue;
  }

  lemma {:induction false} SweepKeeps(o: Origin, cfg: Config, closed: set<nat>)
    requires Inv(o, cfg)
    ensures Inv(SweepIdle(o, cfg, closed, o.clock), cfg)
  {
    hide Sound, UniqueIdle, Keep, IsIdleList, Sole;
    var list := Keep(List(o), cfg, closed, o.clock);
    SoundList(o, cfg);
    KeepKeeps(List(o), cfg, closed, o.clock);
    KeepCounts(List(o), cfg, closed, o.clock);
    var all' := HoldersOf(o).(list := list);
    forall c | Holds(all', AtIdle, c) ensures Holds(HoldersOf(o), AtIdle, c) {
      var i: nat :| i < |list| && list[i].conn == c;
      var j := KeepSelects(List(o), cfg, closed, o.clock, i);
    }
    SoleLess(HoldersOf(o), all', o.next, o.next);
    RelistKeeps(o, cfg, list, Evicted(List(o), cfg, closed, o.clock), 0);
  }

  lemma {:induction false} CleanForm(queue: seq<nat>, channels: map<nat, Mail>)
    requires InOrder(queue)
    ensures InOrder(CleanQueue(queue, channels))
    ensures forall w :: w in CleanQueue(queue, channels) <==> w in queue && w in channels
  {
    if queue != [] {
      var rest := queue[1..];
      CleanForm(rest, channels);
      assert queue == [queue[0]] + rest;
      var more := CleanQueue(rest, channels);
      forall i | 0 <= i < |more| ensures queue[0] < more[i] {
        assert more[i] in rest;
      }
    }
  }

  lemma {:induction false} CleanKeeps(o: Origin, cfg: Config)
    requires Inv(o, cfg)
    ensures Inv(CleanWaiters(o), cfg)
  {
    hide Sole, Owned, Linked, Shaped, SlotMail, SlotHandles, SlotGuards, UniqueIdle, CleanQueue;
    CleanForm(Queue(o), o.channels);
    var queue := CleanQueue(Queue(o), o.channels);
    assert queue != [] ==> queue[0] in Queue(o);
  }

  lemma {:induction false} EstablishKeeps(o: Origin, cfg: Config, http2: bool)
    requires Inv(o, cfg)
    ensures Inv(Establish(o, http2, cfg), cfg)
  {
    hide Sole, Queued, Linked, Shaped, SlotMail, SlotHandles, SlotGuards, H2Guards, UniqueIdle;
    GuardAdded(o.guards, o.next, !http2);
    MoreNames(HoldersOf(o), o.next);
  }

  lemma {:induction false} GuardAdded(guards: map<nat, bool>, g: nat, slot: bool)
    requires g !in guards
    ensures |SlotGuards(guards[g := slot])| == |SlotGuards(guards)| + if slot then 1 else 0
    ensures |H2Guards(guards[g := slot])| == |H2Guards(guards)| + if slot then 0 else 1
  {
    assert guards[g := slot] - {g} == guards;
    GuardTaken(guards[g := slot], g);
  }

  lemma {:induction false} MoreNames(all: Holders, next: nat)
    requires Sole(all, next)
    ensures Sole(all, next + 1) && forall shared :: Nowhere(all, Conn(next, shared))
  {
    SoleLess(all, all, next, next + 1);
    forall shared, p ensures !Holds(all, p, Conn(next, shared)) {
      if Holds(all, p, Conn(next, shared)) {
        SoleSerial(all, p, Conn(next, shared), next);
      }
    }
  }

  // ---- Steps and runs ----

  lemma {:induction false} GiveBackKeeps(o: Origin, cfg: Config, handle: nat, sawOpen: bool, gone: set<nat>)
    requires Inv(o, cfg) && handle in o.handles
    ensures Inv(ReleaseHandle(o, cfg, handle, sawOpen, gone, o.clock), cfg)
  {
    hide Sound, Put, Nowhere;
    var h, o' := o.handles[handle], o.(handles := o.handles - {handle});
    TakeHandleKeeps(o, cfg, handle);
    if !sawOpen && h.linked {
      ReleaseKeeps(o', cfg);
    } else if sawOpen && h.linked {
      PutUniqueKeeps(o', cfg, h.conn, gone);
      var (o'', kept) := Put(o', cfg, h.conn, gone, o.clock);
      if !kept {
        ReleaseKeeps(o'', cfg);
      }
    }
  }

  lemma {:induction false} PoolUniqueKeeps(o: Origin, cfg: Config, guard: nat)
    requires Inv(o, cfg) && guard in o.guards && o.guards[guard]
    ensures Inv(PoolUnique(o, guard), cfg)
  {
    hide Sound;
    var o1 := o.(guards := o.guards - {guard});
    TakeGuardKeeps(o, cfg, guard);
    RenameKeeps(o1, cfg, 1);
    NewHandleKeeps(o1.(next := o.next + 1), cfg, Conn(o.next, false));
  }

  lemma {:induction false} RenameKeeps(o: Origin, cfg: Config, held: nat)
    requires Sound(o, cfg, held)
    ensures var o' := o.(next := o.next + 1);
            Sound(o', cfg, held) && Nowhere(HoldersOf(o'), Conn(o.next, false)) && Nowhere(HoldersOf(o'), Conn(o.next, true))
  {
    hide Sole, Owned, Linked, Queued, Shaped, SlotMail, SlotHandles, SlotGuards, UniqueIdle;
    MoreNames(HoldersOf(o), o.next);
  }

  lemma {:induction false} PoolSharedKeeps(o: Origin, cfg: Config, guard: nat, gone: set<nat>)
    requires Inv(o, cfg) && guard in o.guards && !o.guards[guard]
    ensures Inv(PoolShared(o, cfg, guard, gone, o.clock), cfg)
  {
    hide Sound, Offer;
    var conn := Conn(o.next, true);
    TakeGuardKeeps(o, cfg, guard);
    var o1 := o.(guards := o.guards - {guard}, connecting := false);
    RenameKeeps(o1, cfg, 0);
    var o2 := o1.(next := o.next + 1);
    PutSharedKeeps(o2, cfg, conn, gone);
    var o3 := Put(o2, cfg, conn, gone, o.clock).0;
    assert o3 == Put(o.(guards := o.guards - {guard}, next := o.next + 1), cfg, conn, gone, o.clock).0.(connecting := false);
    DropSendersKeeps(o3, cfg, 0);
    NewHandleKeeps(DropSenders(o3), cfg, conn);
  }

  lemma {:induction false} CheckOutKeeps(o: Origin, cfg: Config, hasWaiter: bool, closed: set<nat>)
    requires Inv(o, cfg)
    ensures Inv(CheckOut(o, cfg, hasWaiter, closed, o.clock), cfg)
  {
    hide Sound, Pop, Nowhere;
    PopKeeps(o, cfg, closed);
    var popped := Pop(List(o), cfg, closed, o.clock);
    var o' := o.(idle := if popped.list == [] then None else Some(popped.list), lost := o.lost + popped.evicted);
    if popped.conn.Some? {
      NewHandleKeeps(o', cfg, popped.conn.value);
    } else if !hasWaiter {
      EnqueueKeeps(o', cfg);
    }
  }

  lemma {:induction false} MailKeeps(o: Origin, cfg: Config, waiter: nat, sawOpen: bool)
    requires Inv(o, cfg) && waiter in o.channels
    ensures Inv(ReceiveMail(o, waiter, sawOpen), cfg) && Inv(LoseMail(o, waiter), cfg)
  {
    hide Sound, Nowhere;
    var mail, o' := o.channels[waiter], o.(channels := o.channels - {waiter});
    TakeMailKeeps(o, cfg, waiter);
    if mail.Sent? {
      NewHandleKeeps(o', cfg, mail.conn);
      if mail.conn.shared {
        LoseKeeps(o', cfg, 0);
      } else {
        LoseKeeps(o', cfg, 1);
      }
    } else {
      LoseKeeps(o', cfg, 0);
    }
  }

  lemma {:induction false} GuardDropKeeps(o: Origin, cfg: Config, guard: nat)
    requires Inv(o, cfg) && guard in o.guards
    ensures Inv(CancelGuard(o, guard), cfg)
    ensures o.guards[guard] ==> Inv(ReleaseSlot(o.(guards := o.guards - {guard})), cfg)
  {
    hide Sound, DropSenders;
    TakeGuardKeeps(o, cfg, guard);
    var o' := o.(guards := o.guards - {guard});
    if o.guards[guard] {
      ReleaseKeeps(o', cfg);
      DropSendersKeeps(ReleaseSlot(o'), cfg, 0);
    } else {
      DropSendersKeeps(o'.(connecting := false), cfg, 0);
    }
  }

  /** Every step the program can take keeps the invariant. */
  lemma {:induction false} StepKeeps(o: Origin, cfg: Config, s: Step)
    requires Inv(o, cfg) && Enabled(o, cfg, s)
    ensures Inv(After(o, cfg, s), cfg)
  {
    hide Inv;
    Ticks(o, cfg, s.now);
    var o := o.(clock := s.now);
    match s.action
    case Connect(http2) => EstablishKeeps(o, cfg, http2);
    case PooledUnique(g) => PoolUniqueKeeps(o, cfg, g);
    case PooledShared(g, gone) => PoolSharedKeeps(o, cfg, g, gone);
    case AlpnRelease(g) => GuardDropKeeps(o, cfg, g);
    case DropGuard(g) => GuardDropKeeps(o, cfg, g);
    case DropHandle(h, sawOpen, gone) => GiveBackKeeps(o, cfg, h, sawOpen, gone);
    case Checkout(hasWaiter, closed) => CheckOutKeeps(o, cfg, hasWaiter, closed);
    case Receive(w, sawOpen) => MailKeeps(o, cfg, w, sawOpen);
    case DropReceiver(w) => MailKeeps(o, cfg, w, false);
    case Clean => CleanKeeps(o, cfg);
    case Sweep(closed) => SweepKeeps(o, cfg, closed);
  }
}
