/** Who gets a connection that is given back or newly pooled, and that no slot is released that is not
    counted: statements about the steps a reachable pool can take. */
module PoolService {
  import opened Octets
  import opened Origins
  import opened PoolInvariant
  import opened PoolRuns

  // ---- One call of put ----

  /** A unique connection: the earliest waiter able to take it gets it, nobody else does, and the queue
      behind is intact; without such a waiter it is stored, or refused when full. */
  lemma {:induction false} PutUniqueServes(o: Origin, cfg: Config, conn: Conn, gone: set<nat>, now: nat)
    requires Queued(Queue(o), o.channels) && !conn.shared
    ensures var (o', kept) := Put(o, cfg, conn, gone, now);
            var queue := Queue(o);
            var k := FirstAble(queue, o.channels, gone);
            && o' == o.(channels := o'.channels, waiters := o'.waiters, idle := o'.idle)
            && if k < |queue| then
                 && kept && o'.idle == o.idle && Queue(o') == queue[k + 1..]
                 && o'.channels.Keys == o.channels.Keys - Vanished(queue, k, gone)
                 && queue[k] in o'.channels && o'.channels[queue[k]] == Sent(conn)
                 && (forall w :: w in o'.channels && w != queue[k] ==> o'.channels[w] == o.channels[w])
                 && (forall w :: w in queue && Able(w, o.channels, gone) ==> queue[k] <= w)
               else
                 && (kept <==> |List(o)| < cfg.maxIdle) && Queue(o') == []
                 && List(o') == (if kept then List(o) + [Idle(conn, now)] else List(o))
                 && o'.channels == o.channels - Vanished(queue, k, gone)
  {
    hide Offer;
    OfferUnique(Queue(o), o.channels, conn, gone);
  }

  /** A shared connection for an origin with nothing idle reaches every waiter that still listens, and
      one copy stays. */
  lemma {:induction false} PutSharedServes(o: Origin, cfg: Config, conn: Conn, gone: set<nat>, now: nat)
    requires IsConfig(cfg) && conn.shared && o.idle.None?
    ensures var (o', kept) := Put(o, cfg, conn, gone, now);
            && kept && List(o') == [Idle(conn, now)] && Queue(o') == [] && o'.waiters.None?
            && o' == o.(channels := o'.channels, waiters := None, idle := o'.idle)
            && o'.channels.Keys == o.channels.Keys - Vanished(Queue(o), |Queue(o)|, gone)
            && forall w :: w in o'.channels ==> o'.channels[w] == if w in Queue(o) then Sent(conn) else o.channels[w]
  {
    hide Offer;
    OfferShared(Queue(o), o.channels, conn, gone);
  }

  // ---- Steps of a reachable pool ----

  /** `conn` is at `place` and nowhere else. */
  ghost predicate OnlyAt(o: Origin, place: Place, conn: Conn) {
    forall p :: Holds(HoldersOf(o), p, conn) <==> p == place
  }

  /** Where a unique connection is after it was put into an origin that held it nowhere. */
  lemma {:induction false} PutUniquePlaces(o: Origin, cfg: Config, conn: Conn, gone: set<nat>, now: nat)
    requires Queued(Queue(o), o.channels) && !conn.shared && Nowhere(HoldersOf(o), conn)
    ensures var (o', kept) := Put(o, cfg, conn, gone, now);
            var k := FirstAble(Queue(o), o.channels, gone);
            if k < |Queue(o)| then OnlyAt(o', AtMail(Queue(o)[k]), conn)
            else if kept then OnlyAt(o', AtIdle, conn)
            else Nowhere(HoldersOf(o'), conn)
  {
    hide Put, Holds, Nowhere, Vanished;
    PutUniqueServes(o, cfg, conn, gone, now);
    var (o', kept) := Put(o, cfg, conn, gone, now);
    var k := FirstAble(Queue(o), o.channels, gone);
    if k < |Queue(o)| {
      NowByMail(HoldersOf(o), HoldersOf(o'), Queue(o)[k], conn);
    } else if kept {
      NowIdle(HoldersOf(o), HoldersOf(o'), Idle(conn, now), conn);
    } else {
      StillNowhere(HoldersOf(o), HoldersOf(o'), conn);
    }
  }

  /** An open HTTP/1 connection that a request is done with: it goes to the waiter that came first of those
      able to take it, or else to the top of the idle list, or else it is closed and its slot is free; it
      is never in two of these places and never in none of them by accident. */
  lemma {:induction false} GivenBackServes(pool: Pool, cfg: Config, key: Key, handle: nat, gone: set<nat>, now: nat)
    requires IsConfig(cfg) && Reachable(pool, cfg)
    requires Enabled(Of(pool, key), cfg, Step(DropHandle(handle, true, gone), now))
    requires !Of(pool, key).handles[handle].conn.shared
    ensures var o := Of(pool, key);
            var conn, queue := o.handles[handle].conn, Queue(o);
            var k := FirstAble(queue, o.channels, gone);
            var o' := After(o, cfg, Step(DropHandle(handle, true, gone), now));
            if k < |queue| then
              && OnlyAt(o', AtMail(queue[k]), conn) && Slots(o') == Slots(o)
              && List(o') == List(o) && Queue(o') == queue[k + 1..]
              && (forall w :: w in queue && Able(w, o.channels, gone) ==> queue[k] <= w)
              && (forall w :: w in o'.channels && w != queue[k] ==> w in o.channels && o'.channels[w] == o.channels[w])
            else if |List(o)| < cfg.maxIdle then
              && OnlyAt(o', AtIdle, conn) && Slots(o') == Slots(o)
              && List(o') == List(o) + [Idle(conn, now)] && Queue(o') == []
            else
              && Nowhere(HoldersOf(o'), conn) && Slots(o') == Slots(o) - 1
              && List(o') == List(o) && Queue(o') == []
  {
    hide Sound, Put, Nowhere, OnlyAt, Vanished, Able;
    ReachableIsSound(pool, cfg, key);
    var o := Of(pool, key).(clock := now);
    Ticks(Of(pool, key), cfg, now);
    var conn := o.handles[handle].conn;
    var o1 := o.(handles := o.handles - {handle});
    TakeHandleKeeps(o, cfg, handle);
    SoundQueue(o1, cfg, 1);
    PutUniqueServes(o1, cfg, conn, gone, now);
    PutUniquePlaces(o1, cfg, conn, gone, now);
    var (o2, kept) := Put(o1, cfg, conn, gone, now);
    GivenBackForm(Of(pool, key), cfg, handle, gone, now);
    hide After;
    if !kept {
      PutUniqueKeeps(o1, cfg, conn, gone);
      ReleaseKeeps(o2, cfg);
      NowhereInReleased(o2, conn);
    }
  }

  lemma {:induction false} GivenBackForm(o: Origin, cfg: Config, handle: nat, gone: set<nat>, now: nat)
    requires handle in o.handles && o.handles[handle].linked && o.handles[handle].h1Slot
    ensures var o1 := o.(clock := now, handles := o.handles - {handle});
            var (o2, kept) := Put(o1, cfg, o.handles[handle].conn, gone, now);
            After(o, cfg, Step(DropHandle(handle, true, gone), now)) == if kept then o2 else ReleaseSlot(o2)
  {
    hide Put;
  }

  lemma {:induction false} NowhereInReleased(o: Origin, conn: Conn)
    requires Nowhere(HoldersOf(o), conn)
    ensures Nowhere(HoldersOf(ReleaseSlot(o)), conn)
  {
  }

  lemma {:induction false} NowByMail(all: Holders, all': Holders, w: nat, conn: Conn)
    requires Nowhere(all, conn) && all'.handles == all.handles && all'.list == all.list
    requires w in all'.channels && all'.channels[w] == Sent(conn)
    requires forall v :: v in all'.channels && v != w ==> v in all.channels && all'.channels[v] == all.channels[v]
    ensures forall p :: Holds(all', p, conn) <==> p == AtMail(w)
  {
    forall p | p != AtMail(w) ensures !Holds(all', p, conn) {
      assert !Holds(all, p, conn);
    }
  }

  lemma {:induction false} NowIdle(all: Holders, all': Holders, entry: Idle, conn: Conn)
    requires Nowhere(all, conn) && all'.handles == all.handles && all'.list == all.list + [entry] && entry.conn == conn
    requires forall v :: v in all'.channels ==> v in all.channels && all'.channels[v] == all.channels[v]
    ensures forall p :: Holds(all', p, conn) <==> p == AtIdle
  {
    assert all'.list[|all.list|] == entry;
    forall p | p != AtIdle ensures !Holds(all', p, conn) {
      assert !Holds(all, p, conn);
    }
  }

  lemma {:induction false} StillNowhere(all: Holders, all': Holders, conn: Conn)
    requires Nowhere(all, conn) && all'.handles == all.handles && all'.list == all.list
    requires forall v :: v in all'.channels ==> v in all.channels && all'.channels[v] == all.channels[v]
    ensures Nowhere(all', conn)
  {
    forall p ensures !Holds(all', p, conn) {
      assert !Holds(all, p, conn);
    }
  }

  /** A newly established HTTP/2 connection, `Conn(o.next, true)`: with nothing idle every waiter that still
      listens gets it and one copy is stored; otherwise the list stays and the waiters are woken without
      one. In both cases the caller has it, the marker is gone and nobody is queued. */
  lemma {:induction false} PooledSharedServes(pool: Pool, cfg: Config, key: Key, guard: nat, gone: set<nat>, now: nat)
    requires IsConfig(cfg) && Reachable(pool, cfg)
    requires Enabled(Of(pool, key), cfg, Step(PooledShared(guard, gone), now))
    ensures var o := Of(pool, key);
            var o' := After(o, cfg, Step(PooledShared(guard, gone), now));
            var conn := Conn(o.next, true);
            && !o'.connecting && o'.waiters.None? && Slots(o') == Slots(o)
            && o'.handles == o.handles[o.next + 1 := Handle(conn, false, false)]
            && if o.idle.None? then
                 && List(o') == [Idle(conn, now)]
                 && o'.channels.Keys == o.channels.Keys - Vanished(Queue(o), |Queue(o)|, gone)
                 && forall w :: w in o'.channels ==> o'.channels[w] == if w in Queue(o) then Sent(conn) else o.channels[w]
               else
                 && o'.idle == o.idle && o'.channels.Keys == o.channels.Keys
                 && forall w :: w in o'.channels ==> o'.channels[w] == if w in Queue(o) then Orphaned else o.channels[w]
  {
    hide Offer, Vanished;
    var o := Of(pool, key).(clock := now);
    var o1 := o.(guards := o.guards - {guard}, next := o.next + 1);
    if o.idle.None? {
      hide Put;
      PutSharedServes(o1, cfg, Conn(o.next, true), gone, now);
    }
  }

  /** Dropping an HTTP/2 handle changes nothing but the handle: the pool's copy was kept from the start. */
  lemma {:induction false} SharedHandleDropped(pool: Pool, cfg: Config, key: Key, handle: nat, sawOpen: bool, gone: set<nat>, now: nat)
    requires IsConfig(cfg) && Reachable(pool, cfg)
    requires Enabled(Of(pool, key), cfg, Step(DropHandle(handle, sawOpen, gone), now))
    requires Of(pool, key).handles[handle].conn.shared
    ensures var o := Of(pool, key);
            After(o, cfg, Step(DropHandle(handle, sawOpen, gone), now)) == o.(clock := now, handles := o.handles - {handle})
  {
    hide Put, Balanced, Shaped, Owned, Queued, Sole;
    ReachableIsSound(pool, cfg, key);
  }

  // ---- Slots ----

  /** The step gives a slot back for certain: a slot guard goes, or a closed handle that owns a slot. */
  predicate Releases(o: Origin, a: Action) {
    match a
    case AlpnRelease(g) => g in o.guards && o.guards[g]
    case DropGuard(g) => g in o.guards && o.guards[g]
    case DropHandle(h, sawOpen, _) => h in o.handles && o.handles[h].h1Slot && !sawOpen
    case _ => false
  }

  /** In every run a slot is counted whenever one is released, so the counter drops by exactly one and the
      released-twice assertion cannot fire. */
  lemma {:induction false} ReleasesAreCounted(pool: Pool, cfg: Config, key: Key, s: Step)
    requires IsConfig(cfg) && Reachable(pool, cfg) && Enabled(Of(pool, key), cfg, s) && Releases(Of(pool, key), s.action)
    ensures var o := Of(pool, key);
            Slots(o) > 0 && Slots(After(o, cfg, s)) == Slots(o) - 1
  {
    hide Put, Sole, Shaped, Owned, Queued, UniqueIdle, SlotMail;
    ReachableIsSound(pool, cfg, key);
    SlotOwners(Of(pool, key), s.action);
  }

  lemma {:induction false} SlotOwners(o: Origin, a: Action)
    requires Linked(o.handles) && Releases(o, a)
    ensures Sockets(o) > 0
    ensures a.DropHandle? ==> o.handles[a.handle].linked
  {
    hide UniqueIdle, SlotMail;
    match a
    case AlpnRelease(g) => assert g in SlotGuards(o.guards);
    case DropGuard(g) => assert g in SlotGuards(o.guards);
    case DropHandle(h, _, _) => assert h in SlotHandles(o.handles);
    case _ =>
  }

  /** The remaining release, of an open connection that put refuses, is the last case of
      `GivenBackServes`: there, too, a slot is counted when put returns. */
  lemma {:induction false} RefusalIsCounted(pool: Pool, cfg: Config, key: Key, handle: nat, gone: set<nat>, now: nat)
    requires IsConfig(cfg) && Reachable(pool, cfg) && handle in Of(pool, key).handles && Of(pool, key).handles[handle].h1Slot
    ensures var o := Of(pool, key);
            var o1 := o.(handles := o.handles - {handle});
            Slots(o) > 0 && Put(o1, cfg, o.handles[handle].conn, gone, now).0.slots == o.slots
  {
    hide Offer, Sole, Shaped, Owned, Queued, UniqueIdle, SlotMail;
    ReachableIsSound(pool, cfg, key);
    SlotOwners(Of(pool, key), DropHandle(handle, false, gone));
  }
}
