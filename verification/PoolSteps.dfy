/** What each step of a reachable pool does, told by its outcome: what is handed to whom, what goes, and what
    stays as it was. */
module PoolSteps {
  import opened Octets
  import opened Origins
  import opened PoolInvariant
  import opened PoolRuns
  import opened PoolService

  /** A handle on this connection: only an HTTP/1 one leads back to the pool and owns a slot. */
  function HandleOn(c: Conn): Handle {
    Handle(c, !c.shared, !c.shared)
  }

  // ---- Waiters ----

  /** A waiter's receiver is polled. An open connection becomes a handle and is nowhere else; a closed one is
      dropped, and an HTTP/1 one is lost with its slot; a dropped sender ends the waiting; and otherwise nothing
      happens. */
  lemma {:induction false} ReceiveServes(pool: Pool, cfg: Config, key: Key, w: nat, sawOpen: bool, now: nat)
    requires IsConfig(cfg) && Reachable(pool, cfg) && Enabled(Of(pool, key), cfg, Step(Receive(w, sawOpen), now))
    ensures var o := Of(pool, key).(clock := now);
            var o' := After(Of(pool, key), cfg, Step(Receive(w, sawOpen), now));
            match o.channels[w]
            case Waiting => o' == o
            case Orphaned => o' == o.(channels := o.channels - {w})
            case Sent(c) =>
              if sawOpen then
                && o' == o.(channels := o.channels - {w}, handles := o.handles[o.next := HandleOn(c)], next := o.next + 1)
                && (!c.shared ==> OnlyAt(o', AtHandle(o.next), c))
              else
                && o' == o.(channels := o.channels - {w}, lost := o.lost + if c.shared then 0 else 1)
                && (!c.shared ==> Nowhere(HoldersOf(o'), c))
  {
    hide Sound, Nowhere, OnlyAt;
    ReachableIsSound(pool, cfg, key);
    Ticks(Of(pool, key), cfg, now);
    var o := Of(pool, key).(clock := now);
    TakeMailKeeps(o, cfg, w);
    var o1 := o.(channels := o.channels - {w});
    if o.channels[w].Sent? && !o.channels[w].conn.shared {
      var c := o.channels[w].conn;
      NowByHandle(o1, o.next, c);
      SameHolders(HoldersOf(o1), HoldersOf(o1.(lost := o.lost + 1)), c);
    }
  }

  lemma {:induction false} NowByHandle(o: Origin, h: nat, c: Conn)
    requires Nowhere(HoldersOf(o), c)
    ensures OnlyAt(o.(handles := o.handles[h := HandleOn(c)], next := h + 1), AtHandle(h), c)
  {
    var o' := o.(handles := o.handles[h := HandleOn(c)], next := h + 1);
    forall p | p != AtHandle(h) ensures !Holds(HoldersOf(o'), p, c) {
      assert !Holds(HoldersOf(o), p, c);
    }
  }

  lemma {:induction false} SameHolders(all: Holders, all': Holders, c: Conn)
    requires all == all' && Nowhere(all, c)
    ensures Nowhere(all', c)
  {
  }

  /** A waiter gives up: what was sent to it goes with it, and an HTTP/1 connection is lost. */
  lemma {:induction false} GivingUpLoses(pool: Pool, cfg: Config, key: Key, w: nat, now: nat)
    requires IsConfig(cfg) && Reachable(pool, cfg) && Enabled(Of(pool, key), cfg, Step(DropReceiver(w), now))
    ensures var o := Of(pool, key).(clock := now);
            var o' := After(Of(pool, key), cfg, Step(DropReceiver(w), now));
            && o' == o.(channels := o.channels - {w}, lost := o'.lost)
            && match o.channels[w]
               case Sent(c) => o'.lost == (if c.shared then o.lost else o.lost + 1) && (!c.shared ==> Nowhere(HoldersOf(o'), c))
               case _ => o'.lost == o.lost
  {
    hide Sound, Nowhere;
    ReachableIsSound(pool, cfg, key);
    Ticks(Of(pool, key), cfg, now);
    var o := Of(pool, key).(clock := now);
    TakeMailKeeps(o, cfg, w);
    var o1 := o.(channels := o.channels - {w});
    if o.channels[w].Sent? && !o.channels[w].conn.shared {
      SameHolders(HoldersOf(o1), HoldersOf(o1.(lost := o.lost + 1)), o.channels[w].conn);
    }
  }

  /** Cleaning keeps exactly the waiters that still listen, in order of arrival. */
  lemma {:induction false} CleaningKeepsListeners(pool: Pool, cfg: Config, key: Key, now: nat)
    requires IsConfig(cfg) && Reachable(pool, cfg) && Enabled(Of(pool, key), cfg, Step(Clean, now))
    ensures var o := Of(pool, key).(clock := now);
            var o' := After(Of(pool, key), cfg, Step(Clean, now));
            && o' == o.(waiters := o'.waiters) && InOrder(Queue(o'))
            && forall w :: w in Queue(o') <==> w in Queue(o) && w in o.channels
  {
    hide Sound, CleanQueue;
    var o := Of(pool, key);
    ReachableIsSound(pool, cfg, key);
    SoundQueue(o, cfg, 0);
    CleanForm(Queue(o), o.channels);
    if o.waiters.None? {
      assert Queue(o) == [];
    }
  }

  // ---- Establishing ----

  /** An HTTP/2 establishment is granted while no marker stands, an HTTP/1 one while a slot is free; a grant is
      one guard, with the marker or one more slot, and a refusal changes nothing. */
  lemma {:induction false} ConnectingGrants(pool: Pool, cfg: Config, key: Key, http2: bool, now: nat)
    requires IsConfig(cfg) && Reachable(pool, cfg)
    ensures var o := Of(pool, key).(clock := now);
            var o' := After(Of(pool, key), cfg, Step(Connect(http2), now));
            if (if http2 then o.connecting else Slots(o) >= cfg.maxH1) then o' == o
            else if http2 then o' == o.(connecting := true, guards := o.guards[o.next := false], next := o.next + 1)
            else o' == o.(slots := Some(Slots(o) + 1), guards := o.guards[o.next := true], next := o.next + 1)
  {
    hide Sole, Shaped, Owned, Queued, Linked, Sockets;
    ReachableIsSound(pool, cfg, key);
  }

  /** A new HTTP/1 connection: the guard goes, and the caller alone has the connection. */
  lemma {:induction false} PooledUniqueServes(pool: Pool, cfg: Config, key: Key, guard: nat, now: nat)
    requires IsConfig(cfg) && Reachable(pool, cfg) && Enabled(Of(pool, key), cfg, Step(PooledUnique(guard), now))
    ensures var o := Of(pool, key).(clock := now);
            var o' := After(Of(pool, key), cfg, Step(PooledUnique(guard), now));
            var conn := Conn(o.next, false);
            && o' == o.(guards := o.guards - {guard}, handles := o.handles[o.next + 1 := Handle(conn, true, true)], next := o.next + 2)
            && OnlyAt(o', AtHandle(o.next + 1), conn)
  {
    hide Sound, Nowhere, OnlyAt;
    ReachableIsSound(pool, cfg, key);
    Ticks(Of(pool, key), cfg, now);
    var o := Of(pool, key).(clock := now);
    RenameKeeps(o, cfg, 0);
    var o1 := o.(guards := o.guards - {guard}, next := o.next + 1);
    SameHolders(HoldersOf(o.(next := o.next + 1)), HoldersOf(o1), Conn(o.next, false));
    NowByHandle(o1, o.next + 1, Conn(o.next, false));
  }

  /** An establishment is given up: its slot or its marker goes with it, and every queued waiter loses its
      sender. */
  lemma {:induction false} GivenUpWakes(pool: Pool, cfg: Config, key: Key, guard: nat, now: nat)
    requires IsConfig(cfg) && Reachable(pool, cfg) && Enabled(Of(pool, key), cfg, Step(DropGuard(guard), now))
    ensures var o := Of(pool, key);
            var o' := After(o, cfg, Step(DropGuard(guard), now));
            && o'.guards == o.guards - {guard} && o'.handles == o.handles && o'.idle == o.idle && o'.lost == o.lost
            && (if o.guards[guard] then Slots(o') == Slots(o) - 1 && o'.connecting == o.connecting
                else Slots(o') == Slots(o) && o.connecting && !o'.connecting)
            && o'.waiters.None? && o'.channels.Keys == o.channels.Keys
            && forall w :: w in o.channels ==> o'.channels[w] == if w in Queue(o) then Orphaned else o.channels[w]
  {
    hide Sound;
    var o := Of(pool, key);
    ReachableIsSound(pool, cfg, key);
    TakeGuardKeeps(o, cfg, guard);
    if o.guards[guard] {
      ReleasesAreCounted(pool, cfg, key, Step(DropGuard(guard), now));
    }
  }

  /** The first half of a conversion frees the slot and wakes nobody. */
  lemma {:induction false} AlpnReleaseFrees(pool: Pool, cfg: Config, key: Key, guard: nat, now: nat)
    requires IsConfig(cfg) && Reachable(pool, cfg) && Enabled(Of(pool, key), cfg, Step(AlpnRelease(guard), now))
    ensures var o := Of(pool, key).(clock := now);
            var o' := After(Of(pool, key), cfg, Step(AlpnRelease(guard), now));
            o' == o.(guards := o.guards - {guard}, slots := o'.slots) && Slots(o') == Slots(o) - 1
  {
    ReleasesAreCounted(pool, cfg, key, Step(AlpnRelease(guard), now));
  }

  /** A closed HTTP/1 connection is dropped: its slot is free, nobody is woken, and it is nowhere. */
  lemma {:induction false} ClosedHandleDropped(pool: Pool, cfg: Config, key: Key, handle: nat, gone: set<nat>, now: nat)
    requires IsConfig(cfg) && Reachable(pool, cfg) && Enabled(Of(pool, key), cfg, Step(DropHandle(handle, false, gone), now))
    requires !Of(pool, key).handles[handle].conn.shared
    ensures var o := Of(pool, key).(clock := now);
            var o' := After(Of(pool, key), cfg, Step(DropHandle(handle, false, gone), now));
            && o' == o.(handles := o.handles - {handle}, slots := o'.slots) && Slots(o') == Slots(o) - 1
            && Nowhere(HoldersOf(o'), o.handles[handle].conn)
  {
    hide Sound, Nowhere;
    ReachableIsSound(pool, cfg, key);
    TakeHandleKeeps(Of(pool, key), cfg, handle);
    ReleasesAreCounted(pool, cfg, key, Step(DropHandle(handle, false, gone), now));
    var o := Of(pool, key);
    var o' := After(o, cfg, Step(DropHandle(handle, false, gone), now));
    SameHolders(HoldersOf(o.(handles := o.handles - {handle})), HoldersOf(o'), o.handles[handle].conn);
  }

  // ---- Idle connections ----

  /** Open when looked at, and idle for no longer than the timeout. */
  predicate IsLive(entry: Idle, cfg: Config, closed: set<nat>, now: nat) {
    entry.conn.serial !in closed && (cfg.timeout.None? || now - entry.idleAt <= cfg.timeout.value)
  }

  lemma {:induction false} LiveIff(entry: Idle, cfg: Config, closed: set<nat>, now: nat)
    ensures IsLive(entry, cfg, closed, now) <==> !IsDead(entry, cfg, closed, now)
  {
  }

  /** A checkout takes the entry that was put away last of those still live, and drops those above it; an
      HTTP/2 connection also stays, as just used. Without one the caller, if not queued yet, is queued last. */
  lemma {:induction false} CheckoutServes(
    pool: Pool, cfg: Config, key: Key, hasWaiter: bool, closed: set<nat>, now: nat, n: nat)
    requires IsConfig(cfg) && Reachable(pool, cfg) && Enabled(Of(pool, key), cfg, Step(Checkout(hasWaiter, closed), now))
    requires var list := List(Of(pool, key));
             && n <= |list| && (n > 0 ==> IsLive(list[n - 1], cfg, closed, now))
             && forall i :: n <= i < |list| ==> !IsLive(list[i], cfg, closed, now)
    ensures var o := Of(pool, key).(clock := now);
            var o' := After(Of(pool, key), cfg, Step(Checkout(hasWaiter, closed), now));
            && Slots(o') == Slots(o) && o'.lost == o.lost + UniqueIdle(List(o)) - UniqueIdle(List(o)[..n])
            && o'.guards == o.guards && o'.connecting == o.connecting
            && if n > 0 then
                 var conn := List(o)[n - 1].conn;
                 && o'.handles == o.handles[o.next := HandleOn(conn)]
                 && List(o') == List(o)[..n - 1] + (if conn.shared then [Idle(conn, now)] else [])
                 && o'.waiters == o.waiters && o'.channels == o.channels
               else
                 && o'.handles == o.handles && o'.idle.None?
                 && if hasWaiter then o'.waiters == o.waiters && o'.channels == o.channels
                    else
                      && o'.waiters == Some(Queue(o) + [o.next]) && o'.channels == o.channels[o.next := Waiting]
                      && forall w :: w in Queue(o) ==> w < o.next
  {
    hide Pop, UniqueIdle, IsLive, Sole, Shaped, Owned, Queued, Linked, Balanced, TopLive;
    var o := Of(pool, key);
    ReachableIsSound(pool, cfg, key);
    TopLiveIs(List(o), cfg, closed, now, n);
    PopForm(List(o), cfg, closed, now);
  }

  lemma {:induction false} TopLiveIs(list: seq<Idle>, cfg: Config, closed: set<nat>, now: nat, n: nat)
    requires n <= |list| && (n > 0 ==> IsLive(list[n - 1], cfg, closed, now))
    requires forall i :: n <= i < |list| ==> !IsLive(list[i], cfg, closed, now)
    ensures TopLive(list, cfg, closed, now) == n
  {
    hide IsLive, IsDead;
    forall i | 0 <= i < |list| ensures IsLive(list[i], cfg, closed, now) <==> !IsDead(list[i], cfg, closed, now) {
      LiveIff(list[i], cfg, closed, now);
    }
    hide TopLive;
  }

  /** The live entries of a list, in order. */
  function LiveOnly(list: seq<Idle>, cfg: Config, closed: set<nat>, now: nat): seq<Idle> {
    if list == [] then []
    else (if IsLive(list[0], cfg, closed, now) then [list[0]] else []) + LiveOnly(list[1..], cfg, closed, now)
  }

  lemma {:induction false} LiveOnlyMore(list: seq<Idle>, e: Idle, cfg: Config, closed: set<nat>, now: nat)
    ensures LiveOnly(list + [e], cfg, closed, now) ==
            LiveOnly(list, cfg, closed, now) + if IsLive(e, cfg, closed, now) then [e] else []
  {
    hide IsLive;
    if list == [] {
      assert ([] + [e])[1..] == [] && [] + [e] == [e];
      assert LiveOnly([e][1..], cfg, closed, now) == [];
    } else {
      LiveOnlyMore(list[1..], e, cfg, closed, now);
      assert (list + [e])[0] == list[0] && (list + [e])[1..] == list[1..] + [e];
      var first := if IsLive(list[0], cfg, closed, now) then [list[0]] else [];
      Regroup(first, LiveOnly(list[1..], cfg, closed, now), if IsLive(e, cfg, closed, now) then [e] else []);
    }
  }

  lemma {:induction false} KeptAreLive(list: seq<Idle>, cfg: Config, closed: set<nat>, now: nat)
    ensures Keep(list, cfg, closed, now) == LiveOnly(list, cfg, closed, now)
  {
    if list != [] {
      var k := |list| - 1;
      KeptAreLive(list[..k], cfg, closed, now);
      assert list == list[..k] + [list[k]];
      LiveOnlyMore(list[..k], list[k], cfg, closed, now);
      LiveIff(list[k], cfg, closed, now);
    }
  }

  /** The idle task leaves exactly the live entries, in order, and counts the HTTP/1 connections it drops as
      lost. */
  lemma {:induction false} SweepLeavesLive(pool: Pool, cfg: Config, key: Key, closed: set<nat>, now: nat)
    requires IsConfig(cfg) && Reachable(pool, cfg) && Enabled(Of(pool, key), cfg, Step(Sweep(closed), now))
    ensures var o := Of(pool, key).(clock := now);
            var o' := After(Of(pool, key), cfg, Step(Sweep(closed), now));
            && o' == o.(idle := o'.idle, lost := o'.lost) && List(o') == LiveOnly(List(o), cfg, closed, now)
            && (o'.idle.Some? ==> o'.idle.value != [])
            && o'.lost == o.lost + UniqueIdle(List(o)) - UniqueIdle(List(o'))
  {
    hide Keep, Evicted, UniqueIdle, LiveOnly;
    var o := Of(pool, key);
    KeptAreLive(List(o), cfg, closed, now);
    KeepCounts(List(o), cfg, closed, now);
  }

  /** An open HTTP/1 connection given back at `t`, that nobody waits for and there is room for, is what a
      checkout at `now` hands out exactly when the timeout has not passed since. */
  lemma {:induction false} HandedOutIff(
    pool: Pool, cfg: Config, key: Key, handle: nat, gone: set<nat>, t: nat, hasWaiter: bool, closed: set<nat>, now: nat)
    requires IsConfig(cfg) && Reachable(pool, cfg) && t <= now
    requires Enabled(Of(pool, key), cfg, Step(DropHandle(handle, true, gone), t))
    requires !Of(pool, key).handles[handle].conn.shared && Of(pool, key).handles[handle].conn.serial !in closed
    requires FirstAble(Queue(Of(pool, key)), Of(pool, key).channels, gone) == |Queue(Of(pool, key))|
    requires |List(Of(pool, key))| < cfg.maxIdle
    ensures var conn := Of(pool, key).handles[handle].conn;
            var idle := After(Of(pool, key), cfg, Step(DropHandle(handle, true, gone), t));
            var o' := After(idle, cfg, Step(Checkout(hasWaiter, closed), now));
            (exists h :: Holds(HoldersOf(o'), AtHandle(h), conn)) <==> cfg.timeout.None? || now - t <= cfg.timeout.value
  {
    hide Pop, Sound, OnlyAt, Put;
    var o := Of(pool, key);
    var conn := o.handles[handle].conn;
    var give := Step(DropHandle(handle, true, gone), t);
    GivenBackServes(pool, cfg, key, handle, gone, t);
    var idle := After(o, cfg, give);
    hide After;
    ReachableIsSound(pool, cfg, key);
    StepKeeps(o, cfg, give);
    var entry := Idle(conn, t);
    assert List(idle)[|List(idle)| - 1] == entry;
    LiveIff(entry, cfg, closed, now);
    TopIsTaken(idle, cfg, hasWaiter, closed, now, conn);
  }

  lemma {:induction false} TopIsTaken(o: Origin, cfg: Config, hasWaiter: bool, closed: set<nat>, now: nat, conn: Conn)
    requires Inv(o, cfg) && List(o) != [] && List(o)[|List(o)| - 1].conn == conn && !conn.shared && OnlyAt(o, AtIdle, conn)
    ensures var o' := After(o, cfg, Step(Checkout(hasWaiter, closed), now));
            (exists h :: Holds(HoldersOf(o'), AtHandle(h), conn)) <==> !IsDead(List(o)[|List(o)| - 1], cfg, closed, now)
  {
    hide Sound, Pop, IsDead;
    var list := List(o);
    var n := TopLive(list, cfg, closed, now);
    PopForm(list, cfg, closed, now);
    SoundList(o, cfg);
    NoHandleOn(o, conn);
    var o' := After(o, cfg, Step(Checkout(hasWaiter, closed), now));
    if !IsDead(list[|list| - 1], cfg, closed, now) {
      assert n == |list|;
      assert o'.handles[o.next] == HandleOn(conn);
      assert Holds(HoldersOf(o'), AtHandle(o.next), conn);
    } else {
      assert n < |list|;
      if n > 0 {
        assert list[n - 1].conn != list[|list| - 1].conn;
      }
      assert o'.handles == o.handles || (n > 0 && o'.handles == o.handles[o.next := HandleOn(list[n - 1].conn)]);
    }
  }

  lemma {:induction false} NoHandleOn(o: Origin, conn: Conn)
    requires OnlyAt(o, AtIdle, conn)
    ensures forall h :: h in o.handles ==> o.handles[h].conn != conn
  {
    forall h | h in o.handles ensures o.handles[h].conn != conn {
      assert !Holds(HoldersOf(o), AtHandle(h), conn);
    }
  }
}
