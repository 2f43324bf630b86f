/** The pool as the program keeps it: tables by origin, changed in place under one lock. Each public
    method is one critical section and does to the tables exactly what the value model says. */
module Pools {
  import opened Octets
  import opened Origins
  import opened PoolRuns

  /** What is alive outside the lock, for one origin. */
  datatype Outside = Outside(
    channels: map<nat, Mail>, guards: map<nat, bool>, handles: map<nat, Handle>, lost: nat, next: nat, clock: nat)

  function WithOutside(o: Origin, out: Outside): Origin {
    o.(channels := out.channels, guards := out.guards, handles := out.handles, lost := out.lost, next := out.next,
       clock := out.clock)
  }

  function Lookup<V>(table: map<Key, V>, key: Key): Option<V> {
    if key in table then Some(table[key]) else None
  }

  /** What a polled waiter is told. */
  datatype WaiterAnswer = Granted(conn: Conn) | ClosedValue | NoLongerWanted | StillPending

  class Inner {
    const cfg: Config
    var connecting: set<Key>
    var h1Connections: map<Key, nat>
    var idle: map<Key, seq<Idle>>
    var waiters: map<Key, seq<nat>>
    var outside: map<Key, Outside>

    constructor (cfg: Config)
      ensures Valid() && this.cfg == cfg && View() == map[]
    {
      this.cfg := cfg;
      connecting, h1Connections, idle, waiters, outside := {}, map[], map[], map[], map[];
    }

    /** The tables mention only origins that were used. */
    ghost predicate Valid()
      reads this
    {
      && connecting <= outside.Keys && h1Connections.Keys <= outside.Keys
      && idle.Keys <= outside.Keys && waiters.Keys <= outside.Keys
    }

    ghost function Slice(key: Key): Origin
      reads this
    {
      var out := if key in outside then outside[key] else Outside(map[], map[], map[], 0, 0, 0);
      Origin(key in connecting, Lookup(h1Connections, key), Lookup(idle, key), Lookup(waiters, key),
             out.channels, out.guards, out.handles, out.lost, out.next, out.clock)
    }

    ghost function View(): Pool
      reads this
    {
      map key | key in outside :: Slice(key)
    }

    /** Nothing but the entries of one origin has changed. */
    twostate predicate OnlyAt(key: Key)
      reads this
    {
      && Valid() && outside.Keys == old(outside.Keys)
      && forall k: Key :: k != key ==> Slice(k) == old(Slice(k))
    }

    twostate lemma {:induction false} ViewAt(key: Key)
      requires outside.Keys == old(outside.Keys) + {key}
      requires forall k: Key :: k != key ==> Slice(k) == old(Slice(k))
      ensures View() == old(View())[key := Slice(key)]
    {
    }

    method Enter(key: Key, now: nat)
      requires Valid()
      modifies this
      ensures Valid() && outside.Keys == old(outside.Keys) + {key}
      ensures Slice(key) == old(Of(View(), key)).(clock := now)
      ensures forall k: Key :: k != key ==> Slice(k) == old(Slice(k))
    {
      var out := if key in outside then outside[key] else Outside(map[], map[], map[], 0, 0, 0);
      outside := outside[key := out.(clock := now)];
    }

    // ---- Reading and writing one entry ----

    function SlotsAt(key: Key): (r: Option<nat>)
      reads this
      ensures r == Slice(key).slots
    {
      Lookup(h1Connections, key)
    }

    function IdleAt(key: Key): (r: Option<seq<Idle>>)
      reads this
      ensures r == Slice(key).idle
    {
      Lookup(idle, key)
    }

    function WaitersAt(key: Key): (r: Option<seq<nat>>)
      reads this
      ensures r == Slice(key).waiters
    {
      Lookup(waiters, key)
    }

    function OutsideAt(key: Key): (r: Outside)
      reads this
      requires key in outside
      ensures Slice(key) == WithOutside(Slice(key), r)
    {
      outside[key]
    }

    method SetSlots(key: Key, entry: Option<nat>)
      requires Valid() && key in outside
      modifies this`h1Connections
      ensures OnlyAt(key) && Slice(key) == old(Slice(key)).(slots := entry)
    {
      h1Connections := if entry.Some? then h1Connections[key := entry.value] else h1Connections - {key};
    }

    method SetIdle(key: Key, entry: Option<seq<Idle>>)
      requires Valid() && key in outside
      modifies this`idle
      ensures OnlyAt(key) && Slice(key) == old(Slice(key)).(idle := entry)
    {
      idle := if entry.Some? then idle[key := entry.value] else idle - {key};
    }

    method SetWaiters(key: Key, entry: Option<seq<nat>>)
      requires Valid() && key in outside
      modifies this`waiters
      ensures OnlyAt(key) && Slice(key) == old(Slice(key)).(waiters := entry)
    {
      waiters := if entry.Some? then waiters[key := entry.value] else waiters - {key};
    }

    method SetConnecting(key: Key, marked: bool)
      requires Valid() && key in outside
      modifies this`connecting
      ensures OnlyAt(key) && Slice(key) == old(Slice(key)).(connecting := marked)
    {
      connecting := if marked then connecting + {key} else connecting - {key};
    }

    method SetOutside(key: Key, out: Outside)
      requires Valid() && key in outside
      modifies this`outside
      ensures OnlyAt(key) && Slice(key) == WithOutside(old(Slice(key)), out)
    {
      outside := outside[key := out];
    }

    // ---- The parts of a critical section ----

    method ReserveH1Slot(key: Key) returns (reserved: bool)
      requires Valid() && key in outside
      modifies this
      ensures OnlyAt(key) && (Slice(key), reserved) == ReserveSlot(old(Slice(key)), cfg)
    {
      hide Slice;
      var connections := if SlotsAt(key).Some? then SlotsAt(key).value else 0;
      reserved := connections < cfg.maxH1;
      SetSlots(key, Some(if reserved then connections + 1 else connections));
    }

    method ReleaseH1Slot(key: Key)
      requires Valid() && key in outside
      modifies this
      ensures OnlyAt(key) && Slice(key) == ReleaseSlot(old(Slice(key)))
    {
      hide Slice;
      var entry := SlotsAt(key);
      if entry.Some? {
        var connections := if entry.value > 0 then entry.value - 1 else 0;
        SetSlots(key, if connections == 0 then None else Some(connections));
      }
    }

    /** Tries the queued senders in order until the connection is used up. */
    method ServeWaiters(initial: seq<nat>, listening: map<nat, Mail>, conn: Conn, gone: set<nat>) returns (r: Offered)
      ensures r == Offer(initial, listening, conn, gone)
    {
      var queue, channels := initial, listening;
      while queue != []
        invariant Offer(queue, channels, conn, gone) == Offer(initial, listening, conn, gone)
        decreases |queue|
      {
        var sender := queue[0];
        queue := queue[1..];
        if sender !in channels {
          continue;
        }
        if sender in gone {
          channels := channels - {sender};
          continue;
        }
        channels := channels[sender := Sent(conn)];
        if !conn.shared {
          return Offered(queue, channels, None);
        }
      }
      r := Offered([], channels, Some(conn));
    }

    method GiveBack(key: Key, conn: Conn, gone: set<nat>, now: nat) returns (kept: bool)
      requires Valid() && key in outside
      modifies this
      ensures OnlyAt(key) && (Slice(key), kept) == Put(old(Slice(key)), cfg, conn, gone, now)
    {
      hide Offer, Slice;
      if conn.shared && IdleAt(key).Some? {
        return false;
      }
      var entry := WaitersAt(key);
      var queue := if entry.Some? then entry.value else [];
      var offered := ServeWaiters(queue, OutsideAt(key).channels, conn, gone);
      SetOutside(key, OutsideAt(key).(channels := offered.channels));
      SetWaiters(key, if entry.None? || offered.queue == [] then None else Some(offered.queue));
      if offered.left.None? {
        return true;
      }
      var list := if IdleAt(key).Some? then IdleAt(key).value else [];
      if |list| >= cfg.maxIdle {
        SetIdle(key, Some(list));
        return false;
      }
      SetIdle(key, Some(list + [Idle(conn, now)]));
      return true;
    }

    method DropWaiters(key: Key)
      requires Valid() && key in outside
      modifies this
      ensures OnlyAt(key) && Slice(key) == DropSenders(old(Slice(key)))
    {
      hide Slice;
      var queue := if WaitersAt(key).Some? then WaitersAt(key).value else [];
      var out := OutsideAt(key);
      SetWaiters(key, None);
      SetOutside(key, out.(channels := map w | w in out.channels :: if w in queue then Orphaned else out.channels[w]));
    }

    method AddGuard(key: Key, h1Slot: bool)
      requires Valid() && key in outside
      modifies this
      ensures OnlyAt(key) && Slice(key) == NewGuard(old(Slice(key)), h1Slot)
    {
      hide Slice;
      var out := OutsideAt(key);
      SetOutside(key, out.(guards := out.guards[out.next := h1Slot], next := out.next + 1));
    }

    method AddHandle(key: Key, conn: Conn)
      requires Valid() && key in outside
      modifies this
      ensures OnlyAt(key) && Slice(key) == NewHandle(old(Slice(key)), conn)
    {
      hide Slice;
      var out := OutsideAt(key);
      SetOutside(key, out.(handles := out.handles[out.next := Handle(conn, !conn.shared, !conn.shared)],
                           next := out.next + 1));
    }

    method PopIdle(list: seq<Idle>, closed: set<nat>, now: nat) returns (popped: Popped)
      ensures popped == Pop(list, cfg, closed, now)
    {
      var rest, evicted := list, 0;
      while rest != []
        invariant var more := Pop(rest, cfg, closed, now);
                  Pop(list, cfg, closed, now) == more.(evicted := more.evicted + evicted)
        decreases |rest|
      {
        var top := rest[|rest| - 1];
        rest := rest[..|rest| - 1];
        if IsDead(top, cfg, closed, now) {
          evicted := evicted + if top.conn.shared then 0 else 1;
        } else if top.conn.shared {
          return Popped(rest + [Idle(top.conn, now)], Some(top.conn), evicted);
        } else {
          return Popped(rest, Some(top.conn), evicted);
        }
      }
      return Popped([], None, evicted);
    }

    /** The receiver goes away with whatever was sent to it. */
    method ForgetReceiver(key: Key, waiter: nat)
      requires Valid() && key in outside && waiter in outside[key].channels
      modifies this
      ensures OnlyAt(key) && Slice(key) == LoseMail(old(Slice(key)), waiter)
    {
      var out := OutsideAt(key);
      var mail := out.channels[waiter];
      var lost := if mail.Sent? && !mail.conn.shared then 1 else 0;
      SetOutside(key, out.(channels := out.channels - {waiter}, lost := out.lost + lost));
    }

    method RetainListening(queue: seq<nat>, channels: map<nat, Mail>) returns (kept: seq<nat>)
      ensures kept == CleanQueue(queue, channels)
    {
      kept := [];
      var i := 0;
      assert queue[0..] == queue;
      while i < |queue|
        invariant i <= |queue| && kept + CleanQueue(queue[i..], channels) == CleanQueue(queue, channels)
      {
        var first := if queue[i] in channels then [queue[i]] else [];
        assert queue[i..][1..] == queue[i + 1..];
        assert CleanQueue(queue[i..], channels) == first + CleanQueue(queue[i + 1..], channels);
        hide CleanQueue;
        Regroup(kept, first, CleanQueue(queue[i + 1..], channels));
        if queue[i] in channels {
          kept := kept + [queue[i]];
        }
        i := i + 1;
      }
    }

    method RetainLive(list: seq<Idle>, closed: set<nat>, now: nat) returns (kept: seq<Idle>, evicted: nat)
      ensures kept == Keep(list, cfg, closed, now) && evicted == Evicted(list, cfg, closed, now)
    {
      kept, evicted := [], 0;
      for i := 0 to |list|
        invariant kept == Keep(list[..i], cfg, closed, now) && evicted == Evicted(list[..i], cfg, closed, now)
      {
        assert list[..i + 1][..i] == list[..i];
        if !IsDead(list[i], cfg, closed, now) {
          kept := kept + [list[i]];
        } else if !list[i].conn.shared {
          evicted := evicted + 1;
        }
      }
      assert list[..|list|] == list;
    }

    // ---- The critical sections ----

    method Connecting(key: Key, http2: bool, now: nat) returns (granted: bool)
      requires Valid() && May(View(), cfg, At(key, Step(Connect(http2), now)))
      modifies this
      ensures Valid() && View() == Next(old(View()), cfg, At(key, Step(Connect(http2), now)))
      ensures granted == if http2 then !old(Of(View(), key)).connecting else Slots(old(Of(View(), key))) < cfg.maxH1
    {
      hide Slice, May, View;
      Enter(key, now);
      if http2 {
        granted := !Marked(key);
        SetConnecting(key, true);
      } else {
        granted := ReserveH1Slot(key);
      }
      if granted {
        AddGuard(key, !http2);
      }
      ViewAt(key);
    }

    function Marked(key: Key): (r: bool)
      reads this
      ensures r == Slice(key).connecting
    {
      key in connecting
    }

    method PoolUniqueConn(key: Key, guard: nat, now: nat)
      requires Valid() && May(View(), cfg, At(key, Step(PooledUnique(guard), now)))
      modifies this
      ensures Valid() && View() == Next(old(View()), cfg, At(key, Step(PooledUnique(guard), now)))
    {
      hide Slice;
      Enter(key, now);
      var out := OutsideAt(key);
      SetOutside(key, out.(guards := out.guards - {guard}, next := out.next + 1));
      AddHandle(key, Conn(out.next, false));
      ViewAt(key);
    }

    method PoolSharedConn(key: Key, guard: nat, gone: set<nat>, now: nat)
      requires Valid() && May(View(), cfg, At(key, Step(PooledShared(guard, gone), now)))
      modifies this
      ensures Valid() && View() == Next(old(View()), cfg, At(key, Step(PooledShared(guard, gone), now)))
    {
      hide Put, DropSenders, Slice, View, NewHandle;
      Enter(key, now);
      var out := OutsideAt(key);
      var conn := Conn(out.next, true);
      SetOutside(key, out.(guards := out.guards - {guard}, next := out.next + 1));
      var _ := GiveBack(key, conn, gone, now);
      SetConnecting(key, false);
      DropWaiters(key);
      AddHandle(key, conn);
      ViewAt(key);
    }

    /** The first half of turning an HTTP/1 reservation into an HTTP/2 one; the second half is a
        `Connecting` of its own. */
    method ReleaseForAlpn(key: Key, guard: nat, now: nat)
      requires Valid() && May(View(), cfg, At(key, Step(AlpnRelease(guard), now)))
      modifies this
      ensures Valid() && View() == Next(old(View()), cfg, At(key, Step(AlpnRelease(guard), now)))
    {
      hide Slice;
      Enter(key, now);
      var out := OutsideAt(key);
      SetOutside(key, out.(guards := out.guards - {guard}));
      ReleaseH1Slot(key);
      ViewAt(key);
    }

    method DropConnecting(key: Key, guard: nat, now: nat)
      requires Valid() && May(View(), cfg, At(key, Step(DropGuard(guard), now)))
      modifies this
      ensures Valid() && View() == Next(old(View()), cfg, At(key, Step(DropGuard(guard), now)))
    {
      hide DropSenders, Slice;
      Enter(key, now);
      var out := OutsideAt(key);
      SetOutside(key, out.(guards := out.guards - {guard}));
      if out.guards[guard] {
        ReleaseH1Slot(key);
      } else {
        SetConnecting(key, false);
      }
      DropWaiters(key);
      ViewAt(key);
    }

    method DropPooled(key: Key, handle: nat, sawOpen: bool, gone: set<nat>, now: nat)
      requires Valid() && May(View(), cfg, At(key, Step(DropHandle(handle, sawOpen, gone), now)))
      modifies this
      ensures Valid() && View() == Next(old(View()), cfg, At(key, Step(DropHandle(handle, sawOpen, gone), now)))
    {
      hide Put, Slice;
      Enter(key, now);
      var out := OutsideAt(key);
      var h := out.handles[handle];
      SetOutside(key, out.(handles := out.handles - {handle}));
      if !sawOpen || !h.linked {
        if h.linked && h.h1Slot {
          ReleaseH1Slot(key);
        }
      } else {
        var kept := GiveBack(key, h.conn, gone, now);
        if !kept && h.h1Slot {
          ReleaseH1Slot(key);
        }
      }
      ViewAt(key);
    }

    method CheckoutIdle(key: Key, hasWaiter: bool, closed: set<nat>, now: nat) returns (conn: Option<Conn>)
      requires Valid() && May(View(), cfg, At(key, Step(Checkout(hasWaiter, closed), now)))
      modifies this
      ensures Valid() && View() == Next(old(View()), cfg, At(key, Step(Checkout(hasWaiter, closed), now)))
      ensures conn == Pop(List(old(Of(View(), key))), cfg, closed, now).conn
    {
      hide Pop, Slice, CheckOut;
      Enter(key, now);
      conn := TakeOrWait(key, hasWaiter, closed, now);
      ViewAt(key);
    }

    method TakeOrWait(key: Key, hasWaiter: bool, closed: set<nat>, now: nat) returns (conn: Option<Conn>)
      requires Valid() && key in outside
      modifies this
      ensures OnlyAt(key) && Slice(key) == CheckOut(old(Slice(key)), cfg, hasWaiter, closed, now)
      ensures conn == Pop(List(old(Slice(key))), cfg, closed, now).conn
    {
      hide Pop, Slice, NewHandle;
      conn := TakeIdle(key, closed, now);
      if conn.Some? {
        AddHandle(key, conn.value);
      } else if !hasWaiter {
        EnqueueWaiter(key);
      }
    }

    method TakeIdle(key: Key, closed: set<nat>, now: nat) returns (conn: Option<Conn>)
      requires Valid() && key in outside
      modifies this
      ensures var o := old(Slice(key));
              var popped := Pop(List(o), cfg, closed, now);
              && OnlyAt(key) && conn == popped.conn
              && Slice(key) == o.(idle := if popped.list == [] then None else Some(popped.list), lost := o.lost + popped.evicted)
    {
      hide Pop, Slice;
      var list := if IdleAt(key).Some? then IdleAt(key).value else [];
      var popped := PopIdle(list, closed, now);
      conn := popped.conn;
      SetIdle(key, if popped.list == [] then None else Some(popped.list));
      SetOutside(key, OutsideAt(key).(lost := OutsideAt(key).lost + popped.evicted));
    }

    method EnqueueWaiter(key: Key)
      requires Valid() && key in outside
      modifies this
      ensures var o := old(Slice(key));
              OnlyAt(key) && Slice(key) ==
              o.(waiters := Some(Queue(o) + [o.next]), channels := o.channels[o.next := Waiting], next := o.next + 1)
    {
      hide Slice;
      var queue := if WaitersAt(key).Some? then WaitersAt(key).value else [];
      var out := OutsideAt(key);
      SetWaiters(key, Some(queue + [out.next]));
      SetOutside(key, out.(channels := out.channels[out.next := Waiting], next := out.next + 1));
    }

    method PollWaiter(key: Key, waiter: nat, sawOpen: bool, now: nat) returns (answer: WaiterAnswer)
      requires Valid() && May(View(), cfg, At(key, Step(Receive(waiter, sawOpen), now)))
      modifies this
      ensures Valid() && View() == Next(old(View()), cfg, At(key, Step(Receive(waiter, sawOpen), now)))
      ensures answer == match old(Of(View(), key)).channels[waiter]
                        case Sent(conn) => if sawOpen then Granted(conn) else ClosedValue
                        case Orphaned => NoLongerWanted
                        case Waiting => StillPending
    {
      hide Slice;
      Enter(key, now);
      var out := OutsideAt(key);
      var mail := out.channels[waiter];
      match mail {
        case Sent(conn) =>
          if sawOpen {
            SetOutside(key, out.(channels := out.channels - {waiter}));
            AddHandle(key, conn);
            answer := Granted(conn);
          } else {
            ForgetReceiver(key, waiter);
            answer := ClosedValue;
          }
        case Orphaned =>
          ForgetReceiver(key, waiter);
          answer := NoLongerWanted;
        case Waiting =>
          answer := StillPending;
      }
      ViewAt(key);
    }

    method DropWaiter(key: Key, waiter: nat, now: nat)
      requires Valid() && May(View(), cfg, At(key, Step(DropReceiver(waiter), now)))
      modifies this
      ensures Valid() && View() == Next(old(View()), cfg, At(key, Step(DropReceiver(waiter), now)))
    {
      hide Slice;
      Enter(key, now);
      assert OutsideAt(key).channels == Slice(key).channels;
      ForgetReceiver(key, waiter);
      ViewAt(key);
    }

    method CleanWaitersOf(key: Key, now: nat)
      requires Valid() && May(View(), cfg, At(key, Step(Clean, now)))
      modifies this
      ensures Valid() && View() == Next(old(View()), cfg, At(key, Step(Clean, now)))
    {
      hide CleanQueue, Slice, May, View;
      Enter(key, now);
      var entry := WaitersAt(key);
      if entry.Some? {
        var queue := RetainListening(entry.value, OutsideAt(key).channels);
        SetWaiters(key, if queue == [] then None else Some(queue));
      }
      ViewAt(key);
    }

    method SweepOne(key: Key, closed: set<nat>, now: nat)
      requires Valid() && key in outside
      modifies this
      ensures OnlyAt(key) && Slice(key) == After(old(Slice(key)), cfg, Step(Sweep(closed), now))
    {
      hide Keep, Evicted, Slice;
      var list := if IdleAt(key).Some? then IdleAt(key).value else [];
      var kept, evicted := RetainLive(list, closed, now);
      SetIdle(key, if kept == [] then None else Some(kept));
      var out := OutsideAt(key);
      SetOutside(key, out.(lost := out.lost + evicted, clock := now));
    }

    ghost function Swept(o: Origin, key: Key, closed: map<Key, set<nat>>, now: nat): Origin {
      After(o, cfg, Step(Sweep(ClosedAt(closed, key)), now))
    }

    method SweepKeys(keys: set<Key>, closed: map<Key, set<nat>>, now: nat)
      requires Valid() && keys <= outside.Keys
      modifies this
      ensures Valid() && outside.Keys == old(outside.Keys)
      ensures forall key: Key :: Slice(key) == if key in keys then Swept(old(Slice(key)), key, closed, now) else old(Slice(key))
      decreases |keys|
    {
      hide After, Slice;
      if keys != {} {
        var key :| key in keys;
        SweepOne(key, ClosedAt(closed, key), now);
        SweepKeys(keys - {key}, closed, now);
      }
    }

    /** The idle task's pass over the whole table. */
    method ClearExpired(closed: map<Key, set<nat>>, now: nat)
      requires Valid() && May(View(), cfg, SweepAll(closed, now))
      modifies this
      ensures Valid() && View() == Next(old(View()), cfg, SweepAll(closed, now))
    {
      hide After, Slice, May;
      SweepKeys(outside.Keys, closed, now);
    }
  }
}
