/** What the pool does not promise, with the exact condition and a run for each: when the idle sweep can be
    noticed, when the conversion to HTTP/2 differs from an atomic one, and when an origin is out of slots
    for good. */
module PoolGaps {
  import opened Octets
  import opened Origins
  import opened PoolInvariant
  import opened PoolRuns

  // ---- Runs on one origin ----

  /** The events are a run of a new pool, and all there is at their end is `o`. */
  predicate LeadsTo(events: seq<Event>, cfg: Config, key: Key, o: Origin) {
    IsRun(map[], cfg, events) && EndOf(map[], cfg, events) == map[key := o]
  }

  lemma {:induction false} FirstStep(cfg: Config, key: Key, s: Step)
    requires Enabled(FRESH, cfg, s)
    ensures LeadsTo([At(key, s)], cfg, key, After(FRESH, cfg, s))
  {
    hide Enabled, After;
    RunOfOne(map[], cfg, At(key, s));
  }

  lemma {:induction false} NextStep(events: seq<Event>, cfg: Config, key: Key, o: Origin, s: Step)
    requires LeadsTo(events, cfg, key, o) && Enabled(o, cfg, s)
    ensures LeadsTo(events + [At(key, s)], cfg, key, After(o, cfg, s))
  {
    hide Enabled, After, IsRun, EndOf;
    RunAppend(map[], cfg, events, [At(key, s)]);
    RunOfOne(map[key := o], cfg, At(key, s));
    assert map[key := o][key := After(o, cfg, s)] == map[key := After(o, cfg, s)];
  }

  lemma {:induction false} NextSweep(events: seq<Event>, cfg: Config, key: Key, o: Origin, now: nat)
    requires LeadsTo(events, cfg, key, o) && Enabled(o, cfg, Step(Sweep({}), now))
    ensures LeadsTo(events + [SweepAll(map[], now)], cfg, key, After(o, cfg, Step(Sweep({}), now)))
  {
    hide Enabled, After, IsRun, EndOf;
    RunAppend(map[], cfg, events, [SweepAll(map[], now)]);
    RunOfOne(map[key := o], cfg, SweepAll(map[], now));
    assert ClosedAt(map[], key) == {};
    assert Next(map[key := o], cfg, SweepAll(map[], now)) == map[key := After(o, cfg, Step(Sweep({}), now))];
  }

  // ---- The idle sweep, seen by put ----

  /** Whether a connection is kept depends on an earlier sweep exactly in two cases: a shared one, when the
      sweep would have emptied the origin's list; and a unique one that no waiter takes, when the list is
      full and the sweep would have made room. In both it is kept with the sweep and refused without. */
  lemma {:induction false} SweepSeenByPut(
    o: Origin, cfg: Config, conn: Conn, gone: set<nat>, closed: set<nat>, at: nat, now: nat)
    requires IsConfig(cfg) && Shaped(o.idle, cfg, o.clock)
    ensures var list := Keep(List(o), cfg, closed, at);
            var without, swept := Put(o, cfg, conn, gone, now).1, Put(SweepIdle(o, cfg, closed, at), cfg, conn, gone, now).1;
            && (without ==> swept)
            && (without != swept <==>
                  if conn.shared then List(o) != [] && list == []
                  else FirstAble(Queue(o), o.channels, gone) == |Queue(o)| && |List(o)| == cfg.maxIdle && |list| < |List(o)|)
  {
    hide Offer, Keep, Evicted, IsIdleList;
    KeepCounts(List(o), cfg, closed, at);
    if conn.shared {
      OfferShared(Queue(o), o.channels, conn, gone);
    } else {
      OfferUnique(Queue(o), o.channels, conn, gone);
    }
  }

  const TIMEOUT_ONE := Some(1)

  /** One HTTP/1 connection, idle since time zero. */
  lemma {:induction false} OneIdle(key: Key) returns (events: seq<Event>, o: Origin)
    ensures LeadsTo(events, Config(1, 1, TIMEOUT_ONE), key, o)
    ensures o == Origin(false, Some(1), Some([Idle(Conn(1, false), 0)]), None, map[], map[], map[], 0, 3, 0)
  {
    hide LeadsTo;
    var cfg := Config(1, 1, TIMEOUT_ONE);
    var s1, s2, s3 := Step(Connect(false), 0), Step(PooledUnique(0), 0), Step(DropHandle(2, true, {}), 0);
    var o1 := Origin(false, Some(1), None, None, map[], map[0 := true], map[], 0, 1, 0);
    var o2 := Origin(false, Some(1), None, None, map[], map[], map[2 := Handle(Conn(1, false), true, true)], 0, 3, 0);
    o := Origin(false, Some(1), Some([Idle(Conn(1, false), 0)]), None, map[], map[], map[], 0, 3, 0);
    FirstStep(cfg, key, s1);
    assert After(FRESH, cfg, s1) == o1;
    NextStep([At(key, s1)], cfg, key, o1, s2);
    assert After(o1, cfg, s2) == o2;
    NextStep([At(key, s1)] + [At(key, s2)], cfg, key, o2, s3);
    StoredAlone(o2.(handles := map[]), cfg, Conn(1, false), 0);
    assert o2.handles - {2} == map[];
    assert After(o2, cfg, s3) == o;
    events := [At(key, s1)] + [At(key, s2)] + [At(key, s3)];
  }

  /** With nobody waiting and nothing idle a connection is simply stored. */
  lemma {:induction false} StoredAlone(o: Origin, cfg: Config, conn: Conn, now: nat)
    requires IsConfig(cfg) && o.idle.None? && o.waiters.None?
    ensures Put(o, cfg, conn, {}, now) == (o.(idle := Some([Idle(conn, now)])), true)
  {
    assert Offer([], o.channels, conn, {}) == Offered([], o.channels, Some(conn));
    assert [] + [Idle(conn, now)] == [Idle(conn, now)];
  }

  lemma {:induction false} ExpiredIsSwept(o: Origin, cfg: Config)
    requires o.idle == Some([Idle(Conn(1, false), 0)]) && cfg.timeout == TIMEOUT_ONE
    ensures SweepIdle(o, cfg, {}, 2) == o.(idle := None, lost := o.lost + 1)
  {
    var list := List(o);
    assert list[..0] == [] && Keep([], cfg, {}, 2) == [] && Evicted([], cfg, {}, 2) == 0;
  }

  /** Such a run: an HTTP/1 connection has expired and an HTTP/2 one is being established. Pooled at time
      two, that one is stored if the idle task came first and is refused if it did not. */
  lemma {:induction false} SweepSeenInARun(key: Key) returns (before: seq<Event>, sweep: Event, pooled: Event, conn: Conn)
    ensures var cfg := Config(1, 1, TIMEOUT_ONE);
            && sweep.SweepAll? && pooled.At? && pooled.step.action.PooledShared? && conn.shared
            && IsRun(map[], cfg, before + [pooled]) && IsRun(map[], cfg, (before + [sweep]) + [pooled])
            && !Holds(HoldersOf(Of(EndOf(map[], cfg, before + [pooled]), key)), AtIdle, conn)
            && Holds(HoldersOf(Of(EndOf(map[], cfg, (before + [sweep]) + [pooled]), key)), AtIdle, conn)
  {
    hide LeadsTo;
    var cfg := Config(1, 1, TIMEOUT_ONE);
    var idle, o := OneIdle(key);
    var connect, pool := Step(Connect(true), 0), Step(PooledShared(3, {}), 2);
    NextStep(idle, cfg, key, o, connect);
    before, sweep, pooled, conn := idle + [At(key, connect)], SweepAll(map[], 2), At(key, pool), Conn(4, true);
    var o1 := o.(connecting := true, guards := map[3 := false], next := 4);
    assert After(o, cfg, connect) == o1;
    NextStep(before, cfg, key, o1, pool);
    RefusedByDeadList(o1, cfg);
    NextSweep(before, cfg, key, o1, 2);
    ExpiredIsSwept(o1.(clock := 2), cfg);
    var o2 := o1.(idle := None, lost := 1, clock := 2);
    assert After(o1, cfg, Step(Sweep({}), 2)) == o2;
    NextStep(before + [sweep], cfg, key, o2, pool);
    StoredWhenSwept(o2, cfg);
    Ends(before + [pooled], cfg, key, After(o1, cfg, pool));
    Ends((before + [sweep]) + [pooled], cfg, key, After(o2, cfg, pool));
  }

  lemma {:induction false} Ends(events: seq<Event>, cfg: Config, key: Key, o: Origin)
    requires LeadsTo(events, cfg, key, o)
    ensures IsRun(map[], cfg, events) && Of(EndOf(map[], cfg, events), key) == o
  {
  }

  lemma {:induction false} RefusedByDeadList(o: Origin, cfg: Config)
    requires o.idle == Some([Idle(Conn(1, false), 0)]) && o.next == 4
    ensures !Holds(HoldersOf(After(o, cfg, Step(PooledShared(3, {}), 2))), AtIdle, Conn(4, true))
  {
    assert List(After(o, cfg, Step(PooledShared(3, {}), 2))) == [Idle(Conn(1, false), 0)];
  }

  lemma {:induction false} StoredWhenSwept(o: Origin, cfg: Config)
    requires IsConfig(cfg) && o.idle.None? && o.waiters.None? && o.next == 4
    ensures Holds(HoldersOf(After(o, cfg, Step(PooledShared(3, {}), 2))), AtIdle, Conn(4, true))
  {
    hide Put;
    var o1 := o.(clock := 2, guards := o.guards - {3}, next := 5);
    StoredAlone(o1, cfg, Conn(4, true), 2);
    var o' := After(o, cfg, Step(PooledShared(3, {}), 2));
    assert List(o')[0].conn == Conn(4, true);
  }

  /** And one for the other case: of two HTTP/1 connections one has expired in a list that holds one. The
      other, given back at time two, is stored if the idle task came first and is closed if it did not. */
  lemma {:induction false} SweepSeenByGiveBack(key: Key) returns (before: seq<Event>, sweep: Event, given: Event, conn: Conn)
    ensures var cfg := Config(1, 2, TIMEOUT_ONE);
            && sweep.SweepAll? && given.At? && given.step.action.DropHandle? && !conn.shared
            && IsRun(map[], cfg, before + [given]) && IsRun(map[], cfg, (before + [sweep]) + [given])
            && !Holds(HoldersOf(Of(EndOf(map[], cfg, before + [given]), key)), AtIdle, conn)
            && Holds(HoldersOf(Of(EndOf(map[], cfg, (before + [sweep]) + [given]), key)), AtIdle, conn)
  {
    hide LeadsTo;
    var cfg := Config(1, 2, TIMEOUT_ONE);
    var o;
    before, o := OneIdleOneOut(key);
    var drop := Step(DropHandle(5, true, {}), 2);
    sweep, given, conn := SweepAll(map[], 2), At(key, drop), Conn(4, false);
    NextStep(before, cfg, key, o, drop);
    RefusedByFullList(o, cfg);
    NextSweep(before, cfg, key, o, 2);
    ExpiredIsSwept(o.(clock := 2), cfg);
    var o2 := o.(idle := None, lost := 1, clock := 2);
    assert After(o, cfg, Step(Sweep({}), 2)) == o2;
    NextStep(before + [sweep], cfg, key, o2, drop);
    StoredInRoom(o2, cfg);
    Ends(before + [given], cfg, key, After(o, cfg, drop));
    Ends((before + [sweep]) + [given], cfg, key, After(o2, cfg, drop));
  }

  lemma {:induction false} OneIdleOneOut(key: Key) returns (events: seq<Event>, o: Origin)
    ensures LeadsTo(events, Config(1, 2, TIMEOUT_ONE), key, o)
    ensures o == Origin(false, Some(2), Some([Idle(Conn(1, false), 0)]), None, map[], map[],
                        map[5 := Handle(Conn(4, false), true, true)], 0, 6, 0)
  {
    hide LeadsTo;
    var cfg := Config(1, 2, TIMEOUT_ONE);
    var h1, h2 := Handle(Conn(1, false), true, true), Handle(Conn(4, false), true, true);
    var dial, s2, s4, s5 := Step(Connect(false), 0), Step(PooledUnique(0), 0), Step(PooledUnique(3), 0), Step(DropHandle(2, true, {}), 0);
    var o1 := Origin(false, Some(1), None, None, map[], map[0 := true], map[], 0, 1, 0);
    var o2 := Origin(false, Some(1), None, None, map[], map[], map[2 := h1], 0, 3, 0);
    var o3 := Origin(false, Some(2), None, None, map[], map[3 := true], map[2 := h1], 0, 4, 0);
    var o4 := Origin(false, Some(2), None, None, map[], map[], map[2 := h1, 5 := h2], 0, 6, 0);
    o := Origin(false, Some(2), Some([Idle(Conn(1, false), 0)]), None, map[], map[], map[5 := h2], 0, 6, 0);
    events := [At(key, dial)];
    FirstStep(cfg, key, dial);
    assert After(FRESH, cfg, dial) == o1;
    NextStep(events, cfg, key, o1, s2);
    events := events + [At(key, s2)];
    assert After(o1, cfg, s2) == o2;
    NextStep(events, cfg, key, o2, dial);
    events := events + [At(key, dial)];
    assert After(o2, cfg, dial) == o3;
    NextStep(events, cfg, key, o3, s4);
    events := events + [At(key, s4)];
    assert After(o3, cfg, s4) == o4;
    NextStep(events, cfg, key, o4, s5);
    events := events + [At(key, s5)];
    StoredAlone(o4.(handles := map[5 := h2]), cfg, Conn(1, false), 0);
    assert o4.handles - {2} == map[5 := h2];
    assert After(o4, cfg, s5) == o;
  }

  lemma {:induction false} RefusedByFullList(o: Origin, cfg: Config)
    requires cfg.maxIdle == 1 && o.idle == Some([Idle(Conn(1, false), 0)]) && o.waiters.None?
    requires 5 in o.handles && o.handles[5] == Handle(Conn(4, false), true, true)
    ensures !Holds(HoldersOf(After(o, cfg, Step(DropHandle(5, true, {}), 2))), AtIdle, Conn(4, false))
  {
    assert Offer([], o.channels, Conn(4, false), {}) == Offered([], o.channels, Some(Conn(4, false)));
    assert List(After(o, cfg, Step(DropHandle(5, true, {}), 2))) == [Idle(Conn(1, false), 0)];
  }

  lemma {:induction false} StoredInRoom(o: Origin, cfg: Config)
    requires IsConfig(cfg) && o.idle.None? && o.waiters.None?
    requires 5 in o.handles && o.handles[5] == Handle(Conn(4, false), true, true)
    ensures Holds(HoldersOf(After(o, cfg, Step(DropHandle(5, true, {}), 2))), AtIdle, Conn(4, false))
  {
    StoredAlone(o.(clock := 2, handles := o.handles - {5}), cfg, Conn(4, false), 2);
    var o' := After(o, cfg, Step(DropHandle(5, true, {}), 2));
    assert List(o')[0].conn == Conn(4, false);
  }

  // ---- Converting an HTTP/1 reservation to HTTP/2 ----

  /** An HTTP/2 establishment starting at this state is granted a guard. */
  predicate IsGranted(o: Origin, cfg: Config, now: nat) {
    After(o, cfg, Step(Connect(true), now)).guards != o.guards
  }

  /** The first lock of a conversion; under one lock the establishment would start right here. */
  function Released(o: Origin, cfg: Config, guard: nat, now: nat): Origin {
    After(o, cfg, Step(AlpnRelease(guard), now))
  }

  /** The conversion takes the lock twice, and any run may come between. It is granted exactly when no
      marker stands at the second lock; under one lock it would be granted exactly when none stands at the
      first. So the two agree exactly when the marker is the same at both. */
  lemma {:induction false} ConversionGranted(
    pool: Pool, cfg: Config, key: Key, guard: nat, now: nat, between: seq<Event>, later: nat)
    requires IsConfig(cfg) && Reachable(pool, cfg)
    requires IsRun(pool, cfg, [At(key, Step(AlpnRelease(guard), now))] + between)
    ensures var o := Of(pool, key);
            var second := Of(EndOf(pool, cfg, [At(key, Step(AlpnRelease(guard), now))] + between), key);
            && (IsGranted(second, cfg, later) <==> !second.connecting)
            && (IsGranted(Released(o, cfg, guard, now), cfg, now) <==> !o.connecting)
            && (IsGranted(second, cfg, later) == IsGranted(Released(o, cfg, guard, now), cfg, now)
                <==> second.connecting == o.connecting)
  {
    hide IsGranted, Sound, After;
    var events := [At(key, Step(AlpnRelease(guard), now))] + between;
    RunsReach(pool, cfg, events);
    ReachableIsSound(EndOf(pool, cfg, events), cfg, key);
    GrantedIff(Of(EndOf(pool, cfg, events), key), cfg, later);
    RunAppend(pool, cfg, [At(key, Step(AlpnRelease(guard), now))], between);
    RunOfOne(pool, cfg, At(key, Step(AlpnRelease(guard), now)));
    ReachableIsSound(pool, cfg, key);
    StepKeeps(Of(pool, key), cfg, Step(AlpnRelease(guard), now));
    GrantedIff(Released(Of(pool, key), cfg, guard, now), cfg, now);
    ReleaseKeepsMarker(Of(pool, key), cfg, guard, now);
  }

  lemma {:induction false} GrantedIff(o: Origin, cfg: Config, now: nat)
    requires Inv(o, cfg)
    ensures IsGranted(o, cfg, now) <==> !o.connecting
  {
    hide Sole, Queued, Shaped, Linked, Balanced, Owned;
    assert o.next !in o.guards;
  }

  lemma {:induction false} ReleaseKeepsMarker(o: Origin, cfg: Config, guard: nat, now: nat)
    ensures Released(o, cfg, guard, now).connecting == o.connecting
  {
  }

  /** Such a run: another establishment takes the marker in between, and the conversion that would have been
      granted is refused. */
  lemma {:induction false} ConversionOvertaken(key: Key) returns (pool: Pool, cfg: Config, between: seq<Event>)
    ensures IsConfig(cfg) && Reachable(pool, cfg)
    ensures var first := At(key, Step(AlpnRelease(0), 0));
            && IsRun(pool, cfg, [first] + between)
            && IsGranted(Released(Of(pool, key), cfg, 0, 0), cfg, 0)
            && !IsGranted(Of(EndOf(pool, cfg, [first] + between), key), cfg, 0)
  {
    cfg := Config(1, 1, None);
    var dial, release, other := Step(Connect(false), 0), Step(AlpnRelease(0), 0), Step(Connect(true), 0);
    FirstStep(cfg, key, dial);
    var o := Origin(false, Some(1), None, None, map[], map[0 := true], map[], 0, 1, 0);
    assert After(FRESH, cfg, dial) == o;
    pool, between := map[key := o], [At(key, other)];
    assert Reachable(pool, cfg);
    var o1 := Origin(false, None, None, None, map[], map[], map[], 0, 1, 0);
    assert After(o, cfg, release) == o1;
    NextStep([At(key, dial)], cfg, key, o, release);
    NextStep([At(key, dial)] + [At(key, release)], cfg, key, o1, other);
    RunAppend(map[], cfg, [At(key, dial)], [At(key, release)] + between);
    Regroup([At(key, dial)], [At(key, release)], between);
    assert Of(EndOf(pool, cfg, [At(key, release)] + between), key) == After(o1, cfg, other);
    ConversionGranted(pool, cfg, key, 0, 0, between, 0);
  }

  // ---- Running out of slots ----

  /** An HTTP/1 establishment is refused exactly when the sockets and the lost connections fill the cap. */
  lemma {:induction false} RefusedIff(pool: Pool, cfg: Config, key: Key, now: nat)
    requires IsConfig(cfg) && Reachable(pool, cfg)
    ensures var o := Of(pool, key);
            After(o, cfg, Step(Connect(false), now)).guards == o.guards <==> Sockets(o) + o.lost == cfg.maxH1
  {
    hide Sole, Queued, Shaped, Linked, Owned, Sockets;
    ReachableIsSound(pool, cfg, key);
    var o := Of(pool, key);
    assert o.next !in o.guards;
  }

  lemma {:induction false} StepNeverFinds(o: Origin, cfg: Config, s: Step)
    ensures After(o, cfg, s).lost >= o.lost
  {
    hide Put, Pop, Keep, Evicted, CleanQueue;
    var o' := o.(clock := s.now);
    match s.action
    case PooledShared(g, gone) =>
      PutLosesNothing(o'.(guards := o.guards - {g}, next := o.next + 1), cfg, Conn(o.next, true), gone, s.now);
    case DropHandle(h, _, gone) =>
      if h in o.handles {
        PutLosesNothing(o'.(handles := o.handles - {h}), cfg, o.handles[h].conn, gone, s.now);
      }
    case _ =>
  }

  lemma {:induction false} PutLosesNothing(o: Origin, cfg: Config, conn: Conn, gone: set<nat>, now: nat)
    ensures Put(o, cfg, conn, gone, now).0.lost == o.lost
  {
    hide Offer;
  }

  /** A connection that is lost stays lost, over every run. */
  lemma {:induction false} LostStaysLost(pool: Pool, cfg: Config, events: seq<Event>, key: Key)
    ensures Of(EndOf(pool, cfg, events), key).lost >= Of(pool, key).lost
    decreases |events|
  {
    hide After;
    if events != [] {
      match events[0] {
        case At(k, step) => StepNeverFinds(Of(pool, k), cfg, step);
        case SweepAll(closed, now) => StepNeverFinds(Of(pool, key), cfg, Step(Sweep(ClosedAt(closed, key)), now));
      }
      LostStaysLost(Next(pool, cfg, events[0]), cfg, events[1..], key);
    }
  }

  /** Each lost connection lowers the cap by one for good: in no later state are there more sockets than the
      cap leaves. */
  lemma {:induction false} LostLowersTheCap(pool: Pool, cfg: Config, key: Key, events: seq<Event>)
    requires IsConfig(cfg) && Reachable(pool, cfg) && IsRun(pool, cfg, events)
    ensures Sockets(Of(EndOf(pool, cfg, events), key)) + Of(pool, key).lost <= cfg.maxH1
  {
    hide Sockets;
    RunsReach(pool, cfg, events);
    LostStaysLost(pool, cfg, events, key);
    AtMostTheCap(EndOf(pool, cfg, events), cfg, key);
  }

  /** Once as many connections of an origin are lost as the cap allows, no run ever opens another for it:
      there is no socket and every reservation is refused. */
  lemma {:induction false} OutOfSlotsForGood(pool: Pool, cfg: Config, key: Key, events: seq<Event>, now: nat)
    requires IsConfig(cfg) && Reachable(pool, cfg) && Of(pool, key).lost == cfg.maxH1
    requires IsRun(pool, cfg, events)
    ensures var o := Of(EndOf(pool, cfg, events), key);
            && Sockets(o) == 0 && o.lost == cfg.maxH1
            && After(o, cfg, Step(Connect(false), now)).guards == o.guards
  {
    hide After, Sockets;
    var end := EndOf(pool, cfg, events);
    RunsReach(pool, cfg, events);
    LostStaysLost(pool, cfg, events, key);
    SlotConservation(end, cfg, key);
    AtMostTheCap(end, cfg, key);
    RefusedIff(end, cfg, key, now);
  }

  lemma {:induction false} AtMostTheCap(pool: Pool, cfg: Config, key: Key)
    requires IsConfig(cfg) && Reachable(pool, cfg)
    ensures Sockets(Of(pool, key)) + Of(pool, key).lost <= cfg.maxH1
  {
    hide Sole, Queued, Shaped, Linked, Owned, Sockets;
    ReachableIsSound(pool, cfg, key);
  }

  /** Such a run: the only connection is closed by its peer while idle, and the next checkout drops it. */
  lemma {:induction false} OutOfSlotsInARun(key: Key) returns (pool: Pool, cfg: Config)
    ensures IsConfig(cfg) && Reachable(pool, cfg) && Of(pool, key).lost == cfg.maxH1 && Sockets(Of(pool, key)) == 0
  {
    hide LeadsTo;
    cfg := Config(1, 1, TIMEOUT_ONE);
    var idle, o := OneIdle(key);
    var checkout := Step(Checkout(false, {1}), 0);
    NextStep(idle, cfg, key, o, checkout);
    var o' := After(o, cfg, checkout);
    PoppedAway(List(o), cfg);
    assert o'.lost == 1;
    pool := map[key := o'];
    Arrives(idle + [At(key, checkout)], cfg, key, o');
    AtMostTheCap(pool, cfg, key);
  }

  lemma {:induction false} Arrives(events: seq<Event>, cfg: Config, key: Key, o: Origin)
    requires LeadsTo(events, cfg, key, o)
    ensures Reachable(map[key := o], cfg)
  {
  }

  lemma {:induction false} PoppedAway(list: seq<Idle>, cfg: Config)
    requires list == [Idle(Conn(1, false), 0)]
    ensures Pop(list, cfg, {1}, 0) == Popped([], None, 1)
  {
    assert list[..0] == [] && Pop([], cfg, {1}, 0) == Popped([], None, 0);
  }
}
