/** Whole runs of the pool over any number of origins, and what a caller can and cannot notice. */
module PoolRuns {
  import opened Octets
  import opened Origins
  import opened PoolInvariant

  datatype Key = Key(origin: string)

  /** Origins that were never touched are fresh. */
  type Pool = map<Key, Origin>

  datatype Event =
    | At(key: Key, step: Step)
    | SweepAll(closed: map<Key, set<nat>>, now: nat)

  function Of(pool: Pool, key: Key): Origin {
    if key in pool then pool[key] else FRESH
  }

  function ClosedAt(closed: map<Key, set<nat>>, key: Key): set<nat> {
    if key in closed then closed[key] else {}
  }

  /** The idle task visits the whole table under one lock; any other critical section touches only
      the entries of its key. */
  predicate May(pool: Pool, cfg: Config, e: Event) {
    match e
    case At(key, step) => Enabled(Of(pool, key), cfg, step)
    case SweepAll(closed, now) => forall key :: key in pool ==> Enabled(pool[key], cfg, Step(Sweep(ClosedAt(closed, key)), now))
  }

  function Next(pool: Pool, cfg: Config, e: Event): Pool {
    match e
    case At(key, step) => pool[key := After(Of(pool, key), cfg, step)]
    case SweepAll(closed, now) => map key | key in pool :: After(pool[key], cfg, Step(Sweep(ClosedAt(closed, key)), now))
  }

  predicate IsRun(pool: Pool, cfg: Config, events: seq<Event>)
    decreases |events|
  {
    events != [] ==> May(pool, cfg, events[0]) && IsRun(Next(pool, cfg, events[0]), cfg, events[1..])
  }

  function EndOf(pool: Pool, cfg: Config, events: seq<Event>): Pool
    decreases |events|
  {
    if events == [] then pool else EndOf(Next(pool, cfg, events[0]), cfg, events[1..])
  }

  lemma {:induction false} FreshIsSound(cfg: Config)
    requires IsConfig(cfg)
    ensures Inv(FRESH, cfg)
  {
  }

  lemma {:induction false} NextKeeps(pool: Pool, cfg: Config, e: Event, key: Key)
    requires IsConfig(cfg) && May(pool, cfg, e)
    requires forall k :: k in pool ==> Inv(pool[k], cfg)
    ensures key in Next(pool, cfg, e) ==> Inv(Next(pool, cfg, e)[key], cfg)
  {
    hide Inv;
    FreshIsSound(cfg);
    match e
    case At(k, step) =>
      StepKeeps(Of(pool, k), cfg, step);
    case SweepAll(closed, now) =>
      if key in pool {
        StepKeeps(pool[key], cfg, Step(Sweep(ClosedAt(closed, key)), now));
      }
  }

  /** In every state of every run of the whole pool, every origin satisfies the invariant. */
  lemma {:induction false} RunKeeps(pool: Pool, cfg: Config, events: seq<Event>)
    requires IsConfig(cfg) && IsRun(pool, cfg, events)
    requires forall key :: key in pool ==> Inv(pool[key], cfg)
    ensures forall key :: key in EndOf(pool, cfg, events) ==> Inv(EndOf(pool, cfg, events)[key], cfg)
    decreases |events|
  {
    hide Inv, Next, May;
    if events != [] {
      var pool' := Next(pool, cfg, events[0]);
      forall key | key in pool' ensures Inv(pool'[key], cfg) {
        NextKeeps(pool, cfg, events[0], key);
      }
      RunKeeps(pool', cfg, events[1..]);
    }
  }

  lemma {:induction false} RunAppend(pool: Pool, cfg: Config, a: seq<Event>, b: seq<Event>)
    ensures IsRun(pool, cfg, a + b) <==> IsRun(pool, cfg, a) && IsRun(EndOf(pool, cfg, a), cfg, b)
    ensures EndOf(pool, cfg, a + b) == EndOf(EndOf(pool, cfg, a), cfg, b)
    decreases |a|
  {
    hide Next, May;
    if a == [] {
      assert a + b == b;
    } else {
      assert (a + b)[0] == a[0] && (a + b)[1..] == a[1..] + b;
      RunAppend(Next(pool, cfg, a[0]), cfg, a[1..], b);
    }
  }

  lemma {:induction false} RunOfOne(pool: Pool, cfg: Config, e: Event)
    ensures IsRun(pool, cfg, [e]) <==> May(pool, cfg, e)
    ensures EndOf(pool, cfg, [e]) == Next(pool, cfg, e)
  {
    hide Next, May;
    assert [e][1..] == [];
  }

  ghost predicate Reachable(pool: Pool, cfg: Config) {
    exists events :: IsRun(map[], cfg, events) && pool == EndOf(map[], cfg, events)
  }

  lemma {:induction false} ReachableIsSound(pool: Pool, cfg: Config, key: Key)
    requires IsConfig(cfg) && Reachable(pool, cfg)
    ensures Inv(Of(pool, key), cfg)
  {
    var events :| IsRun(map[], cfg, events) && pool == EndOf(map[], cfg, events);
    RunKeeps(map[], cfg, events);
    FreshIsSound(cfg);
  }

  lemma {:induction false} RunsReach(pool: Pool, cfg: Config, events: seq<Event>)
    requires Reachable(pool, cfg) && IsRun(pool, cfg, events)
    ensures Reachable(EndOf(pool, cfg, events), cfg)
  {
    var before :| IsRun(map[], cfg, before) && pool == EndOf(map[], cfg, before);
    RunAppend(map[], cfg, before, events);
  }

  // ---- What the invariant means ----

  /** The counter is the sockets plus what was lost, so open HTTP/1 sockets never exceed the cap. */
  lemma {:induction false} SlotConservation(pool: Pool, cfg: Config, key: Key)
    requires IsConfig(cfg) && Reachable(pool, cfg)
    ensures var o := Of(pool, key);
            Slots(o) == Sockets(o) + o.lost && Sockets(o) <= cfg.maxH1
  {
    hide Sole, Queued, Shaped, Linked, Owned;
    ReachableIsSound(pool, cfg, key);
  }

  /** The whole pool's holders of a connection: its origin's key is part of its identity. */
  predicate HeldBy(pool: Pool, key: Key, p: Place, c: Conn) {
    key in pool && Holds(HoldersOf(pool[key]), p, c)
  }

  /** No HTTP/1 connection is in two places of the pool: never two requests on it, never a request
      on it while it is idle or on its way to a waiter, never twice in an idle list. */
  lemma {:induction false} UniqueOwnership(pool: Pool, cfg: Config, key: Key, p: Place, q: Place, c: Conn)
    requires IsConfig(cfg) && Reachable(pool, cfg)
    requires HeldBy(pool, key, p, c) && HeldBy(pool, key, q, c) && !c.shared
    ensures p == q
    ensures p.AtIdle? ==> exists i :: 0 <= i < |List(pool[key])| && List(pool[key])[i].conn == c
                                      && forall j :: 0 <= j < |List(pool[key])| && List(pool[key])[j].conn == c ==> j == i
  {
    ReachableIsSound(pool, cfg, key);
    assert Sole(HoldersOf(pool[key]), pool[key].next);
    if p.AtIdle? {
      var list := List(pool[key]);
      var i :| 0 <= i < |list| && list[i].conn == c;
      assert IsIdleList(list, pool[key].clock);
    }
  }

  /** The marker stands exactly while one armed HTTP/2 guard is alive. */
  lemma {:induction false} SingleH2Owner(pool: Pool, cfg: Config, key: Key)
    requires IsConfig(cfg) && Reachable(pool, cfg)
    ensures var o := Of(pool, key);
            && (o.connecting <==> exists g :: g in o.guards && !o.guards[g])
            && forall g, h :: g in o.guards && h in o.guards && !o.guards[g] && !o.guards[h] ==> g == h
  {
    hide Sole, Queued, Shaped, Linked, Balanced;
    ReachableIsSound(pool, cfg, key);
    var o := Of(pool, key);
    var owners := H2Guards(o.guards);
    if o.connecting {
      var g :| g in owners;
      assert |owners - {g}| == 0;
      assert forall h :: h in o.guards && !o.guards[h] ==> h in owners;
    } else {
      assert forall h :: h in o.guards && !o.guards[h] ==> h in owners;
    }
  }

  /** When the marker goes, by success or by cancellation, nobody is left parked: each waiter that was
      queued has a connection or has lost its sender, or no longer listens. */
  lemma {:induction false} MarkerRemovalWakes(o: Origin, cfg: Config, s: Step)
    requires Inv(o, cfg) && Enabled(o, cfg, s) && o.connecting && !After(o, cfg, s).connecting
    ensures var o' := After(o, cfg, s);
            o'.waiters.None? && forall w :: w in o'.channels ==> !o'.channels[w].Waiting?
  {
    hide Sound, After;
    var o' := After(o, cfg, s);
    StepKeeps(o, cfg, s);
    SoundQueue(o', cfg, 0);
    RemovalDropsSenders(o, cfg, s);
  }

  lemma {:induction false} RemovalDropsSenders(o: Origin, cfg: Config, s: Step)
    requires o.connecting && !After(o, cfg, s).connecting
    ensures After(o, cfg, s).waiters.None?
  {
    hide Put, Pop, Keep, CleanQueue, Evicted;
    if s.action.DropHandle? && s.action.handle in o.handles {
      var h := s.action.handle;
      PutKeepsMarker(o.(clock := s.now, handles := o.handles - {h}), cfg, o.handles[h].conn, s.action.gone, s.now);
    }
  }

  lemma {:induction false} PutKeepsMarker(o: Origin, cfg: Config, conn: Conn, gone: set<nat>, now: nat)
    ensures Put(o, cfg, conn, gone, now).0.connecting == o.connecting
  {
    hide Offer;
  }

  lemma {:induction false} SoundQueue(o: Origin, cfg: Config, held: nat)
    requires Sound(o, cfg, held)
    ensures Queued(Queue(o), o.channels)
  {
  }

  /** Idle lists are ordered by age, so a list whose newest entry has expired is expired throughout. */
  lemma {:induction false} ExpiredTop(pool: Pool, cfg: Config, key: Key, now: nat, i: nat)
    requires IsConfig(cfg) && Reachable(pool, cfg) && cfg.timeout.Some?
    requires var list := List(Of(pool, key));
             i < |list| && now > list[|list| - 1].idleAt + cfg.timeout.value
    ensures now > List(Of(pool, key))[i].idleAt + cfg.timeout.value
  {
    ReachableIsSound(pool, cfg, key);
    var o := Of(pool, key);
    assert IsIdleList(List(o), o.clock);
  }

  lemma {:induction false} IdleListShape(pool: Pool, cfg: Config, key: Key)
    requires IsConfig(cfg) && Reachable(pool, cfg) && Of(pool, key).idle.Some?
    ensures var list := Of(pool, key).idle.value;
            && 0 < |list| <= cfg.maxIdle
            && (forall i, j :: 0 <= i < j < |list| ==> list[i].idleAt <= list[j].idleAt)
            && (forall i :: 0 <= i < |list| && list[i].conn.shared ==> i == 0)
  {
    hide Sole, Queued, Linked, Balanced, Owned;
    ReachableIsSound(pool, cfg, key);
  }

  // ---- The idle sweep ----

  /** A checkout: what it sees closed, when it looks, and whether its caller is already queued. */
  datatype Look = Look(closed: set<nat>, now: nat, hasWaiter: bool)

  /** Time passes, and what has closed stays closed. */
  predicate Later(a: Look, b: Look) {
    a.closed <= b.closed && a.now <= b.now
  }

  predicate Forward(start: Look, looks: seq<Look>)
    decreases |looks|
  {
    looks != [] ==> Later(start, looks[0]) && Forward(looks[0], looks[1..])
  }

  /** What a sequence of checkouts is given from the idle list. */
  function Given(o: Origin, cfg: Config, looks: seq<Look>): seq<Option<Conn>>
    decreases |looks|
  {
    if looks == [] then []
    else
      var look := looks[0];
      [Pop(List(o), cfg, look.closed, look.now).conn]
      + Given(CheckOut(o, cfg, look.hasWaiter, look.closed, look.now), cfg, looks[1..])
  }

  function Live(list: seq<Idle>, cfg: Config, look: Look): seq<Idle> {
    Keep(list, cfg, look.closed, look.now)
  }

  lemma {:induction false} LiveLater(list: seq<Idle>, cfg: Config, a: Look, b: Look)
    requires Later(a, b)
    ensures Live(Live(list, cfg, a), cfg, b) == Live(list, cfg, b)
  {
    if list != [] {
      var top, rest := list[|list| - 1], list[..|list| - 1];
      LiveLater(rest, cfg, a, b);
      var kept := Live(rest, cfg, a);
      if !IsDead(top, cfg, a.closed, a.now) {
        assert (kept + [top])[..|kept|] == kept;
      } else {
        assert kept + [] == kept;
        assert Live(rest, cfg, b) + [] == Live(rest, cfg, b);
      }
    }
  }

  /** A checkout sees only the live part of the list, and leaves a list whose live part depends only
      on that. */
  lemma {:induction false} PopSeesLive(list: seq<Idle>, cfg: Config, look: Look)
    ensures var live := Live(list, cfg, look);
            var p := Pop(list, cfg, look.closed, look.now);
            if live == [] then p.conn == None && Live(p.list, cfg, look) == []
            else
              var conn := live[|live| - 1].conn;
              p.conn == Some(conn)
              && Live(p.list, cfg, look) == live[..|live| - 1] + if conn.shared then [Idle(conn, look.now)] else []
  {
    if list != [] {
      var top, rest := list[|list| - 1], list[..|list| - 1];
      var kept := Live(rest, cfg, look);
      if IsDead(top, cfg, look.closed, look.now) {
        PopSeesLive(rest, cfg, look);
        assert kept + [] == kept;
      } else {
        assert (kept + [top])[..|kept|] == kept;
        assert kept + [] == kept;
        var entry := Idle(top.conn, look.now);
        assert (rest + [entry])[..|rest|] == rest;
      }
    }
  }

  lemma {:induction false} SameLiveSameGiven(o: Origin, o': Origin, cfg: Config, start: Look, looks: seq<Look>)
    requires Live(List(o), cfg, start) == Live(List(o'), cfg, start) && Forward(start, looks)
    ensures Given(o, cfg, looks) == Given(o', cfg, looks)
    decreases |looks|
  {
    if looks != [] {
      var look := looks[0];
      LiveLater(List(o), cfg, start, look);
      LiveLater(List(o'), cfg, start, look);
      PopSeesLive(List(o), cfg, look);
      PopSeesLive(List(o'), cfg, look);
      var a, b := CheckOut(o, cfg, look.hasWaiter, look.closed, look.now), CheckOut(o', cfg, look.hasWaiter, look.closed, look.now);
      CheckOutList(o, cfg, look);
      CheckOutList(o', cfg, look);
      SameLiveSameGiven(a, b, cfg, look, looks[1..]);
    }
  }

  lemma {:induction false} CheckOutList(o: Origin, cfg: Config, look: Look)
    ensures List(CheckOut(o, cfg, look.hasWaiter, look.closed, look.now)) == Pop(List(o), cfg, look.closed, look.now).list
  {
  }

  /** No sequence of checkouts, now or later, can tell whether the idle task ran. */
  lemma {:induction false} SweepUnobservable(o: Origin, cfg: Config, at: Look, looks: seq<Look>)
    requires Forward(at, looks)
    ensures Given(SweepIdle(o, cfg, at.closed, at.now), cfg, looks) == Given(o, cfg, looks)
  {
    LiveLater(List(o), cfg, at, at);
    SameLiveSameGiven(SweepIdle(o, cfg, at.closed, at.now), o, cfg, at, looks);
  }
}
