/** The server's accept loop: drivers are spawned, told to shut down, and reaped. The plain and the TLS
    loop have the same transitions. */
module Lifecycle {
  import opened Octets

  /** A tracked driver, and whether the sender of its shutdown signal is still unused. */
  datatype Active = Active(driver: nat, armed: bool)

  datatype Phase = Serving | Draining | Returned(ok: bool)

  /** Drivers are numbered as they are spawned; `done` are those that have reported completion,
      `reaped` those whose report the loop has seen, `signals` the shutdown signals sent, in order. */
  datatype State = State(
    active: seq<Active>, accepting: bool, phase: Phase,
    spawned: nat, done: set<nat>, reaped: set<nat>, signals: seq<nat>)

  const START := State([], true, Serving, 0, {}, {}, [])

  datatype Event = Finish(driver: nat) | Shutdown | Accepted | AcceptError | Done(index: nat)

  function SwapRemove(s: seq<Active>, i: nat): (r: seq<Active>)
    requires i < |s|
    ensures |r| == |s| - 1
  {
    var last := |s| - 1;
    if i == last then s[..i] else s[..last][i := s[last]]
  }

  function ArmedDrivers(active: seq<Active>): seq<nat> {
    if active == [] then []
    else ArmedDrivers(active[..|active| - 1]) + if active[|active| - 1].armed then [active[|active| - 1].driver] else []
  }

  function Disarmed(active: seq<Active>): seq<Active> {
    seq(|active|, i requires 0 <= i < |active| => active[i].(armed := false))
  }

  function SignalAll(s: State): State {
    s.(active := Disarmed(s.active), signals := s.signals + ArmedDrivers(s.active))
  }

  /** The loop's own exits: its condition while serving, the emptied list while draining. */
  function Settle(s: State): State {
    if s.active != [] || (s.accepting && s.phase.Serving?) then s
    else if s.phase.Serving? then s.(phase := Returned(true))
    else if s.phase.Draining? then s.(phase := Returned(false))
    else s
  }

  predicate Enabled(s: State, e: Event) {
    match e
    case Finish(d) => d < s.spawned && d !in s.done
    case Done(i) => !s.phase.Returned? && i < |s.active| && s.active[i].driver in s.done
    case _ => s.phase.Serving? && s.accepting
  }

  function After(s: State, limit: Option<nat>, e: Event): State
    requires Enabled(s, e)
  {
    match e
    case Finish(d) => s.(done := s.done + {d})
    case Shutdown => Settle(SignalAll(s.(accepting := false)))
    case Accepted =>
      if limit.Some? && |s.active| >= limit.value then s
      else s.(active := s.active + [Active(s.spawned, true)], spawned := s.spawned + 1)
    case AcceptError => Settle(SignalAll(s.(phase := Draining)))
    case Done(i) => Settle(s.(active := SwapRemove(s.active, i), reaped := s.reaped + {s.active[i].driver}))
  }

  // ---- The invariant ----

  predicate Tracks(active: seq<Active>, d: nat) {
    exists i :: 0 <= i < |active| && active[i].driver == d
  }

  predicate Stopped(s: State) {
    !s.accepting || !s.phase.Serving?
  }

  ghost predicate Inv(s: State, limit: Option<nat>) {
    && (forall i, j :: 0 <= i < j < |s.active| ==> s.active[i].driver != s.active[j].driver)
    && (forall d: nat :: d < s.spawned <==> Tracks(s.active, d) || d in s.reaped)
    && (forall d: nat :: d in s.reaped ==> !Tracks(s.active, d) && d in s.done)
    && (limit.Some? ==> |s.active| <= limit.value)
    && (forall i :: 0 <= i < |s.active| ==> s.active[i].armed == !Stopped(s))
    && (!Stopped(s) ==> s.signals == [])
    && (forall i, j :: 0 <= i < j < |s.signals| ==> s.signals[i] != s.signals[j])
    && (forall d :: d in s.signals ==> d < s.spawned)
    && (s.phase.Returned? ==> s.active == [])
    && (Stopped(s) && s.active == [] ==> s.phase.Returned?)
  }

  lemma {:induction false} AllArmed(active: seq<Active>)
    requires forall i :: 0 <= i < |active| ==> active[i].armed
    ensures |ArmedDrivers(active)| == |active|
    ensures forall i :: 0 <= i < |active| ==> ArmedDrivers(active)[i] == active[i].driver
  {
    if active != [] {
      AllArmed(active[..|active| - 1]);
    }
  }

  lemma {:induction false} SwapRemoveKeeps(s: seq<Active>, i: nat)
    requires i < |s| && forall j, k :: 0 <= j < k < |s| ==> s[j].driver != s[k].driver
    ensures var r := SwapRemove(s, i);
            && |r| == |s| - 1
            && (forall j, k :: 0 <= j < k < |r| ==> r[j].driver != r[k].driver)
            && (forall j :: 0 <= j < |r| ==> r[j] in s)
            && (forall d :: Tracks(r, d) <==> Tracks(s, d) && d != s[i].driver)
  {
    var r, last := SwapRemove(s, i), |s| - 1;
    forall d ensures Tracks(r, d) <==> Tracks(s, d) && d != s[i].driver {
      if j :| 0 <= j < |s| && s[j].driver == d && j != i {
        assert r[if j == last then i else j].driver == d;
      }
    }
  }

  /** Signalling changes no driver's place and reaches each exactly once. */
  lemma {:induction false} SignalFacts(s: State, limit: Option<nat>)
    requires Inv(s, limit) && !Stopped(s)
    ensures var t := SignalAll(s);
            && |t.active| == |s.active| == |t.signals|
            && (forall i :: 0 <= i < |s.active| ==> t.active[i] == Active(s.active[i].driver, false))
            && (forall i :: 0 <= i < |s.active| ==> t.signals[i] == s.active[i].driver < s.spawned)
  {
    AllArmed(s.active);
    ActiveAreSpawned(s, limit);
    hide ArmedDrivers, Tracks;
    assert SignalAll(s).signals == ArmedDrivers(s.active);
  }

  lemma {:induction false} ActiveAreSpawned(s: State, limit: Option<nat>)
    requires Inv(s, limit)
    ensures forall i :: 0 <= i < |s.active| ==> s.active[i].driver < s.spawned
  {
    forall i | 0 <= i < |s.active| ensures s.active[i].driver < s.spawned {
      assert Tracks(s.active, s.active[i].driver);
    }
  }

  lemma {:induction false} SameTracks(a: seq<Active>, b: seq<Active>, d: nat)
    requires |a| == |b| && forall i :: 0 <= i < |a| ==> a[i].driver == b[i].driver
    ensures Tracks(a, d) == Tracks(b, d)
  {
  }

  lemma {:induction false} StopKeeps(s: State, limit: Option<nat>, e: Event)
    requires Inv(s, limit) && Enabled(s, e) && (e.Shutdown? || e.AcceptError?)
    ensures Inv(After(s, limit, e), limit)
  {
    SignalFacts(s, limit);
    hide Tracks;
    var t, s' := SignalAll(s), After(s, limit, e);
    assert s'.active == t.active && s'.signals == t.signals && s'.spawned == s.spawned && s'.reaped == s.reaped;
    assert s'.done == s.done && Stopped(s') && (s'.phase.Returned? <==> s'.active == []);
    forall d: nat ensures Tracks(s'.active, d) == Tracks(s.active, d) {
      SameTracks(s'.active, s.active, d);
    }
    hide SignalAll, After;
  }

  lemma {:induction false} AcceptKeeps(s: State, limit: Option<nat>)
    requires Inv(s, limit) && Enabled(s, Accepted)
    ensures Inv(After(s, limit, Accepted), limit)
  {
    var s' := After(s, limit, Accepted);
    if s' != s {
      forall d: nat ensures Tracks(s'.active, d) <==> Tracks(s.active, d) || d == s.spawned {
        assert s'.active[|s.active|].driver == s.spawned;
        if i :| 0 <= i < |s.active| && s.active[i].driver == d {
          assert s'.active[i].driver == d;
        }
      }
      ActiveAreSpawned(s, limit);
    }
  }

  /** Every event keeps the invariant. */
  lemma {:induction false} EventKeeps(s: State, limit: Option<nat>, e: Event)
    requires Inv(s, limit) && Enabled(s, e)
    ensures Inv(After(s, limit, e), limit)
  {
    hide SwapRemove, Tracks, ArmedDrivers, Disarmed;
    match e
    case Finish(_) =>
    case Shutdown => StopKeeps(s, limit, e);
    case AcceptError => StopKeeps(s, limit, e);
    case Accepted => AcceptKeeps(s, limit);
    case Done(i) => DoneKeeps(s, limit, i);
  }

  lemma {:induction false} DoneKeeps(s: State, limit: Option<nat>, i: nat)
    requires Inv(s, limit) && Enabled(s, Done(i))
    ensures Inv(After(s, limit, Done(i)), limit)
  {
    SwapRemoveKeeps(s.active, i);
    assert Tracks(s.active, s.active[i].driver);
    hide SwapRemove, Tracks;
  }

  // ---- Whole runs ----

  predicate IsRun(s: State, limit: Option<nat>, events: seq<Event>)
    decreases |events|
  {
    events != [] ==> Enabled(s, events[0]) && IsRun(After(s, limit, events[0]), limit, events[1..])
  }

  function EndOf(s: State, limit: Option<nat>, events: seq<Event>): State
    requires IsRun(s, limit, events)
    decreases |events|
  {
    if events == [] then s else EndOf(After(s, limit, events[0]), limit, events[1..])
  }

  /** In every state of every run: the spawned drivers are the disjoint union of the active and the
      finished ones, the limit holds, no driver is signalled twice, and the loop has returned only if
      every driver has completed. */
  lemma {:induction false} RunsAreSafe(s: State, limit: Option<nat>, events: seq<Event>)
    requires Inv(s, limit) && IsRun(s, limit, events)
    ensures Inv(EndOf(s, limit, events), limit)
    ensures var end := EndOf(s, limit, events);
            && (end.phase.Returned? ==> forall d: nat :: d < end.spawned ==> d in end.done)
            && (limit.Some? ==> |end.active| <= limit.value)
    decreases |events|
  {
    hide Inv, After, Enabled;
    if events != [] {
      EventKeeps(s, limit, events[0]);
      RunsAreSafe(After(s, limit, events[0]), limit, events[1..]);
    } else {
      Meaning(s, limit);
    }
  }

  lemma {:induction false} Meaning(s: State, limit: Option<nat>)
    requires Inv(s, limit)
    ensures s.phase.Returned? ==> forall d: nat :: d < s.spawned ==> d in s.done
    ensures limit.Some? ==> |s.active| <= limit.value
  {
    if s.phase.Returned? {
      AllReaped(s, limit);
    }
  }

  lemma {:induction false} StartIsSafe(limit: Option<nat>)
    ensures Inv(START, limit)
  {
  }

  /** Once stopped, by shutdown or by an accept error, a run spawns nothing and signals nobody, and
      every event of the loop itself makes the list of active drivers shorter. */
  lemma {:induction false} AfterStop(s: State, limit: Option<nat>, events: seq<Event>)
    requires Inv(s, limit) && Stopped(s) && IsRun(s, limit, events)
    ensures var end := EndOf(s, limit, events);
            Stopped(end) && end.spawned == s.spawned && end.signals == s.signals
    ensures |EndOf(s, limit, events).active| == |s.active| - LoopEvents(events)
    decreases |events|
  {
    if events != [] {
      EventKeeps(s, limit, events[0]);
      StoppedStep(s, limit, events[0]);
      hide Inv, After, Enabled, Stopped;
      AfterStop(After(s, limit, events[0]), limit, events[1..]);
    }
  }

  lemma {:induction false} StoppedStep(s: State, limit: Option<nat>, e: Event)
    requires Stopped(s) && Enabled(s, e)
    ensures var s' := After(s, limit, e);
            && Stopped(s') && s'.spawned == s.spawned && s'.signals == s.signals
            && |s'.active| == |s.active| - if e.Finish? then 0 else 1
  {
    hide SwapRemove, ArmedDrivers, Disarmed;
  }

  function LoopEvents(events: seq<Event>): nat {
    if events == [] then 0 else (if events[0].Finish? then 0 else 1) + LoopEvents(events[1..])
  }

  /** The event that stops the loop sends one signal to each driver active at that moment, in order,
      and none to others; by `AfterStop` none follow. */
  lemma {:induction false} StopSignalsEachOnce(s: State, limit: Option<nat>, e: Event)
    requires Inv(s, limit) && Enabled(s, e) && (e.Shutdown? || e.AcceptError?)
    ensures var s' := After(s, limit, e);
            && Stopped(s') && |s'.signals| == |s.active|
            && (forall i :: 0 <= i < |s.active| ==> s'.signals[i] == s.active[i].driver)
            && (forall i, j :: 0 <= i < j < |s'.signals| ==> s'.signals[i] != s'.signals[j])
  {
    SignalFacts(s, limit);
    hide ArmedDrivers, Disarmed, Tracks;
    assert After(s, limit, e).signals == SignalAll(s).signals;
  }

  // ---- The order of polling ----

  /** What the futures answer when they are polled: whether shutdown was asked for, and whether an accept
      has finished, and how. */
  datatype Ready = Ready(shutdown: bool, accept: Option<bool>)

  /** The lowest index of an entry whose driver has completed. */
  function FirstDone(active: seq<Active>, done: set<nat>): (r: Option<nat>)
    ensures r.Some? ==> r.value < |active| && active[r.value].driver in done
    ensures forall i :: 0 <= i < (if r.Some? then r.value else |active|) ==> active[i].driver !in done
  {
    if active == [] then None
    else if active[0].driver in done then Some(0)
    else Ahead(1, FirstDone(active[1..], done))
  }

  function Ahead(n: nat, r: Option<nat>): Option<nat> {
    if r.Some? then Some(n + r.value) else None
  }

  /** Shutdown first, then the completed drivers, then the listener; while draining, only the drivers. */
  function Polled(s: State, ready: Ready): (e: Option<Event>)
    ensures e.Some? ==> Enabled(s, e.value)
  {
    var serving := s.phase.Serving? && s.accepting;
    if s.phase.Returned? then None
    else if serving && ready.shutdown then Some(Shutdown)
    else
      match FirstDone(s.active, s.done)
      case Some(i) => Some(Done(i))
      case None =>
        if serving && ready.accept.Some? then Some(if ready.accept.value then Accepted else AcceptError) else None
  }

  /** The loop polls, and drivers complete in between. */
  datatype Tick = Poll(ready: Ready) | Completes(driver: nat)

  function EventOf(s: State, tick: Tick): (e: Option<Event>)
    ensures e.Some? ==> Enabled(s, e.value)
  {
    match tick
    case Poll(ready) => Polled(s, ready)
    case Completes(d) => if d < s.spawned && d !in s.done then Some(Finish(d)) else None
  }

  /** The events that the ticks give rise to. */
  function Picked(s: State, limit: Option<nat>, ticks: seq<Tick>): seq<Event>
    decreases |ticks|
  {
    if ticks == [] then []
    else
      match EventOf(s, ticks[0])
      case None => Picked(s, limit, ticks[1..])
      case Some(e) => [e] + Picked(After(s, limit, e), limit, ticks[1..])
  }

  lemma {:induction false} PickedIsRun(s: State, limit: Option<nat>, ticks: seq<Tick>)
    ensures IsRun(s, limit, Picked(s, limit, ticks))
    decreases |ticks|
  {
    hide After, Enabled, EventOf;
    if ticks != [] {
      match EventOf(s, ticks[0]) {
        case None => PickedIsRun(s, limit, ticks[1..]);
        case Some(e) =>
          var rest := Picked(After(s, limit, e), limit, ticks[1..]);
          assert ([e] + rest)[1..] == rest;
          PickedIsRun(After(s, limit, e), limit, ticks[1..]);
      }
    }
  }

  /** One tick of the rest of a run. */
  lemma {:induction false} PickedStep(s: State, limit: Option<nat>, ticks: seq<Tick>, i: nat)
    requires i < |ticks|
    ensures var rest, e := Picked(s, limit, ticks[i..]), EventOf(s, ticks[i]);
            var s' := if e.Some? then After(s, limit, e.value) else s;
            var more := Picked(s', limit, ticks[i + 1..]);
            && IsRun(s, limit, rest) && IsRun(s', limit, more)
            && EndOf(s, limit, rest) == EndOf(s', limit, more)
  {
    hide After, Enabled, EventOf;
    PickedIsRun(s, limit, ticks[i..]);
    assert ticks[i..][0] == ticks[i] && ticks[i..][1..] == ticks[i + 1..];
    var e := EventOf(s, ticks[i]);
    if e.Some? {
      var more := Picked(After(s, limit, e.value), limit, ticks[i + 1..]);
      PickedIsRun(After(s, limit, e.value), limit, ticks[i + 1..]);
      assert ([e.value] + more)[1..] == more;
    } else {
      PickedIsRun(s, limit, ticks[i + 1..]);
    }
  }

  /** Finished drivers never count against the limit: a connection is turned away only while as many
      drivers as the limit allows are still running. */
  lemma {:induction false} TurnedAwayOnlyWhenFull(s: State, limit: Option<nat>, ready: Ready)
    requires Inv(s, limit) && Polled(s, ready) == Some(Accepted) && After(s, limit, Accepted) == s
    ensures limit.Some? && |s.active| == limit.value
    ensures forall i :: 0 <= i < |s.active| ==> s.active[i].driver < s.spawned && s.active[i].driver !in s.done
  {
    ActiveAreSpawned(s, limit);
  }

  /** Shutdown cannot be overtaken: from the poll that finds it on, whatever else is ready and whatever
      happens later, nothing more is spawned. */
  lemma {:induction false} ShutdownWins(s: State, limit: Option<nat>, ready: Ready, ticks: seq<Tick>)
    requires Inv(s, limit) && s.phase.Serving? && s.accepting && ready.shutdown
    ensures var picked := Picked(s, limit, [Poll(ready)] + ticks);
            IsRun(s, limit, picked) && EndOf(s, limit, picked).spawned == s.spawned
  {
    var s', all := After(s, limit, Shutdown), [Poll(ready)] + ticks;
    var rest := Picked(s', limit, ticks);
    PickedIsRun(s, limit, all);
    PickedIsRun(s', limit, ticks);
    assert all[1..] == ticks && Picked(s, limit, all) == [Shutdown] + rest;
    assert ([Shutdown] + rest)[1..] == rest;
    EventKeeps(s, limit, Shutdown);
    AfterStop(s', limit, rest);
  }

  /** The state after one poll. */
  function AfterPoll(s: State, limit: Option<nat>, ready: Ready): State {
    var e := Polled(s, ready);
    if e.Some? then After(s, limit, e.value) else s
  }

  predicate IsServing(s: State) {
    s.phase.Serving? && s.accepting
  }

  predicate NoneDone(s: State) {
    forall i :: 0 <= i < |s.active| ==> s.active[i].driver !in s.done
  }

  /** A poll that finds a connection, and neither shutdown nor a completed driver, spawns its driver unless the
      limit is reached; then it changes nothing. */
  lemma {:induction false} AcceptedSpawns(s: State, limit: Option<nat>, ready: Ready)
    requires IsServing(s) && NoneDone(s) && !ready.shutdown && ready.accept == Some(true)
    ensures AfterPoll(s, limit, ready) ==
            if limit.Some? && |s.active| >= limit.value then s
            else s.(active := s.active + [Active(s.spawned, true)], spawned := s.spawned + 1)
  {
  }

  /** One that finds an accept error ends the serving: every active driver is signalled, and the loop drains, or
      returns the error if there is none. */
  lemma {:induction false} AcceptErrorDrains(s: State, limit: Option<nat>, ready: Ready)
    requires Inv(s, limit) && IsServing(s) && NoneDone(s) && !ready.shutdown && ready.accept == Some(false)
    ensures var s' := AfterPoll(s, limit, ready);
            && s'.phase == (if s.active == [] then Returned(false) else Draining) && s'.spawned == s.spawned
            && |s'.active| == |s.active| == |s'.signals|
            && forall i :: 0 <= i < |s.active| ==> s'.active[i] == Active(s.active[i].driver, false) && s'.signals[i] == s.active[i].driver
  {
    SignalFacts(s, limit);
    hide ArmedDrivers, Disarmed, Inv;
  }

  /** One that finds shutdown stops accepting: every active driver is signalled, and the loop goes on without
      accepting, or returns at once if there is none. */
  lemma {:induction false} ShutdownStops(s: State, limit: Option<nat>, ready: Ready)
    requires Inv(s, limit) && IsServing(s) && ready.shutdown
    ensures var s' := AfterPoll(s, limit, ready);
            && !s'.accepting && s'.phase == (if s.active == [] then Returned(true) else Serving) && s'.spawned == s.spawned
            && |s'.active| == |s.active| == |s'.signals|
            && forall i :: 0 <= i < |s.active| ==> s'.active[i] == Active(s.active[i].driver, false) && s'.signals[i] == s.active[i].driver
  {
    SignalFacts(s, limit);
    hide ArmedDrivers, Disarmed, Inv;
  }

  /** One that finds a completed driver reaps the first such in the list. */
  lemma {:induction false} DoneIsReaped(s: State, limit: Option<nat>, ready: Ready, i: nat)
    requires Inv(s, limit) && !s.phase.Returned? && !(IsServing(s) && ready.shutdown)
    requires i < |s.active| && s.active[i].driver in s.done && forall j :: 0 <= j < i ==> s.active[j].driver !in s.done
    ensures var s' := AfterPoll(s, limit, ready);
            && |s'.active| == |s.active| - 1 && s'.reaped == s.reaped + {s.active[i].driver}
            && s'.spawned == s.spawned && s'.signals == s.signals
            && forall d :: Tracks(s'.active, d) <==> Tracks(s.active, d) && d != s.active[i].driver
  {
    hide Tracks, SwapRemove;
    assert FirstDone(s.active, s.done) == Some(i);
    SwapRemoveKeeps(s.active, i);
  }

  /** A loop that was shut down can only return well, and one that drains after an accept error can only return
      that error; either does return once no driver is left. */
  lemma {:induction false} ReturnsAsStopped(s: State, limit: Option<nat>, events: seq<Event>)
    requires Inv(s, limit) && IsRun(s, limit, events) && Stopped(s)
    ensures var end := EndOf(s, limit, events);
            && (s.phase.Serving? ==> end.phase == (if end.active == [] then Returned(true) else Serving))
            && (s.phase.Draining? ==> end.phase == (if end.active == [] then Returned(false) else Draining))
    decreases |events|
  {
    if events != [] {
      EventKeeps(s, limit, events[0]);
      StoppedPhase(s, limit, events[0]);
      StoppedStep(s, limit, events[0]);
      hide Inv, After, Enabled, Stopped;
      var s' := After(s, limit, events[0]);
      if s'.phase.Returned? {
        ReturnedStays(s', limit, events[1..]);
      } else {
        ReturnsAsStopped(s', limit, events[1..]);
      }
    }
  }

  lemma {:induction false} StoppedPhase(s: State, limit: Option<nat>, e: Event)
    requires Inv(s, limit) && Stopped(s) && Enabled(s, e)
    ensures var s' := After(s, limit, e);
            && (s.phase.Serving? ==> s'.phase == if s'.active == [] then Returned(true) else Serving)
            && (s.phase.Draining? ==> s'.phase == if s'.active == [] then Returned(false) else Draining)
  {
    hide SwapRemove, Tracks, ArmedDrivers, Disarmed;
  }

  lemma {:induction false} ReturnedStays(s: State, limit: Option<nat>, events: seq<Event>)
    requires s.phase.Returned? && IsRun(s, limit, events)
    ensures EndOf(s, limit, events).phase == s.phase && EndOf(s, limit, events).active == s.active
    decreases |events|
  {
    if events != [] {
      ReturnedStays(After(s, limit, events[0]), limit, events[1..]);
    }
  }

  // ---- The loop as it runs ----

  class AcceptLoop {
    const limit: Option<nat>
    var active: seq<Active>
    var accepting: bool
    var phase: Phase
    var spawned: nat
    var done: set<nat>
    var reaped: set<nat>
    var signals: seq<nat>

    constructor (limit: Option<nat>)
      ensures this.limit == limit && View() == START
    {
      this.limit := limit;
      active, accepting, phase, spawned, done, reaped, signals := [], true, Serving, 0, {}, {}, [];
    }

    ghost function View(): State
      reads this
    {
      State(active, accepting, phase, spawned, done, reaped, signals)
    }

    /** Takes every unused sender and sends. */
    method SignalActive()
      modifies this`active, this`signals
      ensures View() == SignalAll(old(View()))
    {
      ghost var before := active;
      ghost var sent := signals;
      var i := 0;
      while i < |active|
        invariant i <= |active| == |before|
        invariant forall j :: 0 <= j < |before| ==> active[j] == if j < i then before[j].(armed := false) else before[j]
        invariant signals == sent + ArmedDrivers(before[..i])
      {
        assert before[..i + 1][..i] == before[..i];
        if active[i].armed {
          signals := signals + [active[i].driver];
        }
        active := active[i := active[i].(armed := false)];
        i := i + 1;
      }
      assert before[..i] == before && active == Disarmed(before);
    }

    method OnShutdown()
      requires Enabled(View(), Shutdown)
      modifies this
      ensures View() == After(old(View()), limit, Shutdown)
    {
      accepting := false;
      SignalActive();
      if active == [] {
        phase := Returned(true);
      }
    }

    method OnAccepted()
      requires Enabled(View(), Accepted)
      modifies this
      ensures View() == After(old(View()), limit, Accepted)
    {
      var atCapacity := limit.Some? && |active| >= limit.value;
      if !atCapacity {
        active := active + [Active(spawned, true)];
        spawned := spawned + 1;
      }
    }

    method OnDone(index: nat)
      requires Enabled(View(), Done(index))
      modifies this
      ensures View() == After(old(View()), limit, Done(index))
    {
      reaped := reaped + {active[index].driver};
      active := SwapRemove(active, index);
      if active == [] && !(accepting && phase == Serving) {
        phase := Returned(phase == Serving);
      }
    }

    method BeginDrain()
      requires Enabled(View(), AcceptError)
      modifies this
      ensures View() == After(old(View()), limit, AcceptError)
    {
      phase := Draining;
      SignalActive();
      if active == [] {
        phase := Returned(false);
      }
    }

    method OnEvent(e: Event)
      requires Enabled(View(), e)
      modifies this
      ensures View() == After(old(View()), limit, e)
    {
      match e
      case Finish(driver) => done := done + {driver};
      case Shutdown => OnShutdown();
      case Accepted => OnAccepted();
      case AcceptError => BeginDrain();
      case Done(index) => OnDone(index);
    }

    /** One poll of everything the loop waits for, in the loop's order. */
    method PollEvent(ready: Ready) returns (e: Option<Event>)
      ensures e == Polled(View(), ready)
    {
      if phase.Returned? {
        return None;
      }
      var serving := phase == Serving && accepting;
      if serving && ready.shutdown {
        return Some(Shutdown);
      }
      var index := 0;
      while index < |active|
        invariant index <= |active|
        invariant FirstDone(active, done) == Ahead(index, FirstDone(active[index..], done))
      {
        assert active[index..][1..] == active[index + 1..];
        if active[index].driver in done {
          return Some(Done(index));
        }
        index := index + 1;
      }
      if serving && ready.accept.Some? {
        return Some(if ready.accept.value then Accepted else AcceptError);
      }
      e := None;
    }

    /** The loop from its start, through polls and completions in any order: it goes through exactly the
        events its polling order picks, which are a run, so all that holds of runs holds of it. */
    method Serve(ticks: seq<Tick>)
      requires View() == START
      modifies this
      ensures IsRun(START, limit, Picked(START, limit, ticks))
      ensures View() == EndOf(START, limit, Picked(START, limit, ticks)) && Inv(View(), limit)
      ensures phase.Returned? ==> forall d: nat :: d < spawned ==> d in done
    {
      StartIsSafe(limit);
      PickedIsRun(START, limit, ticks);
      RunsAreSafe(START, limit, Picked(START, limit, ticks));
      hide Inv, After, Enabled, Polled;
      ghost var all := Picked(START, limit, ticks);
      assert ticks[0..] == ticks;
      var i := 0;
      while i < |ticks|
        invariant i <= |ticks| && IsRun(View(), limit, Picked(View(), limit, ticks[i..]))
        invariant EndOf(View(), limit, Picked(View(), limit, ticks[i..])) == EndOf(START, limit, all)
      {
        ghost var s := View();
        PickedStep(s, limit, ticks, i);
        hide Picked, IsRun, EndOf;
        var e: Option<Event>;
        match ticks[i] {
          case Poll(ready) => e := PollEvent(ready);
          case Completes(driver) => e := if driver < spawned && driver !in done then Some(Finish(driver)) else None;
        }
        assert e == EventOf(s, ticks[i]);
        if e.Some? {
          OnEvent(e.value);
        }
        i := i + 1;
      }
    }

    /** The next completion to be seen while draining, whichever driver's it is. */
    method AwaitOne()
      requires Inv(View(), limit) && phase == Draining && active != []
      modifies this
      ensures Inv(View(), limit) && spawned == old(spawned) && signals == old(signals)
      ensures |active| == old(|active|) - 1 && phase == if active == [] then Returned(false) else Draining
    {
      hide SwapRemove;
      var index :| 0 <= index < |active|;
      var driver := active[index].driver;
      assert Tracks(active, driver);
      if driver !in done {
        EventKeeps(View(), limit, Finish(driver));
        done := done + {driver};
      }
      SwapRemoveKeeps(active, index);
      EventKeeps(View(), limit, Done(index));
      OnDone(index);
    }

    /** After an accept error: signal, then wait for every driver, in whatever order they complete. */
    method OnAcceptError()
      requires Inv(View(), limit) && Enabled(View(), AcceptError)
      modifies this
      ensures Inv(View(), limit) && phase == Returned(false) && active == []
      ensures spawned == old(spawned) && (forall d: nat :: d < spawned ==> d in done && d in reaped)
      ensures signals == After(old(View()), limit, AcceptError).signals
    {
      ghost var stopped := After(View(), limit, AcceptError);
      EventKeeps(View(), limit, AcceptError);
      BeginDrain();
      hide After;
      while active != []
        invariant Inv(View(), limit) && spawned == stopped.spawned && signals == stopped.signals
        invariant phase == if active == [] then Returned(false) else Draining
        decreases |active|
      {
        AwaitOne();
      }
      AllReaped(View(), limit);
    }
  }

  lemma {:induction false} AllReaped(s: State, limit: Option<nat>)
    requires Inv(s, limit) && s.active == []
    ensures forall d: nat :: d < s.spawned ==> d in s.done && d in s.reaped
  {
    forall d: nat | d < s.spawned ensures d in s.done && d in s.reaped {
      assert !Tracks(s.active, d);
    }
  }
}
