/**
 The monitor as the console runs it: one object per `createConnectionMonitor`
 call, whose callbacks update its cells and the host it was given. Each callback
 is proved equal to its value-level transition in `Connection`.
 */
module ConnectionMonitor {
  import opened Wrappers
  import opened Connection
  import Page

  class Host {
    var fetch: Option<Fetch>
    var clock: int
    var online: bool
    var timers: map<nat, Option<nat>>
    var handlers: map<nat, Handler>
    var nextId: nat

    ghost function State(): HostState
      reads this
    {
      HostState(fetch, clock, online, timers, handlers, nextId)
    }

    method Every(owner: nat) returns (timer: nat)
      modifies this
      ensures timer == old(nextId)
      ensures State() == old(State()).(timers := old(timers)[timer := Some(owner)], nextId := timer + 1)
    {
      timer := nextId;
      timers := timers[timer := Some(owner)];
      nextId := nextId + 1;
    }

    method ClearTimer(timer: nat)
      modifies this
      ensures State() == old(State()).(timers := old(timers) - {timer})
    {
      timers := timers - {timer};
    }

    method Listen(owner: nat, event: HostEvent) returns (id: nat)
      modifies this
      ensures id == old(nextId)
      ensures State() == old(State()).(handlers := old(handlers)[id := Handler(Some(owner), event)], nextId := id + 1)
    {
      id := nextId;
      handlers := handlers[id := Handler(Some(owner), event)];
      nextId := nextId + 1;
    }
  }

  class Monitor {
    const id: nat
    const host: Host
    const loadedAt: int
    const startOnline: bool
    const underlying: Option<Fetch>
    var online: bool
    var failures: nat
    var lastOkAt: Option<int>
    var stopped: bool
    var cancelProbes: Option<nat>
    var last: View
    var listeners: set<nat>
    var inbox: map<nat, seq<View>>
    var undo: seq<Undo>
    var pending: nat
    ghost var history: seq<Observation>

    ghost function State(): Mon
      reads this
    {
      Mon(id, loadedAt, startOnline, underlying, online, failures, lastOkAt, stopped, cancelProbes, last,
          listeners, inbox, undo, pending, history)
    }

    ghost function Both(): Pair
      reads this, host
    {
      Pair(State(), host.State())
    }

    constructor (host: Host, id: nat, loadedAt: int)
      modifies host
      ensures this.host == host && this.id == id
      ensures Both() == Connection.Create(old(host.State()), id, loadedAt)
    {
      this.host, this.id, this.loadedAt := host, id, loadedAt;
      underlying, startOnline, online := host.fetch, host.online, host.online;
      failures, lastOkAt, stopped, cancelProbes := 0, None, false, None;
      last := ConnectionView(Snapshot(host.online, 0, None, loadedAt));
      listeners, inbox, pending, history := {}, map[], 0, [];
      undo := [];
      new;
      if host.fetch.Some? {
        undo := [RestoreFetch(host.fetch.value)];
        host.fetch := Some(Wrapped(id, host.fetch.value));
      }
      var offline := host.Listen(id, Offline);
      undo := undo + [Unlisten(offline)];
      var back := host.Listen(id, Online);
      undo := undo + [Unlisten(back)];
      Schedule();
    }

    method Schedule()
      modifies this, host
      ensures Both() == Connection.Schedule(old(Both()))
    {
      if stopped {
        return;
      }
      if last.lost && cancelProbes.None? {
        var timer := host.Every(id);
        cancelProbes := Some(timer);
        return;
      }
      if !last.lost && cancelProbes.Some? {
        host.ClearTimer(cancelProbes.value);
        cancelProbes := None;
      }
    }

    method Publish()
      modifies this, host
      ensures Both() == Connection.Publish(old(Both()))
    {
      var next := ConnectionView(Snapshot(online, failures, lastOkAt, loadedAt));
      var changed := next != last;
      last := next;
      Schedule();
      if !changed {
        return;
      }
      NotifyAll(next);
    }

    /** The loop over the listeners. */
    method NotifyAll(next: View)
      modifies this`inbox
      ensures State() == Notify(old(State()), next)
    {
      var waiting := listeners;
      var boxes := inbox;
      while waiting != {}
        invariant waiting <= listeners
        invariant boxes.Keys == inbox.Keys + (listeners - waiting)
        invariant forall l <- boxes ::
          boxes[l] == (if l in inbox then inbox[l] else []) + (if l in listeners - waiting then [next] else [])
      {
        var l :| l in waiting;
        boxes := boxes[l := (if l in boxes then boxes[l] else []) + [next]];
        waiting := waiting - {l};
      }
      ghost var m := State();
      inbox := boxes;
      assert inbox == Notify(m, next).inbox;
    }

    method NoteReachable()
      modifies this, host
      ensures Both() == Connection.NoteReachable(old(Both()))
    {
      lastOkAt := Some(host.clock);
      failures := 0;
      online := true;
      history := history + [Responded(host.clock)];
      Publish();
    }

    method NoteUnreachable()
      modifies this, host
      ensures Both() == Connection.NoteUnreachable(old(Both()))
    {
      failures := failures + 1;
      history := history + [Failed(false)];
      assert Both() == Pair(Observed(old(State()), Failed(false)), old(host.State()));
      Publish();
    }

    method OnOffline()
      modifies this, host
      ensures Both() == Connection.OnOffline(old(Both()))
    {
      online := false;
      history := history + [WentOffline];
      Publish();
    }

    /** Whether a probe went out; the answer comes back through `Settle`. */
    method StartProbe() returns (sent: bool)
      modifies this
      ensures sent == (underlying.Some? && !old(stopped))
      ensures State() == Connection.StartProbe(old(State()))
    {
      if underlying.None? || stopped {
        return false;
      }
      pending := pending + 1;
      return true;
    }

    method Settle(outcome: Outcome)
      modifies this, host
      ensures Both() == Connection.Settle(old(Both()), outcome)
    {
      if pending == 0 {
        return;
      }
      pending := pending - 1;
      ghost var p := Both();
      match outcome {
        case Response =>
          NoteReachable();
          assert Both() == Connection.NoteReachable(p);
        case Rejected =>
          NoteUnreachable();
          assert Both() == Connection.NoteUnreachable(p);
        case Aborted =>
          history := history + [Failed(true)];
          assert State() == Observed(p.m, Failed(true));
      }
    }

    method Subscribe(l: nat)
      modifies this
      ensures State() == Connection.Subscribe(old(State()), l)
    {
      listeners := listeners + {l};
      inbox := inbox[l := [last]];
    }

    method Unsubscribe(l: nat)
      modifies this
      ensures State() == Connection.Unsubscribe(old(State()), l)
    {
      listeners := listeners - {l};
    }

    method Stop()
      modifies this, host
      ensures Both() == Connection.Stop(old(Both()))
    {
      stopped := true;
      if cancelProbes.Some? {
        host.ClearTimer(cancelProbes.value);
      }
      cancelProbes := None;
      listeners := {};
      UnwindAll();
    }

    /** The loop that pops the teardown stack. */
    method UnwindAll()
      modifies this`undo, host
      ensures State() == old(State()).(undo := [])
      ensures host.State() == Unwind(old(host.State()), old(undo))
    {
      ghost var h0, u0 := host.State(), undo;
      while undo != []
        invariant Unwind(host.State(), undo) == Unwind(h0, u0)
        invariant State() == old(State()).(undo := undo)
        decreases |undo|
      {
        var top := undo[|undo| - 1];
        undo := undo[..|undo| - 1];
        match top {
          case RestoreFetch(f) => host.fetch := Some(f);
          case Unlisten(handler) => host.handlers := host.handlers - {handler};
        }
      }
    }
  }

  /** A browser tab: one host and the monitors created on it, driven one callback at a time. */
  class Tab {
    const host: Host
    var monitors: seq<Monitor>
    var calls: nat

    ghost predicate Valid()
      reads this, monitors
    {
      && (forall i | 0 <= i < |monitors| :: monitors[i].id == i && monitors[i].host == host)
      && (forall i, j | 0 <= i < j < |monitors| :: monitors[i] != monitors[j])
    }

    ghost function State(): Page.World
      reads this, host, monitors
    {
      Page.World(host.State(),
                 seq(|monitors|, i requires 0 <= i < |monitors| reads this, monitors => monitors[i].State()), calls)
    }

    constructor (host: Host)
      ensures Valid() && State() == Page.World(host.State(), [], 0)
    {
      this.host, monitors, calls := host, [], 0;
    }

    /** A wrapper calls the fetch it wraps, then waits for the answer if the request is watched. */
    method Call(f: Fetch, watched: bool)
      requires Valid()
      modifies this`calls, monitors
      ensures Valid() && State() == Page.Call(old(State()), f, watched)
      decreases f
    {
      match f {
        case Native => calls := calls + 1;
        case Wrapped(owner, inner) =>
          Call(inner, watched);
          if watched && owner < |monitors| {
            monitors[owner].pending := monitors[owner].pending + 1;
          }
      }
    }

    method Probe(i: nat)
      requires Valid() && i < |monitors|
      modifies this`calls, monitors
      ensures Valid() && State() == Page.ProbeOf(old(State()), i)
    {
      var m := monitors[i];
      if m.underlying.Some? && !m.stopped {
        Call(m.underlying.value, false);
        var _ := m.StartProbe();
      }
    }

    /** An event of the browser: a handler fires, a timer ticks, a request settles, the clock or the network moves. */
    method HandleHost(e: Page.Event)
      requires Valid() && (e.Settled? || e.Fire? || e.Tick? || e.Advance? || e.Navigator?)
      modifies this, host, monitors
      ensures Valid() && State() == Page.Step(old(State()), e)
      ensures monitors == old(monitors)
    {
      match e {
        case Settled(i, outcome) =>
          if i < |monitors| { monitors[i].Settle(outcome); }
        case Fire(id) =>
          if id in host.handlers && host.handlers[id].owner.Some? && host.handlers[id].owner.value < |monitors| {
            var i := host.handlers[id].owner.value;
            if host.handlers[id].event.Offline? { monitors[i].OnOffline(); } else { Probe(i); }
          }
        case Tick(t) =>
          if t in host.timers && host.timers[t].Some? && host.timers[t].value < |monitors| {
            Probe(host.timers[t].value);
          }
        case Advance(to) => host.clock := to;
        case Navigator(online) => host.online := online;
      }
    }

    /** What the code that holds a monitor does with it. */
    method HandleOwner(e: Page.Event)
      requires Valid() && (e.Subscribed? || e.Unsubscribed? || e.Stopped?)
      modifies this, host, monitors
      ensures Valid() && State() == Page.Step(old(State()), e)
      ensures monitors == old(monitors)
    {
      match e {
        case Subscribed(i, l) => if i < |monitors| { monitors[i].Subscribe(l); }
        case Unsubscribed(i, l) => if i < |monitors| { monitors[i].Unsubscribe(l); }
        case Stopped(i) => if i < |monitors| { monitors[i].Stop(); }
      }
    }

    method Handle(e: Page.Event)
      requires Valid()
      modifies this, host, monitors
      ensures Valid() && State() == Page.Step(old(State()), e)
    {
      match e {
        case Create(loadedAt) =>
          var m := new Monitor(host, |monitors|, loadedAt);
          monitors := monitors + [m];
        case Request(watched) =>
          if host.fetch.Some? { Call(host.fetch.value, watched); }
        case Probe(i) => if i < |monitors| { Probe(i); }
        case Subscribed(_, _) => HandleOwner(e);
        case Unsubscribed(_, _) => HandleOwner(e);
        case Stopped(_) => HandleOwner(e);
        case _ => HandleHost(e);
      }
    }
  }
}
