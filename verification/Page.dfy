/**
 Whole runs of a page: any number of monitors on one host, stepped by an
 arbitrary interleaving of browser events, requests, completions and teardowns.
 Every step is one atomic callback, as it is in the browser.
 */
module Page {
  import opened Wrappers
  import opened Connection

  datatype World = World(host: HostState, mons: seq<Mon>, calls: nat)

  datatype Event =
    | Create(loadedAt: int)
    | Request(watched: bool)
    | Settled(m: nat, outcome: Outcome)
    | Fire(handler: nat)
    | Tick(timer: nat)
    | Probe(m: nat)
    | Subscribed(m: nat, listener: nat)
    | Unsubscribed(m: nat, listener: nat)
    | Stopped(m: nat)
    | Advance(to: int)
    | Navigator(online: bool)

  /** A call of fetch `f`: wrappers call inwards, and a watched call leaves each an observation to make. */
  function Call(w: World, f: Fetch, watched: bool): (w': World)
    ensures |w'.mons| == |w.mons| && w'.host == w.host
    decreases f
  {
    match f
    case Native => w.(calls := w.calls + 1)
    case Wrapped(owner, inner) =>
      var w' := Call(w, inner, watched);
      if watched && owner < |w'.mons| then
        w'.(mons := w'.mons[owner := w'.mons[owner].(pending := w'.mons[owner].pending + 1)])
      else w'
  }

  /** `probe()` goes out through the fetch the monitor found, to a path no wrapper watches. */
  function ProbeOf(w: World, i: nat): World
    requires i < |w.mons|
  {
    var m := w.mons[i];
    if m.underlying.None? || m.stopped then w
    else
      var w' := Call(w, m.underlying.value, false);
      w'.(mons := w'.mons[i := StartProbe(w'.mons[i])])
  }

  function Step(w: World, e: Event): World {
    match e
    case Create(loadedAt) =>
      var p := Connection.Create(w.host, |w.mons|, loadedAt);
      w.(host := p.h, mons := w.mons + [p.m])
    case Request(watched) => if w.host.fetch.Some? then Call(w, w.host.fetch.value, watched) else w
    case Settled(i, outcome) => if i < |w.mons| then Put(w, i, Settle(At(w, i), outcome)) else w
    case Fire(id) =>
      if id in w.host.handlers && w.host.handlers[id].owner.Some? && w.host.handlers[id].owner.value < |w.mons| then
        var i := w.host.handlers[id].owner.value;
        if w.host.handlers[id].event.Offline? then Put(w, i, OnOffline(At(w, i))) else ProbeOf(w, i)
      else w
    case Tick(t) =>
      if t in w.host.timers && w.host.timers[t].Some? && w.host.timers[t].value < |w.mons| then
        ProbeOf(w, w.host.timers[t].value)
      else w
    case Probe(i) => if i < |w.mons| then ProbeOf(w, i) else w
    case Subscribed(i, l) =>
      if i < |w.mons| then Put(w, i, At(w, i).(m := Subscribe(w.mons[i], l))) else w
    case Unsubscribed(i, l) =>
      if i < |w.mons| then Put(w, i, At(w, i).(m := Unsubscribe(w.mons[i], l))) else w
    case Stopped(i) => if i < |w.mons| then Put(w, i, Connection.Stop(At(w, i))) else w
    case Advance(to) => w.(host := w.host.(clock := to))
    case Navigator(online) => w.(host := w.host.(online := online))
  }

  function At(w: World, i: nat): Pair
    requires i < |w.mons|
  {
    Pair(w.mons[i], w.host)
  }

  function Put(w: World, i: nat, p: Pair): World
    requires i < |w.mons|
  {
    w.(host := p.h, mons := w.mons[i := p.m])
  }

  function Run(w: World, events: seq<Event>): World
    decreases |events|
  {
    if events == [] then w else Run(Step(w, events[0]), events[1..])
  }

  /** A page before any monitor exists; timers and handlers of other code may be there. */
  ghost predicate Fresh(w: World) {
    && w.mons == []
    && (forall t <- w.host.timers :: w.host.timers[t].None? && t < w.host.nextId)
    && (forall id <- w.host.handlers :: w.host.handlers[id].owner.None? && id < w.host.nextId)
  }

  // ---- The invariant ----

  /** A subscriber's last seen view is the monitor's current one, and it never saw one twice running. */
  ghost predicate InStep(m: Mon) {
    forall l <- m.listeners ::
      && l in m.inbox && m.inbox[l] != []
      && m.inbox[l][|m.inbox[l]| - 1] == m.last
      && (forall k | 0 < k < |m.inbox[l]| :: m.inbox[l][k - 1] != m.inbox[l][k])
  }

  /** Exactly the handle the monitor holds is live on the host, under its name. */
  ghost predicate OwnsItsTimer(m: Mon, h: HostState) {
    && (forall t <- h.timers :: h.timers[t] == Some(m.id) ==> m.cancelProbes == Some(t))
    && (m.cancelProbes.Some? ==> m.cancelProbes.value in h.timers && h.timers[m.cancelProbes.value] == Some(m.id))
  }

  ghost predicate HandlersMatchUndo(m: Mon, h: HostState) {
    if m.stopped then m.undo == [] && forall id <- h.handlers :: h.handlers[id].owner != Some(m.id)
    else
      var n := |m.undo|;
      && (if m.underlying.Some? then n == 3 && m.undo[0] == RestoreFetch(m.underlying.value) else n == 2)
      && m.undo[n - 2].Unlisten? && m.undo[n - 1].Unlisten?
      && m.undo[n - 2].handler in h.handlers && h.handlers[m.undo[n - 2].handler] == Handler(Some(m.id), Offline)
      && m.undo[n - 1].handler in h.handlers && h.handlers[m.undo[n - 1].handler] == Handler(Some(m.id), Online)
      && forall id <- h.handlers | h.handlers[id].owner == Some(m.id) ::
           id == m.undo[n - 2].handler || id == m.undo[n - 1].handler
  }

  ghost predicate Polling(m: Mon) {
    m.cancelProbes.Some? <==> !m.stopped && m.last.lost
  }

  ghost predicate MonInv(m: Mon, h: HostState) {
    && m.last == ConnectionView(m.Snap())
    && Polling(m)
    && OwnsItsTimer(m, h)
    && InStep(m)
    && HandlersMatchUndo(m, h)
  }

  ghost predicate HostInv(h: HostState, monitors: nat) {
    && (forall t <- h.timers :: t < h.nextId && (h.timers[t].Some? ==> h.timers[t].value < monitors))
    && (forall id <- h.handlers ::
          id < h.nextId && (h.handlers[id].owner.Some? ==> h.handlers[id].owner.value < monitors))
  }

  ghost predicate Inv(w: World) {
    && HostInv(w.host, |w.mons|)
    && forall i | 0 <= i < |w.mons| :: w.mons[i].id == i && MonInv(w.mons[i], w.host)
  }

  /** What a callback of monitor `m` may not touch: other monitors' timers, and every handler. */
  ghost predicate Elsewhere(p: Pair, q: Pair) {
    && q.m.id == p.m.id && q.m.stopped == p.m.stopped && q.m.undo == p.m.undo
    && q.m.underlying == p.m.underlying && q.m.loadedAt == p.m.loadedAt && q.m.startOnline == p.m.startOnline
    && q.h.fetch == p.h.fetch && q.h.handlers == p.h.handlers && q.h.clock == p.h.clock && q.h.online == p.h.online
    && p.h.nextId <= q.h.nextId
    && (forall t <- q.h.timers :: q.h.timers[t] == Some(p.m.id) || (t in p.h.timers && q.h.timers[t] == p.h.timers[t]))
    && (forall t <- p.h.timers :: p.h.timers[t] == Some(p.m.id) || (t in q.h.timers && q.h.timers[t] == p.h.timers[t]))
    && (forall t <- q.h.timers :: t < q.h.nextId || t in p.h.timers)
  }

  lemma NotifyKeepsStep(m: Mon, next: View)
    requires InStep(m) && next != m.last
    ensures InStep(Notify(m, next).(last := next))
  {
    var r := Notify(m, next);
    forall l <- m.listeners
      ensures l in r.inbox && r.inbox[l] != [] && r.inbox[l][|r.inbox[l]| - 1] == next
      ensures forall k | 0 < k < |r.inbox[l]| :: r.inbox[l][k - 1] != r.inbox[l][k]
    {
      assert r.inbox[l] == m.inbox[l] + [next];
    }
  }

  lemma PublishRestores(p: Pair)
    requires Polling(p.m) && OwnsItsTimer(p.m, p.h) && InStep(p.m)
    requires HandlersMatchUndo(p.m, p.h)
    requires forall t <- p.h.timers :: t < p.h.nextId
    ensures MonInv(Publish(p).m, Publish(p).h)
    ensures Elsewhere(p, Publish(p))
    ensures Publish(p).m.Heard() == p.m.Heard()
  {
    PublishStaysHome(p);
    PublishKeepsTimer(p);
    PublishKeepsStep(p);
    PublishKeepsHandlers(p);
  }

  lemma PublishKeepsStep(p: Pair)
    requires InStep(p.m)
    ensures InStep(Publish(p).m) && Publish(p).m.last == ConnectionView(Publish(p).m.Snap())
    ensures Publish(p).m.Heard() == p.m.Heard()
  {
    var next := ConnectionView(p.m.Snap());
    if next != p.m.last {
      NotifyKeepsStep(Schedule(p.(m := p.m.(last := next))).m.(last := p.m.last), next);
    }
    assert Publish(p).m.Snap() == p.m.Snap();
  }

  lemma PublishKeepsHandlers(p: Pair)
    requires HandlersMatchUndo(p.m, p.h)
    ensures HandlersMatchUndo(Publish(p).m, Publish(p).h)
  {
  }

  lemma PublishKeepsTimer(p: Pair)
    requires Polling(p.m) && OwnsItsTimer(p.m, p.h) && forall t <- p.h.timers :: t < p.h.nextId
    ensures Polling(Publish(p).m) && OwnsItsTimer(Publish(p).m, Publish(p).h)
  {
  }

  lemma PublishStaysHome(p: Pair)
    requires OwnsItsTimer(p.m, p.h) && forall t <- p.h.timers :: t < p.h.nextId
    ensures Elsewhere(p, Publish(p))
  {
  }

  /** Nothing but what an observation changes. */
  ghost predicate OnlyCells(m: Mon, m': Mon) {
    m' == m.(online := m'.online, failures := m'.failures, lastOkAt := m'.lastOkAt, pending := m'.pending,
             history := m'.history)
  }

  /** An observation is taken in and published. */
  lemma ObservedKeeps(p: Pair, m': Mon)
    requires MonInv(p.m, p.h) && OnlyCells(p.m, m') && forall t <- p.h.timers :: t < p.h.nextId
    ensures var q := Publish(Pair(m', p.h)); MonInv(q.m, q.h) && Elsewhere(p, q)
  {
    var p' := Pair(m', p.h);
    assert InStep(m') && HandlersMatchUndo(m', p.h);
    PublishRestores(p');
    assert Elsewhere(p', Publish(p'));
  }

  lemma AbortKeeps(p: Pair, m': Mon)
    requires MonInv(p.m, p.h) && OnlyCells(p.m, m') && m'.Snap() == p.m.Snap()
    ensures MonInv(m', p.h) && Elsewhere(p, Pair(m', p.h))
  {
  }

  lemma SettleKeeps(p: Pair, outcome: Outcome)
    requires MonInv(p.m, p.h) && forall t <- p.h.timers :: t < p.h.nextId
    ensures MonInv(Settle(p, outcome).m, Settle(p, outcome).h)
    ensures Elsewhere(p, Settle(p, outcome))
  {
    if p.m.pending > 0 {
      var landed := Landed(p, outcome);
      assert OnlyCells(p.m, landed.m) && landed == Pair(landed.m, p.h);
      if outcome.Aborted? { AbortKeeps(p, landed.m); } else { ObservedKeeps(p, landed.m); }
    }
  }

  lemma OfflineKeeps(p: Pair)
    requires MonInv(p.m, p.h) && forall t <- p.h.timers :: t < p.h.nextId
    ensures MonInv(OnOffline(p).m, OnOffline(p).h)
    ensures Elsewhere(p, OnOffline(p))
  {
    ObservedKeeps(p, Observed(p.m, WentOffline));
  }

  lemma NeighbourKept(p: Pair, q: Pair, m: Mon)
    requires MonInv(m, p.h) && m.id != p.m.id && Elsewhere(p, q)
    ensures MonInv(m, q.h)
  {
  }

  /** A callback of one monitor leaves every other monitor's invariant alone. */
  lemma OneMonitorStep(w: World, i: nat, q: Pair)
    requires Inv(w) && i < |w.mons|
    requires MonInv(q.m, q.h) && Elsewhere(At(w, i), q)
    ensures Inv(Put(w, i, q))
  {
    var w' := Put(w, i, q);
    forall j | 0 <= j < |w'.mons| ensures w'.mons[j].id == j && MonInv(w'.mons[j], w'.host) {
      if j != i { NeighbourKept(At(w, i), q, w.mons[j]); }
    }
  }

  lemma CallOnlyCounts(w: World, f: Fetch, watched: bool)
    ensures |Call(w, f, watched).mons| == |w.mons|
    ensures forall j | 0 <= j < |w.mons| ::
              Call(w, f, watched).mons[j] == w.mons[j].(pending := Call(w, f, watched).mons[j].pending)
    decreases f
  {
    match f
    case Native =>
    case Wrapped(owner, inner) => CallOnlyCounts(w, inner, watched);
  }

  lemma PendingIsFree(w: World, w': World)
    requires Inv(w) && w'.host == w.host && |w'.mons| == |w.mons|
    requires forall j | 0 <= j < |w.mons| :: w'.mons[j] == w.mons[j].(pending := w'.mons[j].pending)
    ensures Inv(w')
  {
    forall j | 0 <= j < |w'.mons| ensures w'.mons[j].id == j && MonInv(w'.mons[j], w'.host) {
      assert w.mons[j].id == j && MonInv(w.mons[j], w.host);
      assert w'.mons[j].Snap() == w.mons[j].Snap();
    }
  }

  lemma ProbeKeeps(w: World, i: nat)
    requires Inv(w) && i < |w.mons|
    ensures Inv(ProbeOf(w, i))
  {
    if w.mons[i].underlying.Some? {
      CallOnlyCounts(w, w.mons[i].underlying.value, false);
    }
    PendingIsFree(w, ProbeOf(w, i));
  }

  lemma UnwindTeardown(m: Mon, h: HostState)
    requires HandlersMatchUndo(m, h) && !m.stopped
    ensures var n := |m.undo|;
            Unwind(h, m.undo) == h.(
              fetch := if m.underlying.Some? then m.underlying else h.fetch,
              handlers := h.handlers - {m.undo[n - 2].handler, m.undo[n - 1].handler})
  {
    var n := |m.undo|;
    var u := m.undo;
    var a, b := u[n - 2].handler, u[n - 1].handler;
    var h1 := h.(handlers := h.handlers - {b});
    var h2 := h.(handlers := h.handlers - {a, b});
    assert h1.handlers - {a} == h2.handlers;
    assert u[..n - 1][..n - 2] == u[..n - 2];
    assert Unwind(h, u) == Unwind(h1, u[..n - 1]) == Unwind(h2, u[..n - 2]);
    if m.underlying.Some? {
      assert u[..1][..0] == [];
      assert Unwind(h2, u[..1]) == Unwind(h2.(fetch := m.underlying), []);
    }
  }

  /** The exact effect of `stop()`: own timer, own handlers, and the fetch it found. */
  lemma StopEffect(w: World, i: nat)
    requires Inv(w) && i < |w.mons|
    ensures var h, h' := w.host, Connection.Stop(At(w, i)).h;
            && h'.timers == (map t | t in h.timers && h.timers[t] != Some(i) :: h.timers[t])
            && h'.handlers == (map id | id in h.handlers && h.handlers[id].owner != Some(i) :: h.handlers[id])
            && h'.fetch == (if !w.mons[i].stopped && w.mons[i].underlying.Some? then w.mons[i].underlying else h.fetch)
            && h'.clock == h.clock && h'.online == h.online && h'.nextId == h.nextId
  {
    var m := w.mons[i];
    if !m.stopped {
      var timers := if m.cancelProbes.Some? then w.host.timers - {m.cancelProbes.value} else w.host.timers;
      UnwindTeardown(m, w.host.(timers := timers));
    }
  }

  lemma StopKeeps(w: World, i: nat)
    requires Inv(w) && i < |w.mons|
    ensures Inv(Put(w, i, Connection.Stop(At(w, i))))
  {
    StopEffect(w, i);
    var q := Connection.Stop(At(w, i));
    var w' := Put(w, i, q);
    forall j | 0 <= j < |w'.mons| ensures w'.mons[j].id == j && MonInv(w'.mons[j], w'.host) {
      assert MonInv(w.mons[j], w.host);
      if j == i {
        assert q.m.Snap() == w.mons[i].Snap();
      }
    }
  }

  lemma NewMonitorHolds(h: HostState, id: nat, loadedAt: int)
    requires HostInv(h, id)
    ensures var p := Connection.Create(h, id, loadedAt); p.m.id == id && MonInv(p.m, p.h) && HostInv(p.h, id + 1)
  {
    var p := Connection.Create(h, id, loadedAt);
    assert HandlersMatchUndo(p.m, p.h);
  }

  /** What creating monitor `id` adds to the host does not concern the monitors before it. */
  lemma CreationElsewhere(h: HostState, id: nat, loadedAt: int, m: Mon)
    requires HostInv(h, id) && m.id < id && MonInv(m, h)
    ensures MonInv(m, Connection.Create(h, id, loadedAt).h)
  {
  }

  lemma CreateKeeps(w: World, loadedAt: int)
    requires Inv(w)
    ensures Inv(Step(w, Create(loadedAt)))
  {
    var n := |w.mons|;
    var w' := Step(w, Create(loadedAt));
    NewMonitorHolds(w.host, n, loadedAt);
    forall j | 0 <= j < |w'.mons| ensures w'.mons[j].id == j && MonInv(w'.mons[j], w'.host) {
      if j < n {
        CreationElsewhere(w.host, n, loadedAt, w.mons[j]);
      }
    }
  }

  lemma SubscribedKeeps(m: Mon, h: HostState, l: nat)
    requires MonInv(m, h)
    ensures MonInv(Subscribe(m, l), h) && MonInv(Unsubscribe(m, l), h)
  {
    assert Subscribe(m, l).Snap() == m.Snap() && Unsubscribe(m, l).Snap() == m.Snap();
    assert InStep(Subscribe(m, l)) && InStep(Unsubscribe(m, l));
  }

  lemma SubscriptionKeeps(w: World, i: nat, l: nat)
    requires Inv(w) && i < |w.mons|
    ensures Inv(Step(w, Subscribed(i, l))) && Inv(Step(w, Unsubscribed(i, l)))
  {
    SubscribedKeeps(w.mons[i], w.host, l);
    OneMonitorStep(w, i, Pair(Subscribe(w.mons[i], l), w.host));
    OneMonitorStep(w, i, Pair(Unsubscribe(w.mons[i], l), w.host));
  }

  lemma RequestKeeps(w: World, watched: bool)
    requires Inv(w)
    ensures Inv(Step(w, Request(watched)))
  {
    if w.host.fetch.Some? {
      CallOnlyCounts(w, w.host.fetch.value, watched);
      PendingIsFree(w, Step(w, Request(watched)));
    }
  }

  lemma SettlementKeeps(w: World, i: nat, outcome: Outcome)
    requires Inv(w) && i < |w.mons|
    ensures Inv(Step(w, Settled(i, outcome)))
  {
    SettleKeeps(At(w, i), outcome);
    OneMonitorStep(w, i, Settle(At(w, i), outcome));
  }

  lemma FireKeeps(w: World, id: nat)
    requires Inv(w)
    ensures Inv(Step(w, Fire(id)))
  {
    if id in w.host.handlers && w.host.handlers[id].owner.Some? {
      var i := w.host.handlers[id].owner.value;
      if w.host.handlers[id].event.Offline? {
        OfflineKeeps(At(w, i));
        OneMonitorStep(w, i, OnOffline(At(w, i)));
      } else {
        ProbeKeeps(w, i);
      }
    }
  }

  lemma QuietStepKeeps(w: World, e: Event)
    requires Inv(w) && (e.Tick? || e.Probe? || e.Subscribed? || e.Unsubscribed? || e.Advance? || e.Navigator?)
    ensures Inv(Step(w, e))
  {
    match e
    case Tick(t) =>
      if t in w.host.timers && w.host.timers[t].Some? {
        ProbeKeeps(w, w.host.timers[t].value);
      }
    case Probe(i) => if i < |w.mons| { ProbeKeeps(w, i); }
    case Subscribed(i, l) => if i < |w.mons| { SubscriptionKeeps(w, i, l); }
    case Unsubscribed(i, l) => if i < |w.mons| { SubscriptionKeeps(w, i, l); }
    case Advance(to) =>
    case Navigator(online) =>
  }

  lemma StepKeeps(w: World, e: Event)
    requires Inv(w)
    ensures Inv(Step(w, e))
  {
    match e
    case Create(loadedAt) => CreateKeeps(w, loadedAt);
    case Request(watched) => RequestKeeps(w, watched);
    case Settled(i, outcome) => if i < |w.mons| { SettlementKeeps(w, i, outcome); }
    case Fire(id) => FireKeeps(w, id);
    case Stopped(i) => if i < |w.mons| { StopKeeps(w, i); }
    case _ => QuietStepKeeps(w, e);
  }

  lemma {:induction false} RunKeeps(w: World, events: seq<Event>)
    requires Inv(w)
    ensures Inv(Run(w, events))
    decreases |events|
  {
    if events != [] {
      StepKeeps(w, events[0]);
      RunKeeps(Step(w, events[0]), events[1..]);
    }
  }
}
