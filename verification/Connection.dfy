/**
 The offline monitor of `lib/pwa.ts`: what it decides, and the value-level
 transitions that its imperative form (`ConnectionMonitor.dfy`) refines.
 */
module Connection {
  import opened Wrappers

  const LOST_AFTER_FAILURES := 2

  datatype View = View(lost: bool, dataAt: int)

  datatype Snapshot = Snapshot(online: bool, failures: nat, lastOkAt: Option<int>, loadedAt: int)

  function ConnectionView(s: Snapshot): View {
    var dataAt := if s.lastOkAt.Some? && s.lastOkAt.value > s.loadedAt then s.lastOkAt.value else s.loadedAt;
    View(!s.online || s.failures >= LOST_AFTER_FAILURES, dataAt)
  }

  // ---- The host ----

  /** A `fetch` is the browser's own, or a monitor's wrapper around another one. */
  datatype Fetch = Native | Wrapped(owner: nat, inner: Fetch)

  datatype HostEvent = Online | Offline

  /** `owner` is None for a timer or handler that belongs to other code on the page. */
  datatype Handler = Handler(owner: Option<nat>, event: HostEvent)

  datatype HostState = HostState(
    fetch: Option<Fetch>, clock: int, online: bool,
    timers: map<nat, Option<nat>>, handlers: map<nat, Handler>, nextId: nat)

  datatype Undo = RestoreFetch(fetch: Fetch) | Unlisten(handler: nat)

  // ---- One monitor ----

  /** What a monitor can learn, in the order it learnt it. */
  datatype Observation = WentOffline | Responded(at: int) | Failed(aborted: bool)

  /** How a watched request or a probe settles. */
  datatype Outcome = Response | Rejected | Aborted

  /**
   `inbox[l]` is what subscriber `l` has seen: the view it was seeded with, then
   every notification. `pending` counts requests and probes in flight that will
   report here. `history` is every observation since
   creation. */
  datatype Mon = Mon(
    id: nat, loadedAt: int, startOnline: bool, underlying: Option<Fetch>,
    online: bool, failures: nat, lastOkAt: Option<int>, stopped: bool,
    cancelProbes: Option<nat>, last: View,
    listeners: set<nat>, inbox: map<nat, seq<View>>, undo: seq<Undo>,
    pending: nat, history: seq<Observation>)
  {
    function Snap(): Snapshot {
      Snapshot(online, failures, lastOkAt, loadedAt)
    }

    function Heard(): Cells {
      Cells(startOnline, online, failures, lastOkAt, history)
    }
  }

  /** The part of a monitor that observations change. */
  datatype Cells = Cells(startOnline: bool, online: bool, failures: nat, lastOkAt: Option<int>,
                         history: seq<Observation>)

  /** A monitor together with the host it lives on. */
  datatype Pair = Pair(m: Mon, h: HostState)

  /** Arms the probe timer while lost, cancels it while connected, does nothing once stopped. */
  function Schedule(p: Pair): Pair {
    if p.m.stopped then p
    else if p.m.last.lost && p.m.cancelProbes.None? then
      Pair(p.m.(cancelProbes := Some(p.h.nextId)),
           p.h.(timers := p.h.timers[p.h.nextId := Some(p.m.id)], nextId := p.h.nextId + 1))
    else if !p.m.last.lost && p.m.cancelProbes.Some? then
      Pair(p.m.(cancelProbes := None), p.h.(timers := p.h.timers - {p.m.cancelProbes.value}))
    else p
  }

  /** Every current subscriber is handed `v`. */
  function Notify(m: Mon, v: View): Mon {
    m.(inbox := map l | l in m.inbox.Keys + m.listeners ::
                  (if l in m.inbox then m.inbox[l] else []) + (if l in m.listeners then [v] else []))
  }

  function Publish(p: Pair): Pair {
    var next := ConnectionView(p.m.Snap());
    var q := Schedule(p.(m := p.m.(last := next)));
    if next != p.m.last then q.(m := Notify(q.m, next)) else q
  }

  /** What one more observation does to the cells. An abort is remembered and counts for nothing. */
  function After(c: Cells, o: Observation): Cells {
    var d := c.(history := c.history + [o]);
    match o
    case WentOffline => d.(online := false)
    case Responded(at) => d.(lastOkAt := Some(at), failures := 0, online := true)
    case Failed(aborted) => d.(failures := c.failures + if aborted then 0 else 1)
  }

  function Observed(m: Mon, o: Observation): Mon {
    var c := After(m.Heard(), o);
    m.(online := c.online, failures := c.failures, lastOkAt := c.lastOkAt, history := c.history)
  }

  function NoteReachable(p: Pair): Pair {
    Publish(p.(m := Observed(p.m, Responded(p.h.clock))))
  }

  function NoteUnreachable(p: Pair): Pair {
    Publish(p.(m := Observed(p.m, Failed(false))))
  }

  function OnOffline(p: Pair): Pair {
    Publish(p.(m := Observed(p.m, WentOffline)))
  }

  /** The synchronous half of `probe`: nothing is sent without a fetch, or once stopped. */
  function StartProbe(m: Mon): Mon {
    if m.underlying.None? || m.stopped then m else m.(pending := m.pending + 1)
  }

  function Seen(outcome: Outcome, now: int): Observation {
    match outcome case Response => Responded(now) case Rejected => Failed(false) case Aborted => Failed(true)
  }

  /** One watched request or probe fewer in flight, and what it showed. */
  function Landed(p: Pair, outcome: Outcome): Pair
    requires p.m.pending > 0
  {
    p.(m := Observed(p.m.(pending := p.m.pending - 1), Seen(outcome, p.h.clock)))
  }

  /** One watched request or probe settles. Nothing is published for an abort. */
  function Settle(p: Pair, outcome: Outcome): Pair {
    if p.m.pending == 0 then p
    else if outcome.Aborted? then Landed(p, outcome)
    else Publish(Landed(p, outcome))
  }

  function Subscribe(m: Mon, l: nat): Mon {
    m.(listeners := m.listeners + {l}, inbox := m.inbox[l := [m.last]])
  }

  function Unsubscribe(m: Mon, l: nat): Mon {
    m.(listeners := m.listeners - {l})
  }

  /** Runs the teardown stack, last entry first. */
  function Unwind(h: HostState, undo: seq<Undo>): HostState
    decreases |undo|
  {
    if undo == [] then h
    else
      var top := undo[|undo| - 1];
      var h' := match top
                case RestoreFetch(f) => h.(fetch := Some(f))
                case Unlisten(id) => h.(handlers := h.handlers - {id});
      Unwind(h', undo[..|undo| - 1])
  }

  function Stop(p: Pair): Pair {
    var timers := if p.m.cancelProbes.Some? then p.h.timers - {p.m.cancelProbes.value} else p.h.timers;
    Pair(p.m.(stopped := true, cancelProbes := None, listeners := {}, undo := []),
         Unwind(p.h.(timers := timers), p.m.undo))
  }

  /** `createConnectionMonitor`: wrap fetch if there is one, listen, and arm the timer if already lost. */
  function Create(h: HostState, id: nat, loadedAt: int): Pair {
    var snapshot := Snapshot(h.online, 0, None, loadedAt);
    var wrapUndo := if h.fetch.Some? then [RestoreFetch(h.fetch.value)] else [];
    var m := Mon(id, loadedAt, h.online, h.fetch, h.online, 0, None, false, None, ConnectionView(snapshot),
                 {}, map[], wrapUndo + [Unlisten(h.nextId), Unlisten(h.nextId + 1)], 0, []);
    var wrapped := if h.fetch.Some? then Some(Wrapped(id, h.fetch.value)) else None;
    var h' := h.(fetch := wrapped,
                 handlers := h.handlers[h.nextId := Handler(Some(id), Offline)]
                                       [h.nextId + 1 := Handler(Some(id), Online)],
                 nextId := h.nextId + 2);
    Schedule(Pair(m, h'))
  }

  // ---- What the answer means, as a statement about the history ----

  /** No response was observed at or after position `from`. */
  ghost predicate Silent(history: seq<Observation>, from: nat) {
    forall k | from <= k < |history| :: !history[k].Responded?
  }

  /** Offline was signalled, or the tab started offline, and nothing has got through since. */
  ghost predicate OfflineSinceLastResponse(startOnline: bool, history: seq<Observation>) {
    || (!startOnline && Silent(history, 0))
    || (exists i | 0 <= i < |history| :: history[i].WentOffline? && Silent(history, i))
  }

  /** Two real failures, aborts not counted, and nothing has got through since the first. */
  ghost predicate TwoFailuresSinceLastResponse(history: seq<Observation>) {
    exists i, j | 0 <= i < j < |history| ::
      history[i] == Failed(false) && history[j] == Failed(false) && Silent(history, i)
  }

  /** `t` is when the newest response arrived. */
  ghost predicate LastResponse(history: seq<Observation>, t: int) {
    exists i | 0 <= i < |history| :: history[i] == Responded(t) && Silent(history, i + 1)
  }

  /** The cells of a monitor hold exactly what its history says. */
  ghost predicate CellsMatchHistory(m: Cells) {
    && (!m.online <==> OfflineSinceLastResponse(m.startOnline, m.history))
    && (m.failures >= 1 <==> exists i | 0 <= i < |m.history| :: m.history[i] == Failed(false) && Silent(m.history, i))
    && (m.failures >= 2 <==> TwoFailuresSinceLastResponse(m.history))
    && (m.lastOkAt.None? <==> Silent(m.history, 0))
    && (m.lastOkAt.Some? ==> LastResponse(m.history, m.lastOkAt.value))
  }

  lemma SilentExtends(h: seq<Observation>, o: Observation, from: nat)
    requires from <= |h|
    ensures Silent(h + [o], from) <==> Silent(h, from) && !o.Responded?
  {
    var g := h + [o];
    assert g[|h|] == o;
    if Silent(g, from) {
      forall k | from <= k < |h| ensures !h[k].Responded? { assert g[k] == h[k]; }
    }
  }

  /** One more observation, and the cells it changes, keep the correspondence. */
  lemma ObservationKeepsCells(m: Cells, o: Observation)
    requires CellsMatchHistory(m)
    ensures CellsMatchHistory(After(m, o))
  {
    var m' := After(m, o);
    var h, g := m.history, m'.history;
    forall from: nat | from <= |h| ensures Silent(g, from) <==> Silent(h, from) && !o.Responded? {
      SilentExtends(h, o, from);
    }
    if o.Responded? {
      assert g[|h|] == o && Silent(g, |g|);
      assert LastResponse(g, o.at);
    } else {
      OfflineKept(m, o, m');
      ResponseKept(m, o, m');
      FailuresKept(m, o, m');
    }
  }

  lemma OfflineKept(m: Cells, o: Observation, m': Cells)
    requires CellsMatchHistory(m) && !o.Responded? && m' == After(m, o)
    ensures !m'.online <==> OfflineSinceLastResponse(m'.startOnline, m'.history)
  {
    var h, g := m.history, m'.history;
    var n := |h|;
    assert g[n] == o;
    assert forall k | 0 <= k < n :: g[k] == h[k];
    forall from: nat | from <= n ensures Silent(g, from) <==> Silent(h, from) { SilentExtends(h, o, from); }
    if OfflineSinceLastResponse(m.startOnline, h) && m.startOnline {
      var i :| 0 <= i < n && h[i].WentOffline? && Silent(h, i);
      assert g[i].WentOffline? && Silent(g, i);
    }
    if o.WentOffline? {
      assert g[n].WentOffline? && Silent(g, n);
    }
  }

  lemma ResponseKept(m: Cells, o: Observation, m': Cells)
    requires CellsMatchHistory(m) && !o.Responded? && m' == After(m, o)
    ensures m'.lastOkAt.None? <==> Silent(m'.history, 0)
    ensures m'.lastOkAt.Some? ==> LastResponse(m'.history, m'.lastOkAt.value)
  {
    var h, g := m.history, m'.history;
    SilentExtends(h, o, 0);
    if m.lastOkAt.Some? {
      var i :| 0 <= i < |h| && h[i] == Responded(m.lastOkAt.value) && Silent(h, i + 1);
      SilentExtends(h, o, i + 1);
      assert g[i] == Responded(m.lastOkAt.value) && Silent(g, i + 1);
    }
  }

  lemma FailuresKept(m: Cells, o: Observation, m': Cells)
    requires CellsMatchHistory(m) && !o.Responded?
    requires m'.history == m.history + [o]
    requires m'.failures == m.failures + (if o == Failed(false) then 1 else 0)
    ensures m'.failures >= 1 <==>
              exists i | 0 <= i < |m'.history| :: m'.history[i] == Failed(false) && Silent(m'.history, i)
    ensures m'.failures >= 2 <==> TwoFailuresSinceLastResponse(m'.history)
  {
    var h, g := m.history, m'.history;
    var n := |h|;
    assert g[n] == o;
    assert forall k | 0 <= k < n :: g[k] == h[k];
    forall from: nat | from <= n ensures Silent(g, from) <==> Silent(h, from) { SilentExtends(h, o, from); }
    if m.failures >= 1 {
      var i :| 0 <= i < n && h[i] == Failed(false) && Silent(h, i);
      assert g[i] == Failed(false) && Silent(g, i);
      if o == Failed(false) {
        assert g[i] == Failed(false) && g[n] == Failed(false) && Silent(g, i);
      }
    }
    if m.failures >= 2 {
      var i, j :| 0 <= i < j < n && h[i] == Failed(false) && h[j] == Failed(false) && Silent(h, i);
      assert g[i] == Failed(false) && g[j] == Failed(false) && Silent(g, i);
    }
    if o == Failed(false) {
      assert g[n] == Failed(false) && Silent(g, n);
    }
    if TwoFailuresSinceLastResponse(g) {
      var i, j :| 0 <= i < j < |g| && g[i] == Failed(false) && g[j] == Failed(false) && Silent(g, i);
      assert h[i] == Failed(false) && Silent(h, i);
      if j < n {
        assert h[j] == Failed(false);
        assert TwoFailuresSinceLastResponse(h);
      }
    }
  }
}
