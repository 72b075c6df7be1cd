/** What holds of every run of a page, stated about the monitors' own answers. */
module PageTheorems {
  import opened Wrappers
  import opened Connection
  import opened Page

  // ---- Timers ----

  lemma FreshInv(w: World, events: seq<Event>)
    requires Fresh(w)
    ensures Inv(Run(w, events))
  {
    RunKeeps(w, events);
  }

  /** The stored view is the judgement of the current cells, and the host polls exactly while it is lost. */
  lemma PollsExactlyWhileLost(w: World, events: seq<Event>, i: nat)
    requires Fresh(w)
    requires i < |Run(w, events).mons|
    ensures var w' := Run(w, events); var m := w'.mons[i];
            && m.last == ConnectionView(m.Snap())
            && |set t | t in w'.host.timers && w'.host.timers[t] == Some(i)| ==
               if !m.stopped && m.last.lost then 1 else 0
  {
    FreshInv(w, events);
    var w' := Run(w, events);
    var m := w'.mons[i];
    assert m.id == i && MonInv(m, w'.host);
    var live := set t | t in w'.host.timers && w'.host.timers[t] == Some(i);
    if m.cancelProbes.Some? {
      assert live == {m.cancelProbes.value};
    } else {
      assert live == {};
    }
  }

  lemma StepStaysStopped(w: World, e: Event, i: nat)
    requires i < |w.mons| && w.mons[i].stopped
    ensures i < |Step(w, e).mons| && Step(w, e).mons[i].stopped
  {
    match e
    case Request(watched) => if w.host.fetch.Some? { CallOnlyCounts(w, w.host.fetch.value, watched); }
    case Probe(j) =>
      if j < |w.mons| && w.mons[j].underlying.Some? { CallOnlyCounts(w, w.mons[j].underlying.value, false); }
    case Fire(id) =>
      if id in w.host.handlers && w.host.handlers[id].owner.Some? && w.host.handlers[id].owner.value < |w.mons| {
        var m := w.mons[w.host.handlers[id].owner.value];
        if m.underlying.Some? { CallOnlyCounts(w, m.underlying.value, false); }
      }
    case Tick(t) =>
      if t in w.host.timers && w.host.timers[t].Some? && w.host.timers[t].value < |w.mons| {
        var m := w.mons[w.host.timers[t].value];
        if m.underlying.Some? { CallOnlyCounts(w, m.underlying.value, false); }
      }
    case _ =>
  }

  lemma {:induction false} RunStaysStopped(w: World, events: seq<Event>, i: nat)
    requires i < |w.mons| && w.mons[i].stopped
    ensures i < |Run(w, events).mons| && Run(w, events).mons[i].stopped
    decreases |events|
  {
    if events != [] {
      StepStaysStopped(w, events[0], i);
      RunStaysStopped(Step(w, events[0]), events[1..], i);
    }
  }

  lemma {:induction false} RunConcat(w: World, before: seq<Event>, after: seq<Event>)
    ensures Run(w, before + after) == Run(Run(w, before), after)
    decreases |before|
  {
    if before == [] {
      assert before + after == after;
    } else {
      assert (before + after)[0] == before[0] && (before + after)[1..] == before[1..] + after;
      RunConcat(Step(w, before[0]), before[1..], after);
    }
  }

  /** After `stop()`, whatever is still in flight: no timer of that monitor is live in any later state. */
  lemma NeverArmedAfterStop(w: World, before: seq<Event>, i: nat, after: seq<Event>)
    requires Fresh(w)
    requires i < |Run(w, before).mons|
    ensures var w' := Run(w, before + [Stopped(i)] + after);
            forall t <- w'.host.timers :: w'.host.timers[t] != Some(i)
  {
    var w1 := Run(w, before);
    RunConcat(w, before + [Stopped(i)], after);
    RunConcat(w, before, [Stopped(i)]);
    assert Run(w1, [Stopped(i)]) == Step(w1, Stopped(i));
    RunStaysStopped(Step(w1, Stopped(i)), after, i);
    FreshInv(w, before + [Stopped(i)] + after);
    assert MonInv(Run(w, before + [Stopped(i)] + after).mons[i], Run(w, before + [Stopped(i)] + after).host);
  }

  // ---- The history ----

  ghost predicate Remembers(w: World) {
    forall i | 0 <= i < |w.mons| :: CellsMatchHistory(w.mons[i].Heard())
  }

  lemma PublishHeard(p: Pair)
    ensures Publish(p).m.Heard() == p.m.Heard() && Publish(p).m.loadedAt == p.m.loadedAt
  {
  }

  lemma ObservedHeard(m: Mon, o: Observation)
    ensures Observed(m, o).Heard() == After(m.Heard(), o) && Observed(m, o).loadedAt == m.loadedAt
  {
  }

  lemma SettleHeard(p: Pair, outcome: Outcome)
    ensures Settle(p, outcome).m.Heard() ==
            if p.m.pending > 0 then After(p.m.Heard(), Seen(outcome, p.h.clock)) else p.m.Heard()
    ensures Settle(p, outcome).m.loadedAt == p.m.loadedAt
  {
    if p.m.pending > 0 {
      ObservedHeard(p.m.(pending := p.m.pending - 1), Seen(outcome, p.h.clock));
      PublishHeard(Landed(p, outcome));
    }
  }

  lemma OfflineHeard(p: Pair)
    ensures OnOffline(p).m.Heard() == After(p.m.Heard(), WentOffline) && OnOffline(p).m.loadedAt == p.m.loadedAt
  {
    ObservedHeard(p.m, WentOffline);
    PublishHeard(p.(m := Observed(p.m, WentOffline)));
  }

  /** What event `e` shows monitor `i`: a request of its settles, or its offline handler fires. */
  function Shows(w: World, e: Event, i: nat): seq<Observation>
    requires i < |w.mons|
  {
    match e
    case Settled(j, outcome) => if j == i && w.mons[i].pending > 0 then [Seen(outcome, w.host.clock)] else []
    case Fire(id) =>
      if id in w.host.handlers && w.host.handlers[id] == Handler(Some(i), Offline) then [WentOffline] else []
    case _ => []
  }

  /** What a run shows monitor `i`, in order; a monitor sees nothing before it is created. */
  function Observations(w: World, events: seq<Event>, i: nat): seq<Observation>
    decreases |events|
  {
    if events == [] then []
    else (if i < |w.mons| then Shows(w, events[0], i) else []) + Observations(Step(w, events[0]), events[1..], i)
  }

  function AfterAll(c: Cells, seen: seq<Observation>): Cells
    decreases |seen|
  {
    if seen == [] then c else AfterAll(After(c, seen[0]), seen[1..])
  }

  lemma FireHeard(w: World, id: nat, i: nat)
    requires i < |w.mons|
    ensures i < |Step(w, Fire(id)).mons|
    ensures Step(w, Fire(id)).mons[i].Heard() == AfterAll(w.mons[i].Heard(), Shows(w, Fire(id), i))
    ensures Step(w, Fire(id)).mons[i].loadedAt == w.mons[i].loadedAt
  {
    if id in w.host.handlers && w.host.handlers[id].owner.Some? && w.host.handlers[id].owner.value < |w.mons| {
      var j := w.host.handlers[id].owner.value;
      ProbeOnlyCounts(w, j);
      OfflineHeard(At(w, j));
    }
  }

  /** A step changes a monitor's cells by exactly what it shows that monitor. */
  lemma StepHeard(w: World, e: Event, i: nat)
    requires i < |w.mons|
    ensures i < |Step(w, e).mons|
    ensures Step(w, e).mons[i].Heard() == AfterAll(w.mons[i].Heard(), Shows(w, e, i))
    ensures Step(w, e).mons[i].loadedAt == w.mons[i].loadedAt
  {
    match e
    case Request(watched) => if w.host.fetch.Some? { CallOnlyCounts(w, w.host.fetch.value, watched); }
    case Settled(j, outcome) => if j < |w.mons| { SettleHeard(At(w, j), outcome); }
    case Probe(j) => if j < |w.mons| { ProbeOnlyCounts(w, j); }
    case Fire(id) => FireHeard(w, id, i);
    case Tick(t) =>
      if t in w.host.timers && w.host.timers[t].Some? && w.host.timers[t].value < |w.mons| {
        ProbeOnlyCounts(w, w.host.timers[t].value);
      }
    case _ =>
  }

  /** The history a monitor keeps is what the run showed it. */
  lemma {:induction false} HistoryIsWhatWasShown(w: World, events: seq<Event>, i: nat)
    requires i < |Run(w, events).mons|
    ensures Run(w, events).mons[i].history == (if i < |w.mons| then w.mons[i].history else [])
            + Observations(w, events, i)
    decreases |events|
  {
    if events != [] {
      var w' := Step(w, events[0]);
      HistoryIsWhatWasShown(w', events[1..], i);
      StepAddsFreshOnly(w, events[0]);
      if i < |w.mons| {
        StepHeard(w, events[0], i);
        assert w'.mons[i].history == w'.mons[i].Heard().history == w.mons[i].history + Shows(w, events[0], i);
      } else if i >= |w'.mons| {
        assert i < |Run(w', events[1..]).mons|;
      }
    }
  }

  lemma ProbeOnlyCounts(w: World, i: nat)
    requires i < |w.mons|
    ensures |ProbeOf(w, i).mons| == |w.mons|
    ensures forall j | 0 <= j < |w.mons| ::
              ProbeOf(w, i).mons[j] == w.mons[j].(pending := ProbeOf(w, i).mons[j].pending)
  {
    if w.mons[i].underlying.Some? { CallOnlyCounts(w, w.mons[i].underlying.value, false); }
  }

  lemma StepRemembers(w: World, e: Event)
    requires Remembers(w)
    ensures Remembers(Step(w, e))
  {
    forall i | 0 <= i < |Step(w, e).mons| ensures CellsMatchHistory(Step(w, e).mons[i].Heard()) {
      if i < |w.mons| {
        StepHeard(w, e, i);
        if Shows(w, e, i) != [] { ObservationKeepsCells(w.mons[i].Heard(), Shows(w, e, i)[0]); }
      }
    }
  }

  lemma {:induction false} RunRemembers(w: World, events: seq<Event>)
    requires Remembers(w)
    ensures Remembers(Run(w, events))
    decreases |events|
  {
    if events != [] {
      StepRemembers(w, events[0]);
      RunRemembers(Step(w, events[0]), events[1..]);
    }
  }

  // ---- How monitors begin ----

  /** For each monitor a run creates: when its page was loaded, and whether the browser called itself online then. */
  datatype Birth = Birth(loadedAt: int, online: bool)

  function Births(online: bool, events: seq<Event>): seq<Birth>
    decreases |events|
  {
    if events == [] then []
    else match events[0]
      case Create(loadedAt) => [Birth(loadedAt, online)] + Births(online, events[1..])
      case Navigator(now) => Births(now, events[1..])
      case _ => Births(online, events[1..])
  }

  ghost predicate BornAs(m: Mon, b: Birth) {
    m.loadedAt == b.loadedAt && m.startOnline == b.online
  }

  lemma {:induction false} UnwindKeepsOnline(h: HostState, undo: seq<Undo>)
    ensures Unwind(h, undo).online == h.online
    decreases |undo|
  {
    if undo != [] {
      var h' := match undo[|undo| - 1]
                case RestoreFetch(f) => h.(fetch := Some(f))
                case Unlisten(id) => h.(handlers := h.handlers - {id});
      UnwindKeepsOnline(h', undo[..|undo| - 1]);
    }
  }

  lemma StepOnline(w: World, e: Event)
    ensures Step(w, e).host.online == if e.Navigator? then e.online else w.host.online
  {
    match e
    case Stopped(i) =>
      if i < |w.mons| {
        var m := w.mons[i];
        var timers := if m.cancelProbes.Some? then w.host.timers - {m.cancelProbes.value} else w.host.timers;
        UnwindKeepsOnline(w.host.(timers := timers), m.undo);
      }
    case _ =>
  }

  lemma {:induction false} AfterAllKeepsStart(c: Cells, seen: seq<Observation>)
    ensures AfterAll(c, seen).startOnline == c.startOnline
    decreases |seen|
  {
    if seen != [] { AfterAllKeepsStart(After(c, seen[0]), seen[1..]); }
  }

  lemma StepKeepsBirth(w: World, e: Event, i: nat)
    requires i < |w.mons|
    ensures i < |Step(w, e).mons|
    ensures Step(w, e).mons[i].loadedAt == w.mons[i].loadedAt
    ensures Step(w, e).mons[i].startOnline == w.mons[i].startOnline
  {
    StepHeard(w, e, i);
    AfterAllKeepsStart(w.mons[i].Heard(), Shows(w, e, i));
    assert Step(w, e).mons[i].startOnline == Step(w, e).mons[i].Heard().startOnline;
  }

  /** The monitors of a run are those it creates, in order, each as its page and browser were just then. */
  lemma {:induction false} MonitorsAreBorn(w: World, events: seq<Event>, i: nat)
    ensures |Run(w, events).mons| == |w.mons| + |Births(w.host.online, events)|
    ensures i < |w.mons| ==> Run(w, events).mons[i].loadedAt == w.mons[i].loadedAt
                             && Run(w, events).mons[i].startOnline == w.mons[i].startOnline
    ensures |w.mons| <= i < |Run(w, events).mons| ==>
              BornAs(Run(w, events).mons[i], Births(w.host.online, events)[i - |w.mons|])
    decreases |events|
  {
    if events != [] {
      var e := events[0];
      MonitorsAreBorn(Step(w, e), events[1..], i);
      StepAddsFreshOnly(w, e);
      StepOnline(w, e);
      if i < |w.mons| { StepKeepsBirth(w, e, i); }
    }
  }

  /** The answer for a monitor born as `b` that was shown `seen`: lost when offline was signalled, or held from the
      start, or two real failures came, with no response since; and data as old as the newer of the page and the last
      response. */
  ghost predicate Follows(b: Birth, seen: seq<Observation>, view: View) {
    && (view.lost <==> OfflineSinceLastResponse(b.online, seen) || TwoFailuresSinceLastResponse(seen))
    && (Silent(seen, 0) ==> view.dataAt == b.loadedAt)
    && (!Silent(seen, 0) ==> exists t :: LastResponse(seen, t) && view.dataAt == Larger(t, b.loadedAt))
  }

  /** The banner's answer is a function of what the run showed the monitor, whatever the interleaving. */
  lemma RefinesItsHistory(w: World, events: seq<Event>, i: nat)
    requires Fresh(w)
    requires i < |Run(w, events).mons|
    ensures i < |Births(w.host.online, events)|
    ensures Follows(Births(w.host.online, events)[i], Observations(w, events, i), Run(w, events).mons[i].last)
  {
    BornAndShown(w, events, i);
    CellsAndView(w, events, i);
    ViewFollowsHistory(Run(w, events).mons[i]);
  }

  lemma BornAndShown(w: World, events: seq<Event>, i: nat)
    requires Fresh(w)
    requires i < |Run(w, events).mons|
    ensures i < |Births(w.host.online, events)| && BornAs(Run(w, events).mons[i], Births(w.host.online, events)[i])
    ensures Run(w, events).mons[i].history == Observations(w, events, i)
  {
    MonitorsAreBorn(w, events, i);
    HistoryIsWhatWasShown(w, events, i);
    assert [] + Observations(w, events, i) == Observations(w, events, i);
  }

  lemma CellsAndView(w: World, events: seq<Event>, i: nat)
    requires Fresh(w)
    requires i < |Run(w, events).mons|
    ensures var m := Run(w, events).mons[i]; CellsMatchHistory(m.Heard()) && m.last == ConnectionView(m.Snap())
  {
    FreshInv(w, events);
    RunRemembers(w, events);
    assert MonInv(Run(w, events).mons[i], Run(w, events).host);
  }

  /** A monitor whose cells match its history, and whose view follows its cells, shows what its history says. */
  lemma ViewFollowsHistory(m: Mon)
    requires CellsMatchHistory(m.Heard()) && m.last == ConnectionView(m.Snap())
    ensures Follows(Birth(m.loadedAt, m.startOnline), m.history, m.last)
  {
    if m.lastOkAt.Some? {
      assert LastResponse(m.history, m.lastOkAt.value);
    }
  }

  /** A lost connection is only ever declared back by something that got through. */
  lemma OnlyAResponseClears(w: World, e: Event, i: nat)
    requires Inv(w) && i < |w.mons|
    requires w.mons[i].last.lost && !Step(w, e).mons[i].last.lost
    ensures e == Settled(i, Response) && w.mons[i].pending > 0
  {
    StepKeeps(w, e);
    StepHeard(w, e, i);
    assert MonInv(w.mons[i], w.host) && MonInv(Step(w, e).mons[i], Step(w, e).host);
  }

  /** The clock never runs backwards along the run. */
  ghost predicate ClockForward(w: World, events: seq<Event>)
    decreases |events|
  {
    events == [] ||
    ((events[0].Advance? ==> w.host.clock <= events[0].to) && ClockForward(Step(w, events[0]), events[1..]))
  }

  ghost predicate NothingFromTheFuture(w: World) {
    forall i | 0 <= i < |w.mons| :: w.mons[i].lastOkAt.Some? ==> w.mons[i].lastOkAt.value <= w.host.clock
  }

  lemma StepClock(w: World, e: Event)
    requires Inv(w)
    ensures Step(w, e).host.clock == if e.Advance? then e.to else w.host.clock
  {
    match e
    case Stopped(i) => if i < |w.mons| { StopEffect(w, i); }
    case Settled(i, outcome) =>
      if i < |w.mons| && w.mons[i].pending > 0 { PublishKeepsClock(Landed(At(w, i), outcome)); }
    case Fire(id) =>
      if id in w.host.handlers && w.host.handlers[id].owner.Some? && w.host.handlers[id].owner.value < |w.mons| {
        var m := w.mons[w.host.handlers[id].owner.value];
        PublishKeepsClock(Pair(Observed(m, WentOffline), w.host));
      }
    case _ =>
  }

  lemma PublishKeepsClock(p: Pair)
    ensures Publish(p).h.clock == p.h.clock
  {
  }

  /** A response is not forgotten but for one that came no earlier. */
  ghost predicate NoOlder(was: Option<int>, lastOkAt: Option<int>) {
    was.Some? ==> lastOkAt.Some? && was.value <= lastOkAt.value
  }

  /** A step shows a monitor at most one thing, and a response no earlier than now. */
  lemma ShownNow(w: World, e: Event, i: nat)
    requires i < |w.mons|
    ensures var seen := Shows(w, e, i);
            seen == [] || (|seen| == 1 && (seen[0].Responded? ==> seen[0].at == w.host.clock))
  {
  }

  lemma NowIsNoOlder(c: Cells, seen: seq<Observation>, now: int)
    requires c.lastOkAt.Some? ==> c.lastOkAt.value <= now
    requires seen == [] || (|seen| == 1 && (seen[0].Responded? ==> seen[0].at == now))
    ensures NoOlder(c.lastOkAt, AfterAll(c, seen).lastOkAt)
  {
    if seen != [] {
      assert AfterAll(c, seen) == AfterAll(After(c, seen[0]), []) == After(c, seen[0]);
    }
  }

  lemma StepNeverAgesData(w: World, e: Event, i: nat)
    requires Inv(w) && NothingFromTheFuture(w) && (e.Advance? ==> w.host.clock <= e.to)
    requires i < |w.mons|
    ensures i < |Step(w, e).mons|
    ensures w.mons[i].last.dataAt <= Step(w, e).mons[i].last.dataAt
  {
    StepKeeps(w, e);
    StepHeard(w, e, i);
    ShownNow(w, e, i);
    var m, m' := w.mons[i], Step(w, e).mons[i];
    NowIsNoOlder(m.Heard(), Shows(w, e, i), w.host.clock);
    assert MonInv(m, w.host) && MonInv(m', Step(w, e).host);
    NoOlderShownNoOlder(m.Snap(), m'.Snap());
  }

  lemma NoOlderShownNoOlder(s: Snapshot, s': Snapshot)
    requires s.loadedAt == s'.loadedAt
    requires NoOlder(s.lastOkAt, s'.lastOkAt)
    ensures ConnectionView(s).dataAt <= ConnectionView(s').dataAt
  {
  }

  lemma HeardInTime(w: World, e: Event, i: nat)
    requires Inv(w) && NothingFromTheFuture(w) && (e.Advance? ==> w.host.clock <= e.to)
    requires i < |w.mons|
    ensures i < |Step(w, e).mons|
    ensures var m := Step(w, e).mons[i]; m.lastOkAt.Some? ==> m.lastOkAt.value <= Step(w, e).host.clock
  {
    StepClock(w, e);
    StepHeard(w, e, i);
    assert Step(w, e).mons[i].lastOkAt == Step(w, e).mons[i].Heard().lastOkAt;
  }

  lemma StepNothingFromTheFuture(w: World, e: Event)
    requires Inv(w) && NothingFromTheFuture(w) && (e.Advance? ==> w.host.clock <= e.to)
    ensures NothingFromTheFuture(Step(w, e))
  {
    forall j | 0 <= j < |w.mons| { HeardInTime(w, e, j); }
    StepAddsFreshOnly(w, e);
  }

  lemma StepAddsFreshOnly(w: World, e: Event)
    ensures |Step(w, e).mons| == |w.mons| + if e.Create? then 1 else 0
    ensures e.Create? ==> Step(w, e).mons[|w.mons|].lastOkAt.None?
  {
  }

  lemma {:induction false} DataOnlyGetsNewer(w: World, events: seq<Event>, i: nat)
    requires Inv(w) && NothingFromTheFuture(w) && ClockForward(w, events)
    requires i < |w.mons|
    ensures i < |Run(w, events).mons|
    ensures w.mons[i].last.dataAt <= Run(w, events).mons[i].last.dataAt
    decreases |events|
  {
    if events != [] {
      StepKeeps(w, events[0]);
      StepNothingFromTheFuture(w, events[0]);
      StepNeverAgesData(w, events[0], i);
      DataOnlyGetsNewer(Step(w, events[0]), events[1..], i);
    }
  }

  lemma {:induction false} RunStaysInThePast(w: World, events: seq<Event>, after: seq<Event>)
    requires Inv(w) && NothingFromTheFuture(w) && ClockForward(w, events + after)
    ensures Inv(Run(w, events)) && NothingFromTheFuture(Run(w, events)) && ClockForward(Run(w, events), after)
    decreases |events|
  {
    if events == [] {
      assert events + after == after;
    } else {
      assert (events + after)[0] == events[0] && (events + after)[1..] == events[1..] + after;
      StepKeeps(w, events[0]);
      StepNothingFromTheFuture(w, events[0]);
      RunStaysInThePast(Step(w, events[0]), events[1..], after);
    }
  }

  /** From any point of a run on a page, the data a monitor dates never gets older, as long as the clock does not run
      backwards. */
  lemma DataNeverGetsOlder(w: World, before: seq<Event>, after: seq<Event>, i: nat)
    requires Fresh(w) && ClockForward(w, before + after)
    requires i < |Run(w, before).mons|
    ensures i < |Run(w, before + after).mons|
    ensures Run(w, before).mons[i].last.dataAt <= Run(w, before + after).mons[i].last.dataAt
  {
    RunStaysInThePast(w, before, after);
    RunConcat(w, before, after);
    DataOnlyGetsNewer(Run(w, before), after, i);
  }

  // ---- Subscribers ----

  /** Every live subscriber holds the current view, and was never told the same thing twice running. */
  lemma SubscribersStayInStep(w: World, events: seq<Event>, i: nat, l: nat)
    requires Fresh(w)
    requires i < |Run(w, events).mons| && l in Run(w, events).mons[i].listeners
    ensures var m := Run(w, events).mons[i];
            && l in m.inbox && m.inbox[l] != []
            && m.inbox[l][|m.inbox[l]| - 1] == m.last
            && forall k | 0 < k < |m.inbox[l]| :: m.inbox[l][k - 1] != m.inbox[l][k]
  {
    FreshInv(w, events);
    assert MonInv(Run(w, events).mons[i], Run(w, events).host);
  }
}
