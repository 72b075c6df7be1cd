/** What a page sends and hears: probes, the answers owed for them, and the views its subscribers are handed. */
module PageProbes {
  import opened Wrappers
  import opened Sequences
  import opened Connection
  import opened Page
  import opened PageTheorems
  import opened PageTeardown

  // ---- Probes ----

  /** Only the browser's own fetch was called once more, and monitor `i` is owed one more answer. */
  ghost predicate SentOne(w: World, w': World, i: nat)
    requires i < |w.mons|
  {
    w' == w.(calls := w.calls + 1, mons := w.mons[i := w.mons[i].(pending := w.mons[i].pending + 1)])
  }

  ghost predicate CanProbe(m: Mon) {
    !m.stopped && m.underlying.Some?
  }

  /** Monitor `i` is asked to probe: by its own timer, by the browser coming online, or by the page. */
  ghost predicate AsksToProbe(w: World, e: Event, i: nat) {
    || e == Probe(i)
    || (e.Tick? && e.timer in w.host.timers && w.host.timers[e.timer] == Some(i))
    || (e.Fire? && e.handler in w.host.handlers && w.host.handlers[e.handler] == Handler(Some(i), Online))
  }

  /** Each of the three sends one request from a running monitor on a page with a fetch, and changes nothing else; from
      any other monitor it changes nothing at all. */
  lemma ProbeGoesOut(w: World, e: Event, i: nat)
    requires i < |w.mons| && AsksToProbe(w, e, i)
    ensures if CanProbe(w.mons[i]) then SentOne(w, Step(w, e), i) else Step(w, e) == w
  {
    assert Step(w, e) == ProbeOf(w, i);
    if CanProbe(w.mons[i]) {
      var w' := Call(w, w.mons[i].underlying.value, false);
      OneCallThroughAllLayers(w, w.mons[i].underlying.value, false);
      CallKeepsHost(w, w.mons[i].underlying.value, false);
      assert w'.mons == w.mons;
    }
  }

  lemma CallKeepsHost(w: World, f: Fetch, watched: bool)
    ensures Call(w, f, watched).host == w.host
  {
  }

  lemma SentOneKeeps(w: World, w': World, i: nat)
    requires Inv(w) && i < |w.mons| && SentOne(w, w', i)
    ensures Inv(w')
  {
    PendingIsFree(w, w');
  }

  /** A probe that is answered ends the loss, and the polling with it. */
  lemma AnsweredProbeClears(w: World, e: Event, i: nat)
    requires Inv(w) && i < |w.mons| && AsksToProbe(w, e, i) && CanProbe(w.mons[i])
    ensures var w' := Step(Step(w, e), Settled(i, Response));
            && i < |w'.mons| && !w'.mons[i].last.lost
            && forall t <- w'.host.timers :: w'.host.timers[t] != Some(i)
  {
    ProbeGoesOut(w, e, i);
    var sent := Step(w, e);
    SentOneKeeps(w, sent, i);
    var w' := Step(sent, Settled(i, Response));
    StepKeeps(sent, Settled(i, Response));
    StepHeard(sent, Settled(i, Response), i);
    var seen := [Responded(sent.host.clock)];
    assert Shows(sent, Settled(i, Response), i) == seen;
    assert AfterAll(sent.mons[i].Heard(), seen) == AfterAll(After(sent.mons[i].Heard(), seen[0]), seen[1..]);
    assert MonInv(w'.mons[i], w'.host) && w'.mons[i].id == i;
    assert w'.mons[i].Heard().failures == 0 && w'.mons[i].Heard().online;
  }

  /** A lost tab always has a way back: in every state of every run one timer of a lost running monitor is live, its
      tick sends a probe, and the answer takes the loss back. */
  lemma LostTabFindsOut(w: World, events: seq<Event>, i: nat)
    requires Fresh(w)
    requires i < |Run(w, events).mons|
    requires var m := Run(w, events).mons[i]; m.last.lost && CanProbe(m)
    ensures var w' := Run(w, events);
            exists t <- w'.host.timers ::
              && w'.host.timers[t] == Some(i) && SentOne(w', Step(w', Tick(t)), i)
              && !Step(Step(w', Tick(t)), Settled(i, Response)).mons[i].last.lost
  {
    FreshInv(w, events);
    var w' := Run(w, events);
    assert w'.mons[i].id == i && MonInv(w'.mons[i], w'.host);
    var t := w'.mons[i].cancelProbes.value;
    assert AsksToProbe(w', Tick(t), i);
    ProbeGoesOut(w', Tick(t), i);
    AnsweredProbeClears(w', Tick(t), i);
  }

  // ---- Every answer is owed, and owed once ----

  /** How many answers event `e` makes monitor `i` wait for. */
  ghost function Owes(w: World, e: Event, i: nat): nat
    requires i < |w.mons|
  {
    if e.Request? then if e.watched && w.host.fetch.Some? then Layers(w.host.fetch.value, i) else 0
    else if AsksToProbe(w, e, i) && CanProbe(w.mons[i]) then 1
    else 0
  }

  ghost function OwedBy(w: World, events: seq<Event>, i: nat): nat
    decreases |events|
  {
    if events == [] then 0
    else (if i < |w.mons| then Owes(w, events[0], i) else 0) + OwedBy(Step(w, events[0]), events[1..], i)
  }

  /** How often the browser's own fetch is called. */
  ghost function Sends(w: World, e: Event): nat {
    if e.Request? then if w.host.fetch.Some? then 1 else 0
    else if exists i: nat :: i < |w.mons| && AsksToProbe(w, e, i) && CanProbe(w.mons[i]) then 1
    else 0
  }

  ghost function SentBy(w: World, events: seq<Event>): nat
    decreases |events|
  {
    if events == [] then 0 else Sends(w, events[0]) + SentBy(Step(w, events[0]), events[1..])
  }

  function Answers(history: seq<Observation>): nat {
    if history == [] then 0
    else Answers(history[..|history| - 1]) + if history[|history| - 1].WentOffline? then 0 else 1
  }

  lemma AnswersAfter(history: seq<Observation>, o: Observation)
    ensures Answers(history + [o]) == Answers(history) + if o.WentOffline? then 0 else 1
  {
    assert (history + [o])[..|history|] == history;
  }

  ghost predicate Probing(w: World, e: Event) {
    exists i: nat :: i < |w.mons| && AsksToProbe(w, e, i)
  }

  lemma SettledPending(w: World, e: Event, i: nat)
    requires i < |w.mons| && e.Settled?
    ensures i < |Step(w, e).mons|
    ensures Step(w, e).mons[i].pending == w.mons[i].pending - if e.m == i && w.mons[i].pending > 0 then 1 else 0
  {
  }

  /** An event that asks nobody to probe and settles nothing leaves what a monitor is owed alone. */
  lemma QuietStep(w: World, e: Event, i: nat)
    requires i < |w.mons| && !e.Request? && !e.Settled? && !Probing(w, e)
    ensures i < |Step(w, e).mons| && Step(w, e).mons[i].pending == w.mons[i].pending
  {
    match e
    case Probe(j) => assert j < |w.mons| ==> AsksToProbe(w, e, j);
    case Tick(t) =>
      if t in w.host.timers && w.host.timers[t].Some? { assert AsksToProbe(w, e, w.host.timers[t].value); }
    case Fire(id) =>
      if id in w.host.handlers && w.host.handlers[id].owner.Some? && w.host.handlers[id].event.Online? {
        assert AsksToProbe(w, e, w.host.handlers[id].owner.value);
      }
    case _ =>
  }

  lemma QuietCalls(w: World, e: Event)
    requires !e.Request? && !Probing(w, e)
    ensures Step(w, e).calls == w.calls
  {
    match e
    case Probe(j) => assert j < |w.mons| ==> AsksToProbe(w, e, j);
    case Tick(t) =>
      if t in w.host.timers && w.host.timers[t].Some? { assert AsksToProbe(w, e, w.host.timers[t].value); }
    case Fire(id) =>
      if id in w.host.handlers && w.host.handlers[id].owner.Some? && w.host.handlers[id].event.Online? {
        assert AsksToProbe(w, e, w.host.handlers[id].owner.value);
      }
    case _ =>
  }

  lemma StepSends(w: World, e: Event)
    ensures Step(w, e).calls == w.calls + Sends(w, e)
  {
    if e.Request? {
      if w.host.fetch.Some? { OneCallThroughAllLayers(w, w.host.fetch.value, e.watched); }
    } else if Probing(w, e) {
      var i: nat :| i < |w.mons| && AsksToProbe(w, e, i);
      ProbeGoesOut(w, e, i);
    } else {
      QuietCalls(w, e);
    }
  }

  lemma StepPending(w: World, e: Event, i: nat)
    requires i < |w.mons|
    ensures i < |Step(w, e).mons|
    ensures Step(w, e).mons[i].pending ==
            w.mons[i].pending + Owes(w, e, i) - if e.Settled? && e.m == i && w.mons[i].pending > 0 then 1 else 0
  {
    if e.Request? {
      if w.host.fetch.Some? { OneCallThroughAllLayers(w, w.host.fetch.value, e.watched); }
    } else if Probing(w, e) {
      var j: nat :| j < |w.mons| && AsksToProbe(w, e, j);
      ProbeGoesOut(w, e, j);
    } else if e.Settled? {
      SettledPending(w, e, i);
    } else {
      QuietStep(w, e, i);
    }
  }

  lemma StepOwes(w: World, e: Event, i: nat)
    requires i < |w.mons|
    ensures i < |Step(w, e).mons|
    ensures Step(w, e).mons[i].pending + Answers(Step(w, e).mons[i].history) ==
            w.mons[i].pending + Answers(w.mons[i].history) + Owes(w, e, i)
  {
    StepPending(w, e, i);
    StepHeard(w, e, i);
    AnswersShown(w.mons[i].Heard(), Shows(w, e, i));
    ShowsAnAnswer(w, e, i);
    assert Step(w, e).mons[i].history == Step(w, e).mons[i].Heard().history;
  }

  lemma AnswersShown(c: Cells, seen: seq<Observation>)
    requires |seen| <= 1
    ensures Answers(AfterAll(c, seen).history) ==
            Answers(c.history) + if seen == [] || seen[0].WentOffline? then 0 else 1
  {
    if seen != [] {
      assert AfterAll(c, seen) == AfterAll(After(c, seen[0]), seen[1..]) == After(c, seen[0]);
      AnswersAfter(c.history, seen[0]);
    }
  }

  /** A monitor is shown an answer exactly when a request of its settles. */
  lemma ShowsAnAnswer(w: World, e: Event, i: nat)
    requires i < |w.mons|
    ensures var seen := Shows(w, e, i);
            |seen| <= 1
              && ((seen == [] || seen[0].WentOffline?) <==> !(e.Settled? && e.m == i && w.mons[i].pending > 0))
  {
  }

  lemma {:induction false} OwedAccountsFor(w: World, events: seq<Event>, i: nat)
    requires i < |Run(w, events).mons|
    ensures var m := Run(w, events).mons[i];
            m.pending + Answers(m.history) ==
            OwedBy(w, events, i) + if i < |w.mons| then w.mons[i].pending + Answers(w.mons[i].history) else 0
    decreases |events|
  {
    if events != [] {
      var w' := Step(w, events[0]);
      OwedAccountsFor(w', events[1..], i);
      if i < |w.mons| {
        StepOwes(w, events[0], i);
      } else if i < |w'.mons| {
        NewcomerIsOwedNothing(w, events[0], i);
      }
    }
  }

  lemma NewcomerIsOwedNothing(w: World, e: Event, i: nat)
    requires |w.mons| <= i < |Step(w, e).mons|
    ensures Step(w, e).mons[i].pending == 0 && Step(w, e).mons[i].history == []
  {
    StepAddsFreshOnly(w, e);
  }

  lemma {:induction false} CallsAccountFor(w: World, events: seq<Event>)
    ensures Run(w, events).calls == w.calls + SentBy(w, events)
    decreases |events|
  {
    if events != [] {
      StepSends(w, events[0]);
      CallsAccountFor(Step(w, events[0]), events[1..]);
    }
  }

  /** Over every run: nothing is answered that was not sent, nothing twice, and what is not answered is still owed. What
      a monitor was owed is one for each of its wrappers a watched request went through, and one for each of its probes;
      the browser's own fetch was called once for each request, however many wrappers, and once for each probe. */
  lemma EveryAnswerIsOwedOnce(w: World, events: seq<Event>, i: nat)
    requires Fresh(w)
    requires i < |Run(w, events).mons|
    ensures Run(w, events).mons[i].pending + Answers(Run(w, events).mons[i].history) == OwedBy(w, events, i)
    ensures Run(w, events).calls == w.calls + SentBy(w, events)
  {
    OwedAccountsFor(w, events, i);
    CallsAccountFor(w, events);
  }

  // ---- What subscribers hear ----

  /** The views monitor `i` comes to, one after the other. */
  function Changes(w: World, events: seq<Event>, i: nat): seq<View>
    decreases |events|
  {
    if events == [] || i >= |w.mons| then []
    else
      var w' := Step(w, events[0]);
      (if i < |w'.mons| && w'.mons[i].last != w.mons[i].last then [w'.mons[i].last] else [])
      + Changes(w', events[1..], i)
  }

  /** `e` does not touch the subscription of `l` at monitor `i`. */
  predicate LeavesSubscribed(e: Event, i: nat, l: nat) {
    e != Subscribed(i, l) && e != Unsubscribed(i, l) && e != Stopped(i)
  }

  /** `m'` is told of what changed, and of nothing else. */
  ghost predicate Told(m: Mon, m': Mon, l: nat) {
    && l in m'.listeners && l in m'.inbox && l in m.inbox
    && m'.inbox[l] == m.inbox[l] + if m'.last != m.last then [m'.last] else []
  }

  lemma PublishTells(p: Pair, l: nat)
    requires l in p.m.listeners && l in p.m.inbox
    ensures Told(p.m, Publish(p).m, l)
  {
  }

  lemma ProbeTellsNothing(w: World, i: nat, j: nat, l: nat)
    requires i < |w.mons| && j < |w.mons| && l in w.mons[i].listeners && l in w.mons[i].inbox
    ensures |ProbeOf(w, j).mons| == |w.mons| && Told(w.mons[i], ProbeOf(w, j).mons[i], l)
  {
    ProbeOnlyCounts(w, j);
  }

  lemma FireTells(w: World, id: nat, i: nat, l: nat)
    requires i < |w.mons| && l in w.mons[i].listeners && l in w.mons[i].inbox
    ensures i < |Step(w, Fire(id)).mons| && Told(w.mons[i], Step(w, Fire(id)).mons[i], l)
  {
    if id in w.host.handlers && w.host.handlers[id].owner.Some? && w.host.handlers[id].owner.value < |w.mons| {
      var j := w.host.handlers[id].owner.value;
      ProbeTellsNothing(w, i, j, l);
      if j == i { PublishTells(At(w, i).(m := Observed(w.mons[i], WentOffline)), l); }
    }
  }

  lemma SettledTells(w: World, e: Event, i: nat, l: nat)
    requires i < |w.mons| && l in w.mons[i].listeners && l in w.mons[i].inbox && e.Settled?
    ensures i < |Step(w, e).mons| && Told(w.mons[i], Step(w, e).mons[i], l)
  {
    if e.m == i && w.mons[i].pending > 0 { PublishTells(Landed(At(w, i), e.outcome), l); }
  }

  lemma StepTells(w: World, e: Event, i: nat, l: nat)
    requires i < |w.mons| && l in w.mons[i].listeners && l in w.mons[i].inbox && LeavesSubscribed(e, i, l)
    ensures i < |Step(w, e).mons| && Told(w.mons[i], Step(w, e).mons[i], l)
  {
    match e
    case Request(watched) => if w.host.fetch.Some? { CallOnlyCounts(w, w.host.fetch.value, watched); }
    case Probe(j) => if j < |w.mons| { ProbeTellsNothing(w, i, j, l); }
    case Tick(t) =>
      if t in w.host.timers && w.host.timers[t].Some? && w.host.timers[t].value < |w.mons| {
        ProbeTellsNothing(w, i, w.host.timers[t].value, l);
      }
    case Fire(id) => FireTells(w, id, i, l);
    case Settled(_, _) => SettledTells(w, e, i, l);
    case _ =>
  }

  lemma {:induction false} RunTells(w: World, events: seq<Event>, i: nat, l: nat)
    requires i < |w.mons| && l in w.mons[i].listeners && l in w.mons[i].inbox
    requires forall e <- events :: LeavesSubscribed(e, i, l)
    ensures i < |Run(w, events).mons|
    ensures var m := Run(w, events).mons[i];
            l in m.listeners && l in m.inbox && m.inbox[l] == w.mons[i].inbox[l] + Changes(w, events, i)
    decreases |events|
  {
    if events != [] {
      assert events[0] in events;
      assert forall e <- events[1..] :: e in events;
      var w' := Step(w, events[0]);
      StepTells(w, events[0], i, l);
      RunTells(w', events[1..], i, l);
      Regroup(w.mons[i].inbox[l], if w'.mons[i].last != w.mons[i].last then [w'.mons[i].last] else [],
              Changes(w', events[1..], i));
    }
  }

  /** From subscribing on, whatever happens: a subscriber holds the view it was seeded with and after it every view the
      monitor came to, in order, each once. */
  lemma SubscriberHearsEveryChange(w: World, events: seq<Event>, i: nat, l: nat)
    requires i < |w.mons| && forall e <- events :: LeavesSubscribed(e, i, l)
    ensures i < |Run(w, [Subscribed(i, l)] + events).mons|
    ensures var m := Run(w, [Subscribed(i, l)] + events).mons[i];
            && l in m.listeners && l in m.inbox
            && m.inbox[l] == [w.mons[i].last] + Changes(Step(w, Subscribed(i, l)), events, i)
  {
    RunConcat(w, [Subscribed(i, l)], events);
    assert Run(w, [Subscribed(i, l)]) == Step(w, Subscribed(i, l));
    RunTells(Step(w, Subscribed(i, l)), events, i, l);
  }

  /** Whoever does not listen is told nothing. */
  ghost predicate Untold(m: Mon, m': Mon, l: nat) {
    && l !in m'.listeners && (l in m'.inbox <==> l in m.inbox) && (l in m.inbox ==> m'.inbox[l] == m.inbox[l])
  }

  lemma PublishKeepsQuiet(p: Pair, l: nat)
    requires l !in p.m.listeners
    ensures Untold(p.m, Publish(p).m, l)
  {
  }

  lemma FireKeepsQuiet(w: World, id: nat, i: nat, l: nat)
    requires i < |w.mons| && l !in w.mons[i].listeners
    ensures i < |Step(w, Fire(id)).mons| && Untold(w.mons[i], Step(w, Fire(id)).mons[i], l)
  {
    if id in w.host.handlers && w.host.handlers[id].owner.Some? && w.host.handlers[id].owner.value < |w.mons| {
      var j := w.host.handlers[id].owner.value;
      ProbeOnlyCounts(w, j);
      if j == i { PublishKeepsQuiet(At(w, i).(m := Observed(w.mons[i], WentOffline)), l); }
    }
  }

  lemma SettledKeepsQuiet(w: World, e: Event, i: nat, l: nat)
    requires i < |w.mons| && l !in w.mons[i].listeners && e.Settled?
    ensures i < |Step(w, e).mons| && Untold(w.mons[i], Step(w, e).mons[i], l)
  {
    if e.m == i && w.mons[i].pending > 0 { PublishKeepsQuiet(Landed(At(w, i), e.outcome), l); }
  }

  lemma StepKeepsQuiet(w: World, e: Event, i: nat, l: nat)
    requires i < |w.mons| && l !in w.mons[i].listeners && e != Subscribed(i, l)
    ensures i < |Step(w, e).mons| && Untold(w.mons[i], Step(w, e).mons[i], l)
  {
    match e
    case Request(watched) => if w.host.fetch.Some? { CallOnlyCounts(w, w.host.fetch.value, watched); }
    case Probe(j) => if j < |w.mons| { ProbeOnlyCounts(w, j); }
    case Tick(t) =>
      if t in w.host.timers && w.host.timers[t].Some? && w.host.timers[t].value < |w.mons| {
        ProbeOnlyCounts(w, w.host.timers[t].value);
      }
    case Fire(id) => FireKeepsQuiet(w, id, i, l);
    case Settled(_, _) => SettledKeepsQuiet(w, e, i, l);
    case _ =>
  }

  lemma {:induction false} RunKeepsQuiet(w: World, events: seq<Event>, i: nat, l: nat)
    requires i < |w.mons| && l !in w.mons[i].listeners && forall e <- events :: e != Subscribed(i, l)
    ensures i < |Run(w, events).mons| && Untold(w.mons[i], Run(w, events).mons[i], l)
    decreases |events|
  {
    if events != [] {
      assert events[0] in events;
      assert forall e <- events[1..] :: e in events;
      StepKeepsQuiet(w, events[0], i, l);
      RunKeepsQuiet(Step(w, events[0]), events[1..], i, l);
    }
  }

  lemma StopsListening(w: World, e: Event, i: nat, l: nat)
    requires i < |w.mons| && (e == Unsubscribed(i, l) || e == Stopped(i))
    ensures i < |Step(w, e).mons| && Untold(w.mons[i], Step(w, e).mons[i], l)
  {
    match e
    case Unsubscribed(_, _) =>
    case Stopped(_) =>
  }

  /** Once it has unsubscribed, or the monitor was stopped, it is told nothing any more, unless it subscribes again. */
  lemma UnsubscribedHearsNothing(w: World, e: Event, events: seq<Event>, i: nat, l: nat)
    requires i < |w.mons| && (e == Unsubscribed(i, l) || e == Stopped(i))
    requires forall x <- events :: x != Subscribed(i, l)
    ensures i < |Run(w, [e] + events).mons| && Untold(w.mons[i], Run(w, [e] + events).mons[i], l)
  {
    RunConcat(w, [e], events);
    assert Run(w, [e]) == Step(w, e);
    StopsListening(w, e, i, l);
    RunKeepsQuiet(Step(w, e), events, i, l);
  }
}
