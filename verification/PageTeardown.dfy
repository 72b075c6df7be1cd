/** What monitors leave behind on a page: the fetch they wrapped, their handlers and their timers. */
module PageTeardown {
  import opened Wrappers
  import opened Connection
  import opened Page
  import opened PageTheorems

  // ---- Wrapped fetches ----

  /** How many wrappers of monitor `j` a call of `f` passes through. */
  function Layers(f: Fetch, j: nat): nat {
    match f
    case Native => 0
    case Wrapped(owner, inner) => Layers(inner, j) + if owner == j then 1 else 0
  }

  /** One request, however many wrappers: one call of the original, one observation owed per layer. */
  lemma {:induction false} OneCallThroughAllLayers(w: World, f: Fetch, watched: bool)
    ensures Call(w, f, watched).calls == w.calls + 1
    ensures |Call(w, f, watched).mons| == |w.mons|
    ensures forall j | 0 <= j < |w.mons| ::
              Call(w, f, watched).mons[j] ==
              w.mons[j].(pending := w.mons[j].pending + if watched then Layers(f, j) else 0)
    decreases f
  {
    match f
    case Native =>
    case Wrapped(owner, inner) => OneCallThroughAllLayers(w, inner, watched);
  }

  /** The fetch the host holds when the first `n` monitors were created in order and the stopped ones are gone. */
  function Nest(mons: seq<Mon>, n: nat, base: Option<Fetch>): Option<Fetch>
    requires n <= |mons|
  {
    if n == 0 then base
    else
      var below := Nest(mons, n - 1, base);
      if mons[n - 1].stopped || below.None? then below else Some(Wrapped(n - 1, below.value))
  }

  ghost predicate Nested(w: World, base: Option<Fetch>) {
    && w.host.fetch == Nest(w.mons, |w.mons|, base)
    && forall i | 0 <= i < |w.mons| && !w.mons[i].stopped :: w.mons[i].underlying == Nest(w.mons, i, base)
  }

  /** Monitors are stopped in the reverse of the order they were created. */
  ghost predicate Lifo(w: World, events: seq<Event>)
    decreases |events|
  {
    events == [] ||
    ((events[0].Stopped? && events[0].m < |w.mons| && !w.mons[events[0].m].stopped ==>
        forall j | events[0].m < j < |w.mons| :: w.mons[j].stopped)
     && Lifo(Step(w, events[0]), events[1..]))
  }

  lemma {:induction false} NestSame(a: seq<Mon>, b: seq<Mon>, n: nat, base: Option<Fetch>)
    requires n <= |a| && n <= |b|
    requires forall i | 0 <= i < n :: a[i].stopped == b[i].stopped
    ensures Nest(a, n, base) == Nest(b, n, base)
  {
    if n > 0 { NestSame(a, b, n - 1, base); }
  }

  lemma {:induction false} NestSkips(mons: seq<Mon>, lo: nat, n: nat, base: Option<Fetch>)
    requires lo <= n <= |mons|
    requires forall i | lo <= i < n :: mons[i].stopped
    ensures Nest(mons, n, base) == Nest(mons, lo, base)
    decreases n
  {
    if lo < n { NestSkips(mons, lo, n - 1, base); }
  }

  ghost predicate SameWrapping(w: World, w': World) {
    && w'.host.fetch == w.host.fetch && |w'.mons| == |w.mons|
    && forall i | 0 <= i < |w.mons| ::
         w'.mons[i].stopped == w.mons[i].stopped && w'.mons[i].underlying == w.mons[i].underlying
  }

  ghost predicate SameHooks(w: World, w': World) {
    SameWrapping(w, w') && w'.host.handlers == w.host.handlers
  }

  lemma CallbackKeepsWrapping(w: World, i: nat, q: Pair)
    requires i < |w.mons|
    requires q.m.stopped == w.mons[i].stopped && q.m.underlying == w.mons[i].underlying && q.h.fetch == w.host.fetch
             && q.h.handlers == w.host.handlers
    ensures SameHooks(w, Put(w, i, q))
  {
  }

  lemma PublishKeepsWrapping(p: Pair)
    ensures var q := Publish(p);
            && q.m.stopped == p.m.stopped && q.m.underlying == p.m.underlying
            && q.h.fetch == p.h.fetch && q.h.handlers == p.h.handlers
  {
  }

  lemma SettleKeepsWrapping(w: World, i: nat, outcome: Outcome)
    requires i < |w.mons|
    ensures SameHooks(w, Step(w, Settled(i, outcome)))
  {
    var p := At(w, i);
    if p.m.pending > 0 { PublishKeepsWrapping(Landed(p, outcome)); }
    CallbackKeepsWrapping(w, i, Settle(p, outcome));
  }

  lemma FireKeepsWrapping(w: World, id: nat)
    ensures SameHooks(w, Step(w, Fire(id)))
  {
    if id in w.host.handlers && w.host.handlers[id].owner.Some? && w.host.handlers[id].owner.value < |w.mons| {
      var i := w.host.handlers[id].owner.value;
      if w.host.handlers[id].event.Offline? {
        var p := At(w, i);
        PublishKeepsWrapping(p.(m := Observed(p.m, WentOffline)));
        CallbackKeepsWrapping(w, i, OnOffline(p));
      } else {
        ProbeOnlyCounts(w, i);
      }
    }
  }

  lemma OtherStepsKeepWrapping(w: World, e: Event)
    requires !e.Create? && !e.Stopped?
    ensures SameHooks(w, Step(w, e))
  {
    match e
    case Request(watched) => if w.host.fetch.Some? { CallOnlyCounts(w, w.host.fetch.value, watched); }
    case Settled(i, outcome) => if i < |w.mons| { SettleKeepsWrapping(w, i, outcome); }
    case Probe(j) => if j < |w.mons| { ProbeOnlyCounts(w, j); }
    case Fire(id) => FireKeepsWrapping(w, id);
    case Tick(t) =>
      if t in w.host.timers && w.host.timers[t].Some? && w.host.timers[t].value < |w.mons| {
        ProbeOnlyCounts(w, w.host.timers[t].value);
      }
    case _ =>
  }

  lemma SameWrappingNested(w: World, w': World, base: Option<Fetch>)
    requires Nested(w, base) && SameWrapping(w, w')
    ensures Nested(w', base)
  {
    NestSame(w.mons, w'.mons, |w.mons|, base);
    forall i | 0 <= i < |w.mons| && !w'.mons[i].stopped ensures w'.mons[i].underlying == Nest(w'.mons, i, base) {
      NestSame(w.mons, w'.mons, i, base);
    }
  }

  lemma CreateNested(w: World, loadedAt: int, base: Option<Fetch>)
    requires Nested(w, base)
    ensures Nested(Step(w, Create(loadedAt)), base)
  {
    CreateFetch(w, loadedAt);
    CreatedNested(w, Step(w, Create(loadedAt)), base);
  }

  lemma CreatedNested(w: World, w': World, base: Option<Fetch>)
    requires Nested(w, base)
    requires var n := |w.mons|;
             && |w'.mons| == n + 1 && w'.mons[..n] == w.mons
             && w'.mons[n].underlying == w.host.fetch && !w'.mons[n].stopped
    requires w'.host.fetch == if w.host.fetch.Some? then Some(Wrapped(|w.mons|, w.host.fetch.value)) else None
    ensures Nested(w', base)
  {
    var n := |w.mons|;
    NestOfPrefix(w.mons, w'.mons, n, base);
    assert Nest(w'.mons, n + 1, base) == w'.host.fetch;
    forall i | 0 <= i < n + 1 && !w'.mons[i].stopped ensures w'.mons[i].underlying == Nest(w'.mons, i, base) {
      NestOfPrefix(w.mons, w'.mons, i, base);
      if i < n { assert w'.mons[i] == w'.mons[..n][i]; }
    }
  }

  lemma NestOfPrefix(a: seq<Mon>, b: seq<Mon>, n: nat, base: Option<Fetch>)
    requires n <= |a| <= |b| && b[..|a|] == a
    ensures Nest(a, n, base) == Nest(b, n, base)
  {
    assert forall i | 0 <= i < n :: b[i] == b[..|a|][i];
    NestSame(a, b, n, base);
  }

  /** The pure half of a nested stop: once `i` is down, the nest is what `i` had found. */
  lemma NestWithout(a: seq<Mon>, b: seq<Mon>, i: nat, base: Option<Fetch>)
    requires i < |a| == |b|
    requires b[i].stopped && forall j | i < j < |a| :: b[j].stopped
    requires forall j | 0 <= j < i :: b[j].stopped == a[j].stopped && b[j].underlying == a[j].underlying
    requires forall j | 0 <= j < i && !a[j].stopped :: a[j].underlying == Nest(a, j, base)
    ensures Nest(b, |b|, base) == Nest(a, i, base)
    ensures forall j | 0 <= j < |b| && !b[j].stopped :: b[j].underlying == Nest(b, j, base)
  {
    NestSkips(b, i, |b|, base);
    NestSame(a, b, i, base);
    forall j | 0 <= j < |b| && !b[j].stopped ensures b[j].underlying == Nest(b, j, base) {
      NestSame(a, b, j, base);
    }
  }

  lemma StopFetch(w: World, i: nat)
    requires Inv(w) && i < |w.mons|
    ensures Step(w, Stopped(i)).host.fetch ==
            if !w.mons[i].stopped && w.mons[i].underlying.Some? then w.mons[i].underlying else w.host.fetch
    ensures Step(w, Stopped(i)).mons ==
            w.mons[i := w.mons[i].(stopped := true, cancelProbes := None, listeners := {}, undo := [])]
  {
    StopEffect(w, i);
  }

  lemma NestAfterStop(a: seq<Mon>, b: seq<Mon>, i: nat, base: Option<Fetch>)
    requires i < |a| && b == a[i := a[i].(stopped := true, cancelProbes := None, listeners := {}, undo := [])]
    requires forall j | i < j < |a| :: a[j].stopped
    requires !a[i].stopped
    requires forall j | 0 <= j < |a| && !a[j].stopped :: a[j].underlying == Nest(a, j, base)
    ensures Nest(b, |b|, base) == a[i].underlying
    ensures forall j | 0 <= j < |b| && !b[j].stopped :: b[j].underlying == Nest(b, j, base)
  {
    NestWithout(a, b, i, base);
  }

  /** With nothing to put back, `i` had found no fetch, and there is none. */
  lemma NothingToRestore(mons: seq<Mon>, i: nat, base: Option<Fetch>)
    requires i < |mons| && forall j | i < j < |mons| :: mons[j].stopped
    requires Nest(mons, i, base).None?
    ensures Nest(mons, |mons|, base).None?
  {
    NestSkips(mons, i + 1, |mons|, base);
  }

  lemma StopNested(w: World, i: nat, base: Option<Fetch>)
    requires Inv(w) && Nested(w, base) && i < |w.mons|
    requires !w.mons[i].stopped ==> forall j | i < j < |w.mons| :: w.mons[j].stopped
    ensures Nested(Step(w, Stopped(i)), base)
  {
    StopFetch(w, i);
    StoppedNested(w, Step(w, Stopped(i)), i, base);
  }

  lemma StoppedNested(w: World, w': World, i: nat, base: Option<Fetch>)
    requires Nested(w, base) && i < |w.mons|
    requires w'.mons == w.mons[i := w.mons[i].(stopped := true, cancelProbes := None, listeners := {}, undo := [])]
    requires w'.host.fetch ==
             if !w.mons[i].stopped && w.mons[i].underlying.Some? then w.mons[i].underlying else w.host.fetch
    requires !w.mons[i].stopped ==> forall j | i < j < |w.mons| :: w.mons[j].stopped
    ensures Nested(w', base)
  {
    if w.mons[i].stopped {
      SameWrappingNested(w, w', base);
    } else {
      NestAfterStop(w.mons, w'.mons, i, base);
      if w.mons[i].underlying.None? { NothingToRestore(w.mons, i, base); }
    }
  }

  // ---- Other code on the page ----

  /** Handlers and timers of other code on the page are never touched. */
  ghost predicate ForeignKept(before: HostState, after: HostState) {
    && (forall id <- before.handlers :: id in after.handlers && after.handlers[id] == before.handlers[id])
    && (forall id <- after.handlers :: after.handlers[id].owner.Some? || (id in before.handlers))
    && (forall t <- before.timers :: t in after.timers && after.timers[t] == before.timers[t])
    && (forall t <- after.timers :: after.timers[t].Some? || (t in before.timers))
  }

  ghost predicate Unowned(h: HostState) {
    (forall id <- h.handlers :: h.handlers[id].owner.None?) && (forall t <- h.timers :: h.timers[t].None?)
  }

  /** A callback of monitor `i` touches no timer but its own. */
  ghost predicate OtherTimersKept(h: HostState, h': HostState, i: nat) {
    && (forall t <- h'.timers :: h'.timers[t] == Some(i) || (t in h.timers && h'.timers[t] == h.timers[t]))
    && (forall t <- h.timers :: h.timers[t] == Some(i) || (t in h'.timers && h'.timers[t] == h.timers[t]))
  }

  lemma FireTimers(w: World, id: nat) returns (i: nat)
    requires Inv(w)
    ensures OtherTimersKept(w.host, Step(w, Fire(id)).host, i)
  {
    i := 0;
    if id in w.host.handlers && w.host.handlers[id].owner.Some? {
      i := w.host.handlers[id].owner.value;
      if w.host.handlers[id].event.Offline? { OfflineKeeps(At(w, i)); } else { ProbeOnlyCounts(w, i); }
    }
  }

  lemma StepTimers(w: World, e: Event) returns (i: nat)
    requires Inv(w)
    ensures OtherTimersKept(w.host, Step(w, e).host, i)
  {
    i := 0;
    match e
    case Create(loadedAt) => i := |w.mons|; CreationIsOwned(w.host, i, loadedAt);
    case Settled(j, outcome) => if j < |w.mons| { i := j; SettleKeeps(At(w, j), outcome); }
    case Stopped(j) => if j < |w.mons| { i := j; StopEffect(w, j); }
    case Fire(id) => i := FireTimers(w, id);
    case _ =>
  }

  lemma StepForeign(w: World, e: Event, before: HostState)
    requires Inv(w) && ForeignKept(before, w.host) && Unowned(before)
    ensures ForeignKept(before, Step(w, e).host)
  {
    var i := StepTimers(w, e);
    StepHandlers(w, e, before);
  }

  lemma StepHandlers(w: World, e: Event, before: HostState)
    requires Inv(w) && ForeignKept(before, w.host) && Unowned(before)
    ensures var after := Step(w, e).host;
            && (forall id <- before.handlers :: id in after.handlers && after.handlers[id] == before.handlers[id])
            && (forall id <- after.handlers :: after.handlers[id].owner.Some? || (id in before.handlers))
  {
    if e.Stopped? {
      if e.m < |w.mons| { StopEffect(w, e.m); }
    } else if e.Create? {
      CreationIsOwned(w.host, |w.mons|, e.loadedAt);
    } else {
      OtherStepsKeepWrapping(w, e);
    }
  }

  /** A new monitor adds two handlers, and at most one timer, under names never used before. */
  lemma CreationIsOwned(h: HostState, id: nat, loadedAt: int)
    ensures var h' := Connection.Create(h, id, loadedAt).h;
            && h'.handlers == h.handlers[h.nextId := Handler(Some(id), Offline)]
                                        [h.nextId + 1 := Handler(Some(id), Online)]
            && (h'.timers == h.timers || h'.timers == h.timers[h.nextId + 2 := Some(id)])
  {
  }

  lemma {:induction false} RunForeign(w: World, events: seq<Event>, before: HostState)
    requires Inv(w) && ForeignKept(before, w.host) && Unowned(before)
    ensures ForeignKept(before, Run(w, events).host)
    decreases |events|
  {
    if events != [] {
      StepKeeps(w, events[0]);
      StepForeign(w, events[0], before);
      RunForeign(Step(w, events[0]), events[1..], before);
    }
  }

  lemma StoppedOwnsNothing(w: World, i: nat)
    requires Inv(w) && i < |w.mons| && w.mons[i].stopped
    ensures forall id <- w.host.handlers :: w.host.handlers[id].owner != Some(i)
    ensures forall t <- w.host.timers :: w.host.timers[t] != Some(i)
  {
    assert w.mons[i].id == i && MonInv(w.mons[i], w.host);
  }

  ghost predicate AllStopped(w: World) {
    forall m <- w.mons :: m.stopped
  }

  /** In whatever order the monitors were stopped: every handler and timer on the page is one that was there before. */
  lemma StoppedPageKeepsNothing(w: World, events: seq<Event>)
    requires Fresh(w) && AllStopped(Run(w, events))
    ensures Run(w, events).host.handlers == w.host.handlers && Run(w, events).host.timers == w.host.timers
  {
    var w' := Run(w, events);
    FreshInv(w, events);
    RunForeign(w, events, w.host);
    forall i | 0 <= i < |w'.mons| { StoppedOwnsNothing(w', i); }
    assert forall id <- w'.host.handlers :: w'.host.handlers[id].owner.None?;
    assert forall t <- w'.host.timers :: w'.host.timers[t].None?;
  }

  // ---- When fetch comes back ----

  /** What last changed the page's fetch: nothing yet, a new monitor, or the stop of a live one. */
  datatype Hook = Untouched | Made | Unmade(i: nat)

  function HookAfter(w: World, e: Event, last: Hook): Hook {
    match e
    case Create(_) => Made
    case Stopped(i) => if i < |w.mons| && !w.mons[i].stopped then Unmade(i) else last
    case _ => last
  }

  function LastHook(w: World, events: seq<Event>, last: Hook): Hook
    decreases |events|
  {
    if events == [] then last else LastHook(Step(w, events[0]), events[1..], HookAfter(w, events[0], last))
  }

  /** After the stop of a live monitor the fetch is the one that monitor had found. */
  ghost predicate HookInv(w: World, last: Hook, base: Option<Fetch>) {
    && (w.host.fetch.None? <==> base.None?)
    && (forall m <- w.mons :: m.underlying.None? <==> base.None?)
    && match last
       case Untouched => w.mons == [] && w.host.fetch == base
       case Made => w.mons != [] && !w.mons[|w.mons| - 1].stopped
       case Unmade(i) => i < |w.mons| && w.mons[i].stopped && w.host.fetch == w.mons[i].underlying
  }

  lemma StepHook(w: World, e: Event, last: Hook, base: Option<Fetch>)
    requires Inv(w) && HookInv(w, last, base)
    ensures HookInv(Step(w, e), HookAfter(w, e, last), base)
  {
    if e.Create? {
      CreateHook(w, e.loadedAt, last, base);
    } else if e.Stopped? {
      if e.m < |w.mons| {
        StopFetch(w, e.m);
        StopHook(w, Step(w, e), e.m, last, base);
      }
    } else {
      OtherStepsKeepWrapping(w, e);
      QuietHook(w, Step(w, e), last, base);
    }
  }

  lemma QuietHook(w: World, w': World, last: Hook, base: Option<Fetch>)
    requires HookInv(w, last, base) && SameWrapping(w, w')
    ensures HookInv(w', last, base)
  {
    forall m | m in w'.mons ensures m.underlying.None? <==> base.None? {
      var i :| 0 <= i < |w'.mons| && w'.mons[i] == m;
      assert w.mons[i] in w.mons;
    }
  }

  lemma CreateHook(w: World, loadedAt: int, last: Hook, base: Option<Fetch>)
    requires HookInv(w, last, base)
    ensures HookInv(Step(w, Create(loadedAt)), Made, base)
  {
    CreateFetch(w, loadedAt);
    var w' := Step(w, Create(loadedAt));
    assert w'.mons == w'.mons[..|w.mons|] + [w'.mons[|w.mons|]];
  }

  lemma StopHook(w: World, w': World, i: nat, last: Hook, base: Option<Fetch>)
    requires HookInv(w, last, base) && i < |w.mons|
    requires w'.mons == w.mons[i := w.mons[i].(stopped := true, cancelProbes := None, listeners := {}, undo := [])]
    requires w'.host.fetch ==
             if !w.mons[i].stopped && w.mons[i].underlying.Some? then w.mons[i].underlying else w.host.fetch
    ensures HookInv(w', if w.mons[i].stopped then last else Unmade(i), base)
  {
    assert w.mons[i] in w.mons;
    forall m | m in w'.mons ensures m.underlying.None? <==> base.None? {
      var j :| 0 <= j < |w'.mons| && w'.mons[j] == m;
      assert w.mons[j] in w.mons;
    }
  }

  lemma {:induction false} RunHook(w: World, events: seq<Event>, last: Hook, base: Option<Fetch>)
    requires Inv(w) && HookInv(w, last, base)
    ensures HookInv(Run(w, events), LastHook(w, events, last), base)
    decreases |events|
  {
    if events != [] {
      StepKeeps(w, events[0]);
      StepHook(w, events[0], last, base);
      RunHook(Step(w, events[0]), events[1..], HookAfter(w, events[0], last), base);
    }
  }

  /** Stopped in any order, the monitors give fetch back if and only if the one stopped last had found it. */
  lemma FetchComesBackIffLastStoppedFoundIt(w: World, events: seq<Event>)
    requires Fresh(w) && AllStopped(Run(w, events))
    ensures match LastHook(w, events, Untouched)
            case Untouched => Run(w, events).mons == [] && Run(w, events).host.fetch == w.host.fetch
            case Made => false
            case Unmade(i) =>
              && i < |Run(w, events).mons|
              && Run(w, events).host.fetch == Run(w, events).mons[i].underlying
              && (Run(w, events).host.fetch == w.host.fetch <==> Run(w, events).mons[i].underlying == w.host.fetch)
  {
    RunHook(w, events, Untouched, w.host.fetch);
    var w' := Run(w, events);
    if w'.mons != [] { assert w'.mons[|w'.mons| - 1] in w'.mons; }
  }

  // ---- Last in, first out ----

  lemma {:induction false} LifoRun(w: World, events: seq<Event>, base: Option<Fetch>)
    requires Inv(w) && Nested(w, base) && Lifo(w, events)
    ensures Nested(Run(w, events), base)
    decreases |events|
  {
    if events != [] {
      var e := events[0];
      StepKeeps(w, e);
      if e.Create? {
        CreateNested(w, e.loadedAt, base);
      } else if e.Stopped? {
        if e.m < |w.mons| { StopNested(w, e.m, base); }
      } else {
        OtherStepsKeepWrapping(w, e);
        SameWrappingNested(w, Step(w, e), base);
      }
      LifoRun(Step(w, e), events[1..], base);
    }
  }

  /** Last in, first out is one way to get there: any properly nested run that ends with every monitor stopped
      leaves the page as it found it. */
  lemma LifoRestoresThePage(w: World, events: seq<Event>)
    requires Fresh(w) && Lifo(w, events) && AllStopped(Run(w, events))
    ensures var h := Run(w, events).host;
            h.fetch == w.host.fetch && h.handlers == w.host.handlers && h.timers == w.host.timers
  {
    LifoRun(w, events, w.host.fetch);
    StoppedPageKeepsNothing(w, events);
    var w' := Run(w, events);
    assert forall i | 0 <= i < |w'.mons| :: w'.mons[i] in w'.mons;
    NestSkips(w'.mons, 0, |w'.mons|, w.host.fetch);
  }

  lemma CreateFetch(w: World, loadedAt: int)
    ensures var w' := Step(w, Create(loadedAt)); var n := |w.mons|;
            && |w'.mons| == n + 1 && w'.mons[..n] == w.mons
            && w'.mons[n].underlying == w.host.fetch && !w'.mons[n].stopped
            && w'.host.fetch == if w.host.fetch.Some? then Some(Wrapped(n, w.host.fetch.value)) else None
  {
  }

  lemma RunTwo(w: World, a: Event, b: Event)
    ensures Run(w, [a, b]) == Step(Step(w, a), b)
  {
    assert [a, b][1..] == [b] && [b][1..] == [];
    assert Run(Step(w, a), [b]) == Run(Step(Step(w, a), b), []);
  }

  /** Stopping the inner of two monitors first is one way not to: it puts a dead wrapper back, on any page. */
  lemma WrongOrderLeavesAWrapper(w: World, f: Fetch)
    requires Fresh(w) && w.host.fetch == Some(f)
    ensures Run(Run(w, [Create(0), Create(0)]), [Stopped(0), Stopped(1)]).host.fetch == Some(Wrapped(0, f))
  {
    var w2 := Run(w, [Create(0), Create(0)]);
    RunTwo(w, Create(0), Create(0));
    CreateFetch(w, 0);
    CreateFetch(Step(w, Create(0)), 0);
    assert w2.mons[1].underlying == Some(Wrapped(0, f)) && !w2.mons[1].stopped;
    FreshInv(w, [Create(0), Create(0)]);
    StopUnderAnother(w2);
  }

  lemma StopUnderAnother(w: World)
    requires Inv(w) && |w.mons| == 2 && !w.mons[1].stopped && w.mons[1].underlying.Some?
    ensures Run(w, [Stopped(0), Stopped(1)]).host.fetch == w.mons[1].underlying
  {
    RunTwo(w, Stopped(0), Stopped(1));
    StopFetch(w, 0);
    StepKeeps(w, Stopped(0));
    StopFetch(Step(w, Stopped(0)), 1);
  }
}
