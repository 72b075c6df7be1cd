/**
 The guarded dispatchers of `device-console.tsx` and `esim-panel.tsx`: a control
 requests, a dialog may stand in between, and at most one body is posted for it.
 Each handler is one atomic step.
 */
module Dispatcher {
  import opened Wrappers
  import opened Json
  import opened Guards
  import opened Sequences

  /** The console aims every body at the selected module; the eSIM panel sends what its controls name. */
  datatype Panel = Console | Esim(writable: bool)

  /** `ticket` numbers the requests, so that a post can be traced to its request. */
  datatype Pending = Pending(kind: string, extra: Payload, consequence: string, ticket: nat)

  /** A body as it went out: the sentence that was confirmed for it, if one was, and what was selected just then. */
  datatype Post = Post(body: Payload, ticket: nat, answered: Option<string>, selected: string)

  datatype State = State(
    panel: Panel, deviceId: string, imei: string, pending: Option<Pending>, posted: seq<Post>, next: nat)

  datatype Event = Request(kind: string, extra: Payload) | Proceed | Cancel | Select(imei: string)

  /** The body of one POST: the fields of `extra` come last and win. */
  function Body(s: State, kind: string, extra: Payload): Payload {
    match s.panel
    case Console => map["device_id" := Str(s.deviceId), "kind" := Str(kind), "modem_imei" := Str(s.imei)] + extra
    case Esim(_) => map["device_id" := Str(s.deviceId), "kind" := Str(kind)] + extra
  }

  /** What the guard is asked about at the time of the request. */
  function Asked(s: State, extra: Payload): Payload {
    if s.panel.Console? then map["modem_imei" := Str(s.imei)] + extra else extra
  }

  predicate MayWrite(s: State) {
    s.panel.Console? || s.panel.writable
  }

  function AfterPost(s: State, kind: string, extra: Payload, ticket: nat, answered: Option<string>): State {
    if MayWrite(s) then s.(posted := s.posted + [Post(Body(s, kind, extra), ticket, answered, s.imei)]) else s
  }

  function Confirmed(s: State, p: Pending): State {
    AfterPost(s.(pending := None), p.kind, p.extra, p.ticket, Some(p.consequence))
  }

  function Step(s: State, e: Event, text: Json -> string): State {
    match e
    case Request(kind, extra) =>
      if !MayWrite(s) then s
      else
        var guard := DeviceCommandGuard(kind, Asked(s, extra), text);
        var s' := s.(next := s.next + 1);
        if guard.None? then AfterPost(s', kind, extra, s.next, None)
        else s'.(pending := Some(Pending(kind, extra, guard.value, s.next)))
    case Proceed => if s.pending.None? then s else Confirmed(s, s.pending.value)
    case Cancel => s.(pending := None)
    case Select(imei) => s.(imei := imei)
  }

  function Run(s: State, events: seq<Event>, text: Json -> string): State
    decreases |events|
  {
    if events == [] then s else Run(Step(s, events[0], text), events[1..], text)
  }

  ghost predicate Fresh(s: State) {
    s.pending.None? && s.posted == [] && s.next == 0
  }

  /** The handlers, over the component's state cells. */
  class Commands {
    const panel: Panel
    const deviceId: string
    var imei: string
    var pending: Option<Pending>
    var posted: seq<Post>
    var next: nat

    ghost function Cells(): State
      reads this
    {
      State(panel, deviceId, imei, pending, posted, next)
    }

    constructor (panel: Panel, deviceId: string, imei: string)
      ensures Fresh(Cells()) && Cells().panel == panel && Cells().deviceId == deviceId && Cells().imei == imei
    {
      this.panel, this.deviceId, this.imei := panel, deviceId, imei;
      pending, posted, next := None, [], 0;
    }

    method RunNow(kind: string, extra: Payload, ticket: nat, answered: Option<string>)
      modifies this`posted
      ensures Cells() == AfterPost(old(Cells()), kind, extra, ticket, answered)
    {
      if panel.Esim? && !panel.writable { return; }
      var body: Payload := map["device_id" := Str(deviceId), "kind" := Str(kind)];
      if panel.Console? { body := body["modem_imei" := Str(imei)]; }
      posted := posted + [Post(body + extra, ticket, answered, imei)];
    }

    method Request(kind: string, extra: Payload, text: Json -> string)
      modifies this
      ensures Cells() == Step(old(Cells()), Event.Request(kind, extra), text)
    {
      if panel.Esim? && !panel.writable { return; }
      var asked := if panel.Console? then map["modem_imei" := Str(imei)] + extra else extra;
      var guard := DeviceCommandGuard(kind, asked, text);
      var ticket := next;
      next := next + 1;
      if guard.None? {
        RunNow(kind, extra, ticket, None);
        return;
      }
      pending := Some(Pending.Pending(kind, extra, guard.value, ticket));
    }

    method CancelPending(text: Json -> string)
      modifies this`pending
      ensures Cells() == Step(old(Cells()), Cancel, text)
    {
      pending := None;
    }

    method Proceed(text: Json -> string)
      modifies this
      ensures Cells() == Step(old(Cells()), Event.Proceed, text)
    {
      if pending.None? { return; }
      var action := pending.value;
      pending := None;
      RunNow(action.kind, action.extra, action.ticket, Some(action.consequence));
    }
  }

  // ---- What can ever be posted ----

  /** The guard a posted body would be held to by its own contents. */
  function OwnGuard(body: Payload, text: Json -> string): Option<string> {
    if "kind" in body && body["kind"].Str? then DeviceCommandGuard(body["kind"].s, body, text)
    else Some(UNKNOWN_COMMAND)
  }

  /** What the body of a request calls for: `extra` comes last, so a kind in it is the body's kind. */
  function NamedGuard(kind: string, extra: Payload, text: Json -> string): Option<string> {
    if "kind" !in extra then DeviceCommandGuard(kind, extra, text)
    else if extra["kind"].Str? then DeviceCommandGuard(extra["kind"].s, extra, text)
    else Some(UNKNOWN_COMMAND)
  }

  /** Whatever module is selected, the question asked is about `kind` and `extra`, the body is guarded as what it names,
      and the two are the same if and only if `extra` names no kind, or one that is guarded like the kind requested. */
  lemma BodyIsGuardedAsAsked(s: State, s': State, kind: string, extra: Payload, text: Json -> string)
    requires s'.panel == s.panel
    ensures DeviceCommandGuard(kind, Asked(s, extra), text) == DeviceCommandGuard(kind, extra, text)
    ensures OwnGuard(Body(s', kind, extra), text) == NamedGuard(kind, extra, text)
    ensures OwnGuard(Body(s', kind, extra), text) == DeviceCommandGuard(kind, Asked(s, extra), text) <==>
            "kind" !in extra || NamedGuard(kind, extra, text) == DeviceCommandGuard(kind, extra, text)
  {
    GuardLooksAtItsFields(kind, Asked(s, extra), extra, text);
    var body := Body(s', kind, extra);
    if "kind" !in extra {
      GuardLooksAtItsFields(kind, body, extra, text);
    } else if extra["kind"].Str? {
      GuardLooksAtItsFields(extra["kind"].s, body, extra, text);
    }
  }

  // ---- From the log back to the requests ----

  /** A request, and the module that was selected when it was made. */
  datatype Ask = Ask(kind: string, extra: Payload, imei: string)

  function AskIn(imei: string, e: Event): seq<Ask> {
    if e.Request? then [Ask(e.kind, e.extra, imei)] else []
  }

  function Selected(imei: string, e: Event): string {
    if e.Select? then e.imei else imei
  }

  /** The requests of a run, in order: ticket `t` is the `t`-th of them. */
  function Asks(imei: string, events: seq<Event>): seq<Ask>
    decreases |events|
  {
    if events == [] then []
    else AskIn(imei, events[0]) + Asks(Selected(imei, events[0]), events[1..])
  }

  /** What the dialog asks for `a`, if it asks at all. */
  function AskedGuard(a: Ask, text: Json -> string): Option<string> {
    DeviceCommandGuard(a.kind, a.extra, text)
  }

  /** The question is the one the body that would be posted calls for. */
  predicate Honest(a: Ask, text: Json -> string) {
    NamedGuard(a.kind, a.extra, text) == AskedGuard(a, text)
  }

  /** The module a request is aimed at. The dialog's title names it, or the selected one if `extra` names it by anything
      but a text. */
  function Aim(panel: Panel, a: Ask): Option<Json> {
    if "modem_imei" in a.extra then Some(a.extra["modem_imei"])
    else if panel.Console? then Some(Str(a.imei))
    else None
  }

  function ModuleOf(body: Payload): Option<Json> {
    if "modem_imei" in body then Some(body["modem_imei"]) else None
  }

  /** The body holds what `extra` says, and of the rest the device and the kind. */
  ghost predicate Carries(deviceId: string, body: Payload, a: Ask) {
    && (forall field <- body :: field in a.extra || field in {"device_id", "kind", "modem_imei"})
    && (forall field <- a.extra :: field in body && body[field] == a.extra[field])
    && "kind" in body && ("kind" !in a.extra ==> body["kind"] == Str(a.kind))
    && "device_id" in body && ("device_id" !in a.extra ==> body["device_id"] == Str(deviceId))
  }

  /** `p` posts what `a` said, once the question `a` calls for was answered, to the module `a` would have been aimed at
      had it been made when `p` went out. */
  ghost predicate PostOf(panel: Panel, deviceId: string, p: Post, a: Ask, text: Json -> string) {
    && Carries(deviceId, p.body, a)
    && OwnGuard(p.body, text) == NamedGuard(a.kind, a.extra, text)
    && p.answered == AskedGuard(a, text)
    && ModuleOf(p.body) == Aim(panel, a.(imei := p.selected))
    && (p.answered.None? ==> p.selected == a.imei)
  }

  ghost predicate PendingOf(p: Pending, a: Ask, text: Json -> string) {
    p.kind == a.kind && p.extra == a.extra && AskedGuard(a, text) == Some(p.consequence)
  }

  ghost predicate PostsTraced(panel: Panel, deviceId: string, posted: seq<Post>, asks: seq<Ask>, text: Json -> string) {
    forall p <- posted :: p.ticket < |asks| && PostOf(panel, deviceId, p, asks[p.ticket], text)
  }

  ghost predicate Traced(s: State, asks: seq<Ask>, text: Json -> string) {
    && MayWrite(s) && s.next == |asks|
    && (s.pending.Some? ==>
          s.pending.value.ticket < |asks| && PendingOf(s.pending.value, asks[s.pending.value.ticket], text))
    && PostsTraced(s.panel, s.deviceId, s.posted, asks, text)
  }

  lemma NewPostIsOf(s: State, a: Ask, answered: Option<string>, t: nat, text: Json -> string)
    requires answered == AskedGuard(a, text) && (answered.None? ==> s.imei == a.imei)
    ensures PostOf(s.panel, s.deviceId, Post(Body(s, a.kind, a.extra), t, answered, s.imei), a, text)
  {
    BodyIsGuardedAsAsked(s, s, a.kind, a.extra, text);
    BodyCarries(s, a);
  }

  lemma BodyCarries(s: State, a: Ask)
    ensures Carries(s.deviceId, Body(s, a.kind, a.extra), a)
    ensures ModuleOf(Body(s, a.kind, a.extra)) == Aim(s.panel, a.(imei := s.imei))
  {
  }

  /** One more post, for `a`, after more requests than before. */
  lemma PostStaysTraced(s: State, asks: seq<Ask>, more: seq<Ask>, a: Ask, answered: Option<string>, t: nat,
                        text: Json -> string)
    requires PostsTraced(s.panel, s.deviceId, s.posted, asks, text) && asks <= more
    requires t < |more| && more[t] == a && answered == AskedGuard(a, text) && (answered.None? ==> s.imei == a.imei)
    ensures MayWrite(s) ==>
              PostsTraced(s.panel, s.deviceId, AfterPost(s, a.kind, a.extra, t, answered).posted, more, text)
  {
    NewPostIsOf(s, a, answered, t, text);
    forall q | q in s.posted ensures q.ticket < |more| && PostOf(s.panel, s.deviceId, q, more[q.ticket], text) {
      assert asks[q.ticket] == more[q.ticket];
    }
  }

  lemma OlderPostsStayTraced(s: State, asks: seq<Ask>, a: Ask, text: Json -> string)
    requires PostsTraced(s.panel, s.deviceId, s.posted, asks, text)
    ensures PostsTraced(s.panel, s.deviceId, s.posted, asks + [a], text)
  {
    forall q | q in s.posted
      ensures q.ticket < |asks| + 1 && PostOf(s.panel, s.deviceId, q, (asks + [a])[q.ticket], text)
    {
      assert asks[q.ticket] == (asks + [a])[q.ticket];
    }
  }

  lemma RequestStaysTraced(s: State, e: Event, asks: seq<Ask>, text: Json -> string)
    requires Traced(s, asks, text) && e.Request?
    ensures Traced(Step(s, e, text), asks + [Ask(e.kind, e.extra, s.imei)], text)
  {
    var a := Ask(e.kind, e.extra, s.imei);
    var more := asks + [a];
    assert more[s.next] == a && (s.pending.Some? ==> more[s.pending.value.ticket] == asks[s.pending.value.ticket]);
    BodyIsGuardedAsAsked(s, s, e.kind, e.extra, text);
    if AskedGuard(a, text).None? {
      PostStaysTraced(s, asks, more, a, None, s.next, text);
      assert Step(s, e, text) == AfterPost(s, a.kind, a.extra, s.next, None).(next := s.next + 1);
    } else {
      OlderPostsStayTraced(s, asks, a, text);
    }
  }

  lemma ProceedStaysTraced(s: State, asks: seq<Ask>, text: Json -> string)
    requires Traced(s, asks, text)
    ensures Traced(Step(s, Proceed, text), asks, text)
  {
    if s.pending.Some? {
      var p := s.pending.value;
      PostStaysTraced(s, asks, asks, asks[p.ticket], Some(p.consequence), p.ticket, text);
    }
  }

  lemma StepStaysTraced(s: State, e: Event, asks: seq<Ask>, text: Json -> string)
    requires Traced(s, asks, text)
    ensures Traced(Step(s, e, text), asks + AskIn(s.imei, e), text) && Step(s, e, text).imei == Selected(s.imei, e)
  {
    if e.Request? {
      RequestStaysTraced(s, e, asks, text);
    } else {
      assert asks + [] == asks;
      if e.Proceed? { ProceedStaysTraced(s, asks, text); }
    }
  }

  lemma {:induction false} RunStaysTraced(s: State, events: seq<Event>, asks: seq<Ask>, text: Json -> string)
    requires Traced(s, asks, text)
    ensures Traced(Run(s, events, text), asks + Asks(s.imei, events), text)
    decreases |events|
  {
    if events == [] {
      assert asks + [] == asks;
    } else {
      var e := events[0];
      StepStaysTraced(s, e, asks, text);
      RunStaysTraced(Step(s, e, text), events[1..], asks + AskIn(s.imei, e), text);
      Regroup(asks, AskIn(s.imei, e), Asks(Selected(s.imei, e), events[1..]));
    }
  }

  lemma {:induction false} RunKeepsPanel(s: State, events: seq<Event>, text: Json -> string)
    ensures Run(s, events, text).panel == s.panel && Run(s, events, text).deviceId == s.deviceId
    decreases |events|
  {
    if events != [] { RunKeepsPanel(Step(s, events[0], text), events[1..], text); }
  }

  /** Every post of a run comes from one of its requests and answers exactly that request's question. */
  lemma PostsComeFromRequests(s: State, events: seq<Event>, text: Json -> string)
    requires Fresh(s)
    ensures PostsTraced(s.panel, s.deviceId, Run(s, events, text).posted, Asks(s.imei, events), text)
  {
    if MayWrite(s) {
      RunStaysTraced(s, events, [], text);
      RunKeepsPanel(s, events, text);
      assert [] + Asks(s.imei, events) == Asks(s.imei, events);
    } else {
      ReadOnlyPostsNothing(s, events, text);
    }
  }

  /** Over every run: a body goes to the module its request was aimed at if and only if the request named the module, or
      the same one is selected when it goes out. Only an answered one can have been overtaken by another selection. */
  lemma BodiesGoWhereTheyWereAimed(s: State, events: seq<Event>, text: Json -> string)
    requires Fresh(s)
    ensures forall p <- Run(s, events, text).posted ::
              && p.ticket < |Asks(s.imei, events)|
              && var a := Asks(s.imei, events)[p.ticket];
                 && (ModuleOf(p.body) == Aim(s.panel, a) <==>
                     s.panel.Esim? || "modem_imei" in a.extra || p.selected == a.imei)
                 && (p.selected != a.imei ==> p.answered.Some?)
  {
    PostsComeFromRequests(s, events, text);
    forall p | p in Run(s, events, text).posted
      ensures p.ticket < |Asks(s.imei, events)|
      ensures var a := Asks(s.imei, events)[p.ticket];
              && (ModuleOf(p.body) == Aim(s.panel, a) <==>
                  s.panel.Esim? || "modem_imei" in a.extra || p.selected == a.imei)
              && (p.selected != a.imei ==> p.answered.Some?)
    {
      assert PostOf(s.panel, s.deviceId, p, Asks(s.imei, events)[p.ticket], text);
    }
  }

  ghost predicate PostsAnsweredFor(posted: seq<Post>, text: Json -> string) {
    forall p <- posted :: p.answered == OwnGuard(p.body, text)
  }

  ghost predicate PostedRequestsHonest(posted: seq<Post>, asks: seq<Ask>, text: Json -> string) {
    forall p <- posted :: p.ticket < |asks| && Honest(asks[p.ticket], text)
  }

  /** Over every run: each body went out after the very sentence its own contents call for, and unasked if they call for
      none, if and only if every request that was posted names a kind guarded like the one it asks about. */
  lemma GuardedBodiesAreAnsweredFor(s: State, events: seq<Event>, text: Json -> string)
    requires Fresh(s)
    ensures var posted := Run(s, events, text).posted;
            PostsAnsweredFor(posted, text) <==> PostedRequestsHonest(posted, Asks(s.imei, events), text)
  {
    PostsComeFromRequests(s, events, text);
    var posted, asks := Run(s, events, text).posted, Asks(s.imei, events);
    forall p | p in posted
      ensures p.ticket < |asks| && (p.answered == OwnGuard(p.body, text) <==> Honest(asks[p.ticket], text))
    {
      assert PostOf(s.panel, s.deviceId, p, asks[p.ticket], text);
    }
  }

  /** A request that names no kind in `extra` is honest, whatever else it carries; so is one that repeats its own. */
  lemma OrdinaryRequestsAreHonest(a: Ask, text: Json -> string)
    requires "kind" !in a.extra || a.extra["kind"] == Str(a.kind)
    ensures Honest(a, text)
  {
  }

  /** One that is not is posted after the wrong sentence, after one that was not called for, or after none: here a
      restart goes out unasked, as a report. */
  lemma RenamedKindIsNotAsked(s: State, e: Event, text: Json -> string)
    requires MayWrite(s) && e.Request? && !Honest(Ask(e.kind, e.extra, s.imei), text)
    ensures var asked := Step(s, e, text);
            var a := Ask(e.kind, e.extra, s.imei);
            var s' := if AskedGuard(a, text).Some? then Step(asked, Proceed, text) else asked;
            |s'.posted| == |s.posted| + 1
            && OwnGuard(s'.posted[|s.posted|].body, text) != s'.posted[|s.posted|].answered
    ensures !Honest(Ask("modem_report", map["kind" := Str("restart_modem")], s.imei), text)
  {
    BodyIsGuardedAsAsked(s, s, e.kind, e.extra, text);
    RestartAsReport(s.imei, text);
  }

  lemma RestartAsReport(imei: string, text: Json -> string)
    ensures !Honest(Ask("modem_report", map["kind" := Str("restart_modem")], imei), text)
  {
    var extra: Payload := map["kind" := Str("restart_modem")];
    assert Variants("modem_report") == Always(None);
    assert Variants("restart_modem") == Always(Some("device.confirmRestartModem"));
    assert Applies(Variants("modem_report")[0], extra);
    assert Applies(Variants("restart_modem")[0], extra);
  }

  /** An account that may not write posts nothing, over every run. */
  lemma {:induction false} ReadOnlyPostsNothing(s: State, events: seq<Event>, text: Json -> string)
    requires !MayWrite(s)
    ensures Run(s, events, text).posted == s.posted
    decreases |events|
  {
    if events != [] { ReadOnlyPostsNothing(Step(s, events[0], text), events[1..], text); }
  }

  // ---- Once, and only if it was let through ----

  ghost predicate OneEach(s: State) {
    && (forall p <- s.posted :: p.ticket < s.next)
    && (forall i, j | 0 <= i < j < |s.posted| :: s.posted[i].ticket != s.posted[j].ticket)
    && (s.pending.Some? ==>
          s.pending.value.ticket < s.next && forall p <- s.posted :: p.ticket != s.pending.value.ticket)
  }

  /** Request number `t` is over without having been posted: cancelled, replaced, or refused. */
  ghost predicate Dead(s: State, t: nat) {
    t < s.next && (s.pending.Some? ==> s.pending.value.ticket != t) && forall p <- s.posted :: p.ticket != t
  }

  lemma {:induction false} PostedAtMostOnce(s: State, events: seq<Event>, text: Json -> string)
    requires OneEach(s)
    ensures OneEach(Run(s, events, text))
    decreases |events|
  {
    if events != [] {
      StepPostsOnce(s, events[0], text);
      PostedAtMostOnce(Step(s, events[0], text), events[1..], text);
    }
  }

  lemma StepPostsOnce(s: State, e: Event, text: Json -> string)
    requires OneEach(s)
    ensures OneEach(Step(s, e, text))
  {
    match e
    case Request(kind, extra) =>
      if MayWrite(s) && DeviceCommandGuard(kind, Asked(s, extra), text).None? {
        PostedOnce(s.(next := s.next + 1), kind, extra, s.next, None);
      }
    case Proceed =>
      if s.pending.Some? {
        var p := s.pending.value;
        PostedOnce(s.(pending := None), p.kind, p.extra, p.ticket, Some(p.consequence));
      }
    case _ =>
  }

  lemma PostedOnce(s: State, kind: string, extra: Payload, t: nat, answered: Option<string>)
    requires OneEach(s) && t < s.next && (forall p <- s.posted :: p.ticket != t)
    requires s.pending.Some? ==> s.pending.value.ticket != t
    ensures OneEach(AfterPost(s, kind, extra, t, answered))
  {
  }

  /** What was cancelled or replaced is never posted afterwards. */
  lemma {:induction false} DeadRequestsStayDead(s: State, events: seq<Event>, t: nat, text: Json -> string)
    requires Dead(s, t)
    ensures Dead(Run(s, events, text), t)
    decreases |events|
  {
    if events != [] { DeadRequestsStayDead(Step(s, events[0], text), events[1..], t, text); }
  }

  /** Cancelling, or asking something else that needs an answer, kills what was pending. */
  lemma CancelAndReplaceKill(s: State, kind: string, extra: Payload, text: Json -> string)
    requires OneEach(s) && s.pending.Some? && MayWrite(s)
    ensures Dead(Step(s, Cancel, text), s.pending.value.ticket)
    ensures DeviceCommandGuard(kind, Asked(s, extra), text).Some? ==>
              Dead(Step(s, Request(kind, extra), text), s.pending.value.ticket)
  {
  }

  /** Over every run, a command nobody has listed never went out by itself, but after the sentence kept for such. */
  lemma UnknownKindsWaitForAnAnswer(s: State, events: seq<Event>, text: Json -> string)
    requires Fresh(s)
    ensures forall p <- Run(s, events, text).posted ::
              && p.ticket < |Asks(s.imei, events)|
              && (Variants(Asks(s.imei, events)[p.ticket].kind) == [] <==> p.answered == Some(UNKNOWN_COMMAND))
  {
    PostsComeFromRequests(s, events, text);
    forall p | p in Run(s, events, text).posted
      ensures p.ticket < |Asks(s.imei, events)|
      ensures Variants(Asks(s.imei, events)[p.ticket].kind) == [] <==> p.answered == Some(UNKNOWN_COMMAND)
    {
      var a := Asks(s.imei, events)[p.ticket];
      assert PostOf(s.panel, s.deviceId, p, a, text);
      LookupIsTotal(a.kind, a.extra, text);
    }
  }
}
