/** USSD sessions from end to end: what each form sends, and when a session that was started can be answered. */
module UssdSessions {
  import opened Wrappers
  import opened Json
  import opened Texts
  import opened Ussd
  import Guards
  import Dispatcher
  import CommandTable

  // ---- What each form sends ----

  /** The module of the newest exchange fetched, if there is one and it names its module. */
  ghost predicate SessionOn(s: State, imei: string) {
    NewestRow(s.seen).Some? && NewestRow(s.seen).value.modemImei == Some(imei) && imei != ""
  }

  /** A code goes to the selected module, a reply to the session that is open, and a cancellation to the module of the
      newest exchange, or to the selected one when that names none. */
  ghost predicate FormSends(s: State, e: Event, r: UssdRequest) {
    match e
    case SubmitCode(code) =>
      s.d.imei != "" && Trim(code) != "" && r == UssdRequest(s.d.imei, Trim(code), Start)
    case SubmitReply(reply) =>
      Answerable(s, Some(r.imei)) && Trim(reply) != "" && r == UssdRequest(r.imei, Trim(reply), Continue)
    case PressCancel =>
      && r.imei != "" && r == UssdRequest(r.imei, "", Stage.Cancel)
      && (SessionOn(s, r.imei) || ((forall imei :: !SessionOn(s, imei)) && r.imei == s.d.imei))
    case _ => false
  }

  lemma FormsSend(s: State, e: Event, r: UssdRequest)
    ensures RequestOf(s, e) == Some(r) <==> FormSends(s, e, r)
  {
    match e
    case SubmitReply(_) => OpenMeansYoungByEveryClock(LatestExchange(s.seen), ObservedAt(s), s.clock);
    case PressCancel =>
      if NewestRow(s.seen).Some? && AsString(NewestRow(s.seen).value.modemImei).Some? {
        assert SessionOn(s, NewestRow(s.seen).value.modemImei.value);
      }
    case _ =>
  }

  predicate IsForm(e: Event) {
    e.SubmitCode? || e.SubmitReply? || e.PressCancel?
  }

  /** The record of a request: the module and the text it was for, and its stage in words. */
  ghost predicate Records(row: Row, n: nat, r: UssdRequest) {
    && row.id == n && row.kind == "send_ussd" && row.own && row.status == "queued" && row.result == None
    && row.modemImei == Some(r.imei) && row.code == Some(r.code)
    && row.stage == Some(match r.stage case Start => "start" case Continue => "continue" case Cancel => "cancel")
  }

  /** A cancellation is recorded at once; a code or a reply waits for its own sentence to be answered, and replaces what
      was waiting; a form that has nothing to send does nothing. */
  lemma FormsAreSentOrAsked(s: State, e: Event, text: Json -> string)
    requires s.d.panel.Console? && IsForm(e)
    ensures var s', request := Step(s, e, text), RequestOf(s, e);
            if request.None? then s' == s
            else if request.value.stage.Cancel? then
              && s' == s.(d := s'.d, log := s'.log) && s'.d.pending == s.d.pending
              && |s'.log| == |s.log| + 1 && s'.log[..|s.log|] == s.log
                 && Records(s'.log[|s.log|], |s.log|, request.value)
            else
              && s' == s.(d := s'.d) && s'.d.posted == s.d.posted
              && s'.d.pending.Some? && Pends(s'.d.pending.value, request.value)
              && s'.d.pending.value.consequence ==
                 if request.value.stage.Continue? then "device.confirmUssdReply" else "device.confirmUssdSend"
  {
    if RequestOf(s, e).Some? {
      var r := RequestOf(s, e).value;
      SubmitDoes(s, r, text);
      UssdIsAsked(s, r, text);
    }
  }

  lemma UssdIsAsked(s: State, r: UssdRequest, text: Json -> string)
    requires s.d.panel.Console?
    ensures Guards.DeviceCommandGuard("send_ussd", Dispatcher.Asked(s.d, Extra(r)), text) ==
            match r.stage
            case Start => Some("device.confirmUssdSend")
            case Continue => Some("device.confirmUssdReply")
            case Cancel => None
  {
    var asked := Dispatcher.Asked(s.d, Extra(r));
    assert asked["stage"] == Str(StageText(r.stage));
    CommandTable.GuardIsCalledFor("send_ussd", asked, text);
    CommandTable.UssdIsRight(asked, text);
  }

  // ---- From the code to the answer ----

  lemma LastUssdRowIsNewest(log: seq<Row>)
    requires Numbered(log) && log != [] && log[|log| - 1].kind == "send_ussd"
    ensures NewestRow(Fetched(log)) == Some(log[|log| - 1])
  {
    FetchedAreRows(log);
    var last := log[|log| - 1];
    NewestRowIsNewest(Fetched(log));
    var best := NewestRow(Fetched(log)).value;
    assert best in log;
  }

  /** A command from elsewhere is the newest exchange of the next fetch, as it was recorded. */
  lemma CommandsFromElsewhereAreSeen(s: State, row: Row, text: Json -> string)
    requires Inv(s) && row.kind == "send_ussd"
    ensures var newest := NewestRow(Run(s, [Elsewhere(row), Refresh], text).seen);
            newest == Some(row.(id := |s.log|, issuedAt := |s.log|, own := false))
  {
    TwoSteps(s, Elsewhere(row), Refresh, text);
    AddedRowIsNewest(s, row.(id := |s.log|, issuedAt := |s.log|, own := false));
  }

  lemma AddedRowIsNewest(s: State, row: Row)
    requires Inv(s) && row.kind == "send_ussd" && row.id == |s.log| && row.issuedAt == |s.log|
    ensures NewestRow(Fetched(s.log + [row])) == Some(row)
  {
    RowAdded(s.seen, s.log, row);
    LastUssdRowIsNewest(s.log + [row]);
  }

  lemma TwoSteps(s: State, a: Event, b: Event, text: Json -> string)
    ensures Run(s, [a, b], text) == Step(Step(s, a, text), b, text)
  {
    assert [a, b][1..] == [b] && [b][1..] == [];
    assert Run(Step(s, a, text), [b], text) == Run(Step(Step(s, a, text), b, text), [], text);
  }

  /** The code confirmed at once: recorded on the selected module, with nothing else changed that matters here. */
  lemma CodeIsRecorded(s: State, code: string, text: Json -> string)
    requires Inv(s) && s.d.imei != "" && Trim(code) != ""
    ensures var w := Step(Step(s, SubmitCode(code), text), Confirm, text);
            && Inv(w) && w == s.(d := w.d, log := s.log + [RowFor(|s.log|, UssdRequest(s.d.imei, Trim(code), Start))])
            && Records(w.log[|s.log|], |s.log|, UssdRequest(s.d.imei, Trim(code), Start))
  {
    var r := UssdRequest(s.d.imei, Trim(code), Start);
    FormsSend(s, SubmitCode(code), r);
    FormsAreSentOrAsked(s, SubmitCode(code), text);
    StepKeeps(s, SubmitCode(code), text);
    var asked := Step(s, SubmitCode(code), text);
    StepKeeps(asked, Confirm, text);
    ConfirmDoes(asked, text);
    ConfirmRecordsUssd(asked, r, text);
  }

  /** A code goes to whatever module is selected when it is submitted. */
  lemma CodesGoToTheSelected(s: State, other: string, code: string, text: Json -> string)
    requires Inv(s) && other != "" && Trim(code) != ""
    ensures var w := Step(Run(s, [Select(other), SubmitCode(code)], text), Confirm, text);
            |w.log| == |s.log| + 1 && Records(w.log[|s.log|], |s.log|, UssdRequest(other, Trim(code), Start))
  {
    TwoSteps(s, Select(other), SubmitCode(code), text);
    StepKeeps(s, Select(other), text);
    CodeIsRecorded(Step(s, Select(other), text), code, text);
  }

  /** The last command, settled and fetched, is the newest exchange of the page, as it was settled. */
  lemma SettledIsFetched(s: State, status: string, at: Option<int>, result: Option<UssdResult>, text: Json -> string)
    requires Inv(s) && s.log != [] && s.log[|s.log| - 1].kind == "send_ussd"
    ensures var n := |s.log| - 1;
            var w := Step(Step(s, Settle(n, status, at, result), text), Refresh, text);
            var row := s.log[n].(status := status, completedAt := at, result := result);
            Inv(w) && w == s.(log := s.log[n := row], seen := w.seen) && NewestRow(w.seen) == Some(row)
  {
    var n := |s.log| - 1;
    var settle := Settle(n, status, at, result);
    StepKeeps(s, settle, text);
    var settled := Step(s, settle, text);
    StepKeeps(settled, Refresh, text);
    SettledRow(s, settle, text);
    LastUssdRowIsNewest(settled.log);
  }

  lemma SettledRow(s: State, e: Event, text: Json -> string)
    requires e.Settle? && e.index < |s.log|
    ensures var row := s.log[e.index].(status := e.status, completedAt := e.completedAt, result := e.result);
            Step(s, e, text) == s.(log := s.log[e.index := row])
  {
  }

  /** The page after a code was confirmed, the gateway settled it, and the log was fetched. */
  function Started(s: State, code: string, status: string, at: Option<int>, result: Option<UssdResult>,
                   text: Json -> string): State
  {
    Run(s, [SubmitCode(code), Confirm, Settle(|s.log|, status, at, result), Refresh], text)
  }

  lemma FourSteps(s: State, a: Event, b: Event, c: Event, d: Event, text: Json -> string)
    ensures Run(s, [a, b, c, d], text) == Step(Step(Step(Step(s, a, text), b, text), c, text), d, text)
  {
    var w := Step(Step(s, a, text), b, text);
    assert [a, b, c, d] == [a, b] + [c, d];
    RunConcat(s, [a, b], [c, d], text);
    TwoSteps(s, a, b, text);
    TwoSteps(w, c, d, text);
  }

  ghost predicate IsStarted(s: State, w: State, row: Row) {
    && Inv(w) && |w.log| == |s.log| + 1 && NewestRow(w.seen) == Some(row)
    && w.d.panel == s.d.panel && w.clock == s.clock && w.observed == s.observed
  }

  lemma CodeIsStarted(s: State, code: string, status: string, at: Option<int>, result: Option<UssdResult>,
                      text: Json -> string)
    requires Inv(s) && s.d.imei != "" && Trim(code) != ""
    ensures IsStarted(s, Started(s, code, status, at, result, text),
                      RowFor(|s.log|, UssdRequest(s.d.imei, Trim(code), Start))
                        .(status := status, completedAt := at, result := result))
  {
    CodeIsRecorded(s, code, text);
    var recorded := Step(Step(s, SubmitCode(code), text), Confirm, text);
    SettledIsFetched(recorded, status, at, result, text);
    FourSteps(s, SubmitCode(code), Confirm, Settle(|s.log|, status, at, result), Refresh, text);
  }

  lemma LookedAt(s: State, w: State, row: Row, now: int, text: Json -> string)
    requires Inv(s) && IsStarted(s, w, row) && row.id == |s.log| && Says(row.modemImei)
    ensures SessionOpen(Run(w, [Observe, Advance(now)], text)) <==>
            && row.status == "succeeded" && row.result.Some? && row.result.value.expectsReply
            && (row.completedAt.Some? ==> now - row.completedAt.value <= 120000) && now - s.clock <= 120000
  {
    TwoSteps(w, Observe, Advance(now), text);
    var x := Run(w, [Observe, Advance(now)], text);
    assert LatestExchange(x.seen) == LatestExchange(w.seen);
    assert w.observed.None? || w.observed.value.0 != |s.log|;
    OpenMeansYoungByEveryClock(LatestExchange(x.seen), ObservedAt(x), x.clock);
  }

  predicate Says(field: Option<string>) {
    field.Some? && field.value != ""
  }

  /** Looked at when it is `s.clock` and again at `now`, a session that was started is open if and only if it succeeded,
      expects a reply, and two minutes have not passed since the gateway completed it, nor since the page first saw it.
      */
  lemma StartedSessionOpens(s: State, code: string, status: string, at: Option<int>, result: Option<UssdResult>,
                            now: int, text: Json -> string)
    requires Inv(s) && s.d.imei != "" && Trim(code) != ""
    ensures SessionOpen(Run(Started(s, code, status, at, result, text), [Observe, Advance(now)], text)) <==>
            && status == "succeeded" && result.Some? && result.value.expectsReply
            && (at.Some? ==> now - at.value <= 120000) && now - s.clock <= 120000
  {
    CodeIsStarted(s, code, status, at, result, text);
    LookedAt(s, Started(s, code, status, at, result, text),
             RowFor(|s.log|, UssdRequest(s.d.imei, Trim(code), Start))
               .(status := status, completedAt := at, result := result), now, text);
  }

  /** The page keeps showing the exchange while it is looked at and something else is selected. */
  lemma LookingChangesNothing(w: State, now: int, other: string, text: Json -> string)
    requires Inv(w)
    ensures var x := Step(Run(w, [Observe, Advance(now)], text), Select(other), text);
            && Inv(x) && x.log == w.log && x.seen == w.seen
            && (SessionOpen(x) <==> SessionOpen(Run(w, [Observe, Advance(now)], text)))
  {
    TwoSteps(w, Observe, Advance(now), text);
    RunKeeps(w, [Observe, Advance(now)], text);
    StepKeeps(Run(w, [Observe, Advance(now)], text), Select(other), text);
  }

  lemma OpenSessionIsAnswered(s: State, reply: string, row: Row, text: Json -> string)
    requires Inv(s) && SessionOpen(s) && Trim(reply) != "" && NewestRow(s.seen) == Some(row) && Says(row.modemImei)
    ensures var w := Run(s, [SubmitReply(reply), Confirm], text);
            && |w.log| == |s.log| + 1
            && Records(w.log[|s.log|], |s.log|, UssdRequest(row.modemImei.value, Trim(reply), Continue))
  {
    TwoSteps(s, SubmitReply(reply), Confirm, text);
    ReplySurvives(s, reply, [], text);
    assert Run(Step(s, SubmitReply(reply), text), [], text) == Step(s, SubmitReply(reply), text);
    ReplyIsNotRecordedYet(s, reply, text);
  }

  /** A reply typed while that session is open goes to the module it was started on, whatever is selected by then. */
  lemma StartedSessionIsAnswered(s: State, code: string, at: Option<int>, result: UssdResult, now: int, other: string,
                                 reply: string, text: Json -> string)
    requires Inv(s) && s.d.imei != "" && Trim(code) != "" && Trim(reply) != ""
    requires result.expectsReply && (at.Some? ==> now - at.value <= 120000) && now - s.clock <= 120000
    ensures var open := Run(Started(s, code, "succeeded", at, Some(result), text), [Observe, Advance(now)], text);
            var w := Run(Step(open, Select(other), text), [SubmitReply(reply), Confirm], text);
            && |w.log| == |s.log| + 2
            && Records(w.log[|s.log| + 1], |s.log| + 1, UssdRequest(s.d.imei, Trim(reply), Continue))
  {
    var row := RowFor(|s.log|, UssdRequest(s.d.imei, Trim(code), Start))
                 .(status := "succeeded", completedAt := at, result := Some(result));
    var started := Started(s, code, "succeeded", at, Some(result), text);
    StartedSessionOpens(s, code, "succeeded", at, Some(result), now, text);
    CodeIsStarted(s, code, "succeeded", at, Some(result), text);
    LookingChangesNothing(started, now, other, text);
    OpenSessionIsAnswered(Step(Run(started, [Observe, Advance(now)], text), Select(other), text), reply, row, text);
  }

  lemma ReplyIsNotRecordedYet(s: State, reply: string, text: Json -> string)
    requires Inv(s) && SessionOpen(s) && Trim(reply) != ""
    ensures Step(s, SubmitReply(reply), text).log == s.log
  {
    OpenMeansYoungByEveryClock(LatestExchange(s.seen), ObservedAt(s), s.clock);
    ReplyIsAsked(s, ContinueRequest(LatestExchange(s.seen), reply).value, text);
  }

  // ---- The shared dialog ----

  /** What was dismissed is not sent, not even by confirming afterwards. */
  lemma DismissedIsNotSent(s: State, text: Json -> string)
    ensures var w := Step(s, Dismiss, text);
            w.d.pending == None && w.log == s.log && w.d.posted == s.d.posted && Step(w, Confirm, text) == w
  {
  }

  /** A request of another control is recorded under its own kind, at once or when its sentence is answered. */
  lemma OtherRequestsAreRecorded(s: State, kind: string, extra: Guards.Payload, text: Json -> string)
    requires Inv(s) && NoUssd(kind, extra)
    ensures var s1 := Step(s, OtherRequest(kind, extra), text);
            var s' := if Guards.DeviceCommandGuard(kind, extra, text).None? then s1 else Step(s1, Confirm, text);
            && |s'.log| == |s.log| + 1 && s'.log[|s.log|].kind == kind && s'.log[|s.log|].own
            && (Guards.DeviceCommandGuard(kind, extra, text).Some? ==> s1.log == s.log)
  {
    Dispatcher.BodyIsGuardedAsAsked(s.d, s.d, kind, extra, text);
    RequestDoes(s, kind, extra, text);
    var s1 := Step(s, OtherRequest(kind, extra), text);
    assert Dispatcher.Body(s.d, kind, extra)["kind"] == Str(kind);
    if Guards.DeviceCommandGuard(kind, extra, text).Some? {
      ConfirmDoes(s1, text);
      assert Dispatcher.Body(s1.d, kind, extra)["kind"] == Str(kind);
    }
  }
}
