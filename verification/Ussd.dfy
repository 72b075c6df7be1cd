/**
 USSD sessions (`lib/catalog.ts` and `UssdConsole` in `device-console.tsx`):
 which module a reply is aimed at, and until when one may be sent.
 */
module Ussd {
  import opened Wrappers
  import opened Json
  import opened Texts
  import opened Newest
  import Guards
  import Dispatcher
  import CommandTable

  datatype UssdResult = UssdResult(stage: string, expectsReply: bool)

  /** A recorded command. `own` tells this console's rows from those that came from elsewhere. */
  datatype Row = Row(
    id: nat, kind: string, status: string, issuedAt: int, completedAt: Option<int>,
    modemImei: Option<string>, stage: Option<string>, code: Option<string>, result: Option<UssdResult>, own: bool)

  datatype Exchange = Exchange(
    commandId: nat, modemImei: Option<string>, stageSent: string, status: string,
    completedAt: Option<int>, result: Option<UssdResult>)

  function IssuedAt(r: Row): int {
    r.issuedAt
  }

  const USSD: Rule<Row, ()> := Rule((r: Row) => if r.kind == "send_ussd" then Some(()) else None, IssuedAt, false)

  function ExchangeOf(r: Row): Exchange {
    Exchange(r.id, AsString(r.modemImei), AsString(r.stage).GetOr("start"), r.status, r.completedAt, r.result)
  }

  function NewestRow(rows: seq<Row>): Option<Row> {
    var kept := Kept(USSD, rows).vals;
    if () in kept then Some(kept[()]) else None
  }

  function LatestExchange(rows: seq<Row>): Option<Exchange> {
    var newest := NewestRow(rows);
    if newest.None? then None else Some(ExchangeOf(newest.value))
  }

  /** The loop of `latestUssdExchange`. */
  method LatestUssdExchange(rows: seq<Row>) returns (exchange: Option<Exchange>)
    ensures exchange == LatestExchange(rows)
  {
    var latest: Option<Row> := None;
    for n := 0 to |rows|
      invariant latest == NewestRow(rows[..n])
    {
      var row := rows[n];
      assert rows[..n + 1][..n] == rows[..n] && rows[..n + 1][n] == row;
      if row.kind != "send_ussd" { continue; }
      if latest.None? || row.issuedAt > latest.value.issuedAt { latest := Some(row); }
    }
    assert rows[..|rows|] == rows;
    return if latest.None? then None else Some(ExchangeOf(latest.value));
  }

  lemma NewestRowIsNewest(rows: seq<Row>)
    ensures NewestRow(rows).Some? <==> exists r <- rows :: r.kind == "send_ussd"
    ensures NewestRow(rows).Some? ==>
              var best := NewestRow(rows).value;
              && best in rows && best.kind == "send_ussd"
              && forall r <- rows | r.kind == "send_ussd" :: r.issuedAt <= best.issuedAt
  {
    KeptIsNewest(USSD, rows, ());
    forall r | r in rows && r.kind == "send_ussd" ensures USSD.key(r) == Some(()) {}
  }

  /** The exchange shown is the first of the newest USSD rows. */
  lemma LatestIsTheFirstNewest(rows: seq<Row>, i: nat)
    requires i < |rows| && rows[i].kind == "send_ussd"
    requires forall j | 0 <= j < |rows| && rows[j].kind == "send_ussd" ::
               rows[j].issuedAt < rows[i].issuedAt || (rows[j].issuedAt == rows[i].issuedAt && i <= j)
    ensures NewestRow(rows) == Some(rows[i])
  {
    assert Wins(USSD, rows, i);
    WinnerIsKept(USSD, rows, i);
  }

  // ---- How long a session may be continued ----

  const USSD_SESSION_TTL_MS: int := 120_000

  function SessionAgeMs(exchange: Option<Exchange>, observedAt: Option<int>, now: int): Option<int> {
    if exchange.None? then None
    else
      var byGateway := if exchange.value.completedAt.None? then None else Some(now - exchange.value.completedAt.value);
      var byPage := if observedAt.None? then None else Some(now - observedAt.value);
      if byGateway.None? && byPage.None? then None else Some(Larger(byGateway.GetOr(0), byPage.GetOr(0)))
  }

  datatype SessionState = NoSession | Open | Expired

  function StateOf(exchange: Option<Exchange>, age: Option<int>, ttl: int): SessionState {
    if exchange.None? || exchange.value.result.None? || !exchange.value.result.value.expectsReply then NoSession
    else if exchange.value.modemImei.None? then NoSession
    else if exchange.value.status != "succeeded" then NoSession
    else if age.None? || age.value > ttl then Expired
    else Open
  }

  function SessionAt(exchange: Option<Exchange>, observedAt: Option<int>, now: int): SessionState {
    StateOf(exchange, SessionAgeMs(exchange, observedAt, now), USSD_SESSION_TTL_MS)
  }

  ghost predicate CanBeContinued(e: Exchange) {
    e.status == "succeeded" && e.modemImei.Some? && e.result.Some? && e.result.value.expectsReply
  }

  /** A clock that is not known says nothing; one that is must not have run past the limit. */
  ghost predicate YoungBy(since: Option<int>, now: int) {
    since.Some? ==> now - since.value <= USSD_SESSION_TTL_MS
  }

  /** Open means: confirmed, waiting for a reply, addressed, and young by every clock that is known, at least one of
      them. */
  lemma OpenMeansYoungByEveryClock(exchange: Option<Exchange>, observedAt: Option<int>, now: int)
    ensures SessionAt(exchange, observedAt, now).Open? <==>
            && exchange.Some? && CanBeContinued(exchange.value)
            && (exchange.value.completedAt.Some? || observedAt.Some?)
            && YoungBy(exchange.value.completedAt, now) && YoungBy(observedAt, now)
  {
  }

  /** Once a known age has run out, later moments do not bring the session back. */
  lemma ExpiryIsFinal(exchange: Option<Exchange>, observedAt: Option<int>, now: int, later: int)
    requires now <= later
    requires SessionAgeMs(exchange, observedAt, now).Some?
    requires SessionAt(exchange, observedAt, now).Expired?
    ensures SessionAt(exchange, observedAt, later).Expired?
  {
  }

  // ---- Requests ----

  datatype Stage = Start | Continue | Cancel

  datatype UssdRequest = UssdRequest(imei: string, code: string, stage: Stage)

  function StageText(stage: Stage): string {
    match stage case Start => "start" case Continue => "continue" case Cancel => "cancel"
  }

  function StartRequest(imei: string, code: string): Option<UssdRequest> {
    if imei == "" || Trim(code) == "" then None else Some(UssdRequest(imei, Trim(code), Start))
  }

  function ContinueRequest(exchange: Option<Exchange>, reply: string): Option<UssdRequest> {
    if exchange.None? || exchange.value.modemImei.None? || Trim(reply) == "" then None
    else Some(UssdRequest(exchange.value.modemImei.value, Trim(reply), Continue))
  }

  function CancelRequest(exchange: Option<Exchange>, selected: string): Option<UssdRequest> {
    var imei := if exchange.Some? && exchange.value.modemImei.Some? then exchange.value.modemImei.value else selected;
    if imei == "" then None else Some(UssdRequest(imei, "", Cancel))
  }

  function Extra(r: UssdRequest): Guards.Payload {
    map["modem_imei" := Str(r.imei), "code" := Str(r.code), "stage" := Str(StageText(r.stage))]
  }

  // ---- The console ----

  /** `seen` is what was last fetched of the log. The log also receives commands issued elsewhere, of any kind. */
  datatype State = State(d: Dispatcher.State, log: seq<Row>, seen: seq<Row>, observed: Option<(nat, int)>, clock: int)

  /** `OtherRequest` comes from a control beside the USSD form; they share one dispatcher and one dialog. */
  datatype Event =
    | SubmitCode(code: string)
    | SubmitReply(reply: string)
    | PressCancel
    | OtherRequest(kind: string, extra: Guards.Payload)
    | Confirm
    | Dismiss
    | Select(imei: string)
    | Refresh
    | Observe
    | Settle(index: nat, status: string, completedAt: Option<int>, result: Option<UssdResult>)
    | Advance(to: int)
    | Elsewhere(row: Row)

  function ObservedAt(s: State): Option<int> {
    var exchange := LatestExchange(s.seen);
    if s.observed.Some? && exchange.Some? && s.observed.value.0 == exchange.value.commandId then
      Some(s.observed.value.1)
    else None
  }

  function StringField(body: Guards.Payload, field: string): Option<string> {
    if field in body && body[field].Str? then Some(body[field].s) else None
  }

  function RowOf(n: nat, body: Guards.Payload): Row {
    Row(n, StringField(body, "kind").GetOr(""), "queued", n, None,
        StringField(body, "modem_imei"), StringField(body, "stage"), StringField(body, "code"), None, true)
  }

  /** The gateway records one row for a post, later than every row before it. */
  function Record(s: State, d: Dispatcher.State): State {
    if |d.posted| == |s.d.posted| + 1 then
      s.(d := d, log := s.log + [RowOf(|s.log|, d.posted[|s.d.posted|].body)])
    else s.(d := d)
  }

  const FETCH_LIMIT: nat := 25

  /** One fetch: the last rows of the log, newest first. */
  function Fetched(log: seq<Row>): seq<Row> {
    var n := if |log| < FETCH_LIMIT then |log| else FETCH_LIMIT;
    seq(n, i requires 0 <= i < n => log[|log| - 1 - i])
  }

  function Submit(s: State, request: Option<UssdRequest>, text: Json -> string): State {
    if request.None? then s
    else Record(s, Dispatcher.Step(s.d, Dispatcher.Request("send_ussd", Extra(request.value)), text))
  }

  function Settled(row: Row, status: string, completedAt: Option<int>, result: Option<UssdResult>): Row {
    row.(status := status, completedAt := completedAt, result := result)
  }

  predicate SessionOpen(s: State) {
    SessionAt(LatestExchange(s.seen), ObservedAt(s), s.clock).Open?
  }

  /** What the three forms hand to the dispatcher. */
  function RequestOf(s: State, e: Event): Option<UssdRequest> {
    var exchange := LatestExchange(s.seen);
    match e
    case SubmitCode(code) => StartRequest(s.d.imei, code)
    case SubmitReply(reply) => if SessionOpen(s) then ContinueRequest(exchange, reply) else None
    case PressCancel => CancelRequest(exchange, s.d.imei)
    case _ => None
  }

  /** A request that leaves a record of another kind. */
  predicate NoUssd(kind: string, extra: Guards.Payload) {
    kind != "send_ussd" && "kind" !in extra
  }

  function Step(s: State, e: Event, text: Json -> string): State {
    var exchange := LatestExchange(s.seen);
    match e
    case SubmitCode(_) => Submit(s, RequestOf(s, e), text)
    case SubmitReply(_) => Submit(s, RequestOf(s, e), text)
    case PressCancel => Submit(s, RequestOf(s, e), text)
    case OtherRequest(kind, extra) =>
      if NoUssd(kind, extra) then Record(s, Dispatcher.Step(s.d, Dispatcher.Request(kind, extra), text)) else s
    case Confirm => Record(s, Dispatcher.Step(s.d, Dispatcher.Proceed, text))
    case Dismiss => s.(d := Dispatcher.Step(s.d, Dispatcher.Cancel, text))
    case Select(imei) => s.(d := Dispatcher.Step(s.d, Dispatcher.Select(imei), text))
    case Refresh => s.(seen := Fetched(s.log))
    case Observe =>
      if exchange.Some? && exchange.value.status == "succeeded"
         && (s.observed.None? || s.observed.value.0 != exchange.value.commandId) then
        s.(observed := Some((exchange.value.commandId, s.clock)))
      else s
    case Settle(i, status, completedAt, result) =>
      if i < |s.log| then s.(log := s.log[i := Settled(s.log[i], status, completedAt, result)]) else s
    case Advance(to) => s.(clock := to)
    case Elsewhere(row) => s.(log := s.log + [row.(id := |s.log|, issuedAt := |s.log|, own := false)])
  }

  function Run(s: State, events: seq<Event>, text: Json -> string): State
    decreases |events|
  {
    if events == [] then s else Run(Step(s, events[0], text), events[1..], text)
  }

  ghost predicate Fresh(s: State) {
    && Dispatcher.Fresh(s.d) && s.d.panel.Console?
    && s.log == [] && s.seen == [] && s.observed.None?
  }

  // ---- What every step keeps ----

  /** A reply this console sent. */
  ghost predicate IsReply(r: Row) {
    r.own && r.kind == "send_ussd" && r.stage == Some("continue")
  }

  ghost predicate Numbered(log: seq<Row>) {
    forall i | 0 <= i < |log| :: log[i].id == i && log[i].issuedAt == i
  }

  /** What a row keeps for good; only how it ended is still written to it. */
  ghost predicate SameRequest(a: Row, b: Row) {
    b == a.(status := b.status, completedAt := b.completedAt, result := b.result)
  }

  /** Every row of `a` is still there in `b`, at its place. */
  ghost predicate StillThere(a: seq<Row>, b: seq<Row>) {
    |a| <= |b| && forall i | 0 <= i < |a| :: SameRequest(a[i], b[i])
  }

  ghost predicate Pends(p: Dispatcher.Pending, r: UssdRequest) {
    p.kind == "send_ussd" && p.extra == Extra(r)
  }

  /** Each fetched row is the row of the log with that number, as it once was. */
  ghost predicate RowsOf(seen: seq<Row>, log: seq<Row>) {
    forall r <- seen :: r.id < |log| && SameRequest(r, log[r.id])
  }

  /** What is pending is a request of the USSD form, or one that leaves a record of another kind. */
  ghost predicate PendingIsTold(p: Dispatcher.Pending) {
    NoUssd(p.kind, p.extra) || exists r :: Pends(p, r)
  }

  ghost predicate Inv(s: State) {
    && s.d.panel.Console? && Numbered(s.log) && RowsOf(s.seen, s.log)
    && (s.d.pending.Some? ==> PendingIsTold(s.d.pending.value))
    && (s.observed.Some? ==> s.observed.value.0 < |s.log|)
  }

  function RowFor(n: nat, r: UssdRequest): Row {
    Row(n, "send_ussd", "queued", n, None, Some(r.imei), Some(StageText(r.stage)), Some(r.code), None, true)
  }

  lemma ExtraSaysAll(r: UssdRequest, q: UssdRequest)
    requires Extra(r) == Extra(q)
    ensures r == q
  {
    var x, y := Extra(r), Extra(q);
    assert x["modem_imei"] == Str(r.imei) && x["code"] == Str(r.code) && x["stage"] == Str(StageText(r.stage));
    assert y["modem_imei"] == Str(q.imei) && y["code"] == Str(q.code) && y["stage"] == Str(StageText(q.stage));
  }

  /** A body built from a request is recorded under the request's own module, whatever is selected. */
  lemma RecordedAsRequested(n: nat, d: Dispatcher.State, r: UssdRequest)
    requires d.panel.Console?
    ensures RowOf(n, Dispatcher.Body(d, "send_ussd", Extra(r))) == RowFor(n, r)
  {
    var body := Dispatcher.Body(d, "send_ussd", Extra(r));
    assert body["kind"] == Str("send_ussd");
    assert body["modem_imei"] == Str(r.imei) && body["code"] == Str(r.code) && body["stage"] == Str(StageText(r.stage));
  }

  /** A body of another kind is recorded as that. */
  lemma RecordedAsOther(n: nat, d: Dispatcher.State, kind: string, extra: Guards.Payload)
    requires d.panel.Console? && NoUssd(kind, extra)
    ensures RowOf(n, Dispatcher.Body(d, kind, extra)).kind != "send_ussd"
  {
    assert Dispatcher.Body(d, kind, extra)["kind"] == Str(kind);
  }

  /** The dispatcher's answer to a request, as the page records it: a row for the body, or the request becomes
      pending. */
  lemma RequestDoes(s: State, kind: string, extra: Guards.Payload, text: Json -> string)
    requires s.d.panel.Console?
    ensures var s' := Record(s, Dispatcher.Step(s.d, Dispatcher.Request(kind, extra), text));
            && s' == s.(d := s'.d, log := s'.log) && s'.d.panel == s.d.panel
            && (|| (&& s'.log == s.log + [RowOf(|s.log|, Dispatcher.Body(s.d, kind, extra))]
                    && s'.d.pending == s.d.pending)
                || (&& s'.log == s.log && s'.d.pending.Some?
                    && s'.d.pending.value.kind == kind && s'.d.pending.value.extra == extra))
  {
  }

  /** A request is posted and recorded, or becomes the pending action. */
  lemma SubmitDoes(s: State, r: UssdRequest, text: Json -> string)
    requires s.d.panel.Console?
    ensures var s' := Submit(s, Some(r), text);
            && s' == s.(d := s'.d, log := s'.log) && s'.d.panel == s.d.panel
            && (|| (s'.log == s.log + [RowFor(|s.log|, r)] && s'.d.pending == s.d.pending)
                || (s'.log == s.log && s'.d.pending.Some? && Pends(s'.d.pending.value, r)))
  {
    RequestDoes(s, "send_ussd", Extra(r), text);
    RecordedAsRequested(|s.log|, s.d, r);
  }

  /** Confirming records the body of what was pending and nothing else. */
  lemma ConfirmDoes(s: State, text: Json -> string)
    requires s.d.panel.Console? && s.d.pending.Some?
    ensures var s', p := Step(s, Confirm, text), s.d.pending.value;
            && s' == s.(d := s'.d, log := s'.log) && s'.d.pending.None? && s'.d.panel == s.d.panel
            && |s'.d.posted| == |s.d.posted| + 1
            && s'.d.posted[|s.d.posted|].body == Dispatcher.Body(s.d, p.kind, p.extra)
            && s'.log == s.log + [RowOf(|s.log|, Dispatcher.Body(s.d, p.kind, p.extra))]
  {
  }

  lemma ConfirmRecordsUssd(s: State, r: UssdRequest, text: Json -> string)
    requires s.d.panel.Console? && s.d.pending.Some? && Pends(s.d.pending.value, r)
    ensures Step(s, Confirm, text).log == s.log + [RowFor(|s.log|, r)]
  {
    ConfirmDoes(s, text);
    RecordedAsRequested(|s.log|, s.d, r);
  }

  lemma RowAdded(seen: seq<Row>, log: seq<Row>, row: Row)
    requires Numbered(log) && RowsOf(seen, log) && row.id == |log| && row.issuedAt == |log|
    ensures Numbered(log + [row]) && RowsOf(seen, log + [row]) && StillThere(log, log + [row])
  {
  }

  lemma RowSettled(s: State, e: Event, text: Json -> string)
    requires Inv(s) && e.Settle?
    ensures Inv(Step(s, e, text)) && StillThere(s.log, Step(s, e, text).log)
  {
    var log := Step(s, e, text).log;
    assert forall i | 0 <= i < |log| :: SameRequest(s.log[i], log[i]);
    forall r | r in s.seen ensures r.id < |log| && SameRequest(r, log[r.id]) {
      assert SameRequest(r, s.log[r.id]);
    }
  }

  lemma FetchedAreRows(log: seq<Row>)
    requires Numbered(log)
    ensures RowsOf(Fetched(log), log)
    ensures forall i | 0 <= i < |log| :: log[i] in Fetched(log) <==> |log| - 25 <= i
    ensures forall i, j | 0 <= i < j < |Fetched(log)| :: Fetched(log)[i].issuedAt > Fetched(log)[j].issuedAt
  {
    var seen := Fetched(log);
    forall i | 0 <= i < |log| ensures log[i] in seen <==> |log| - 25 <= i {
      if |log| - 25 <= i { assert seen[|log| - 1 - i] == log[i]; }
    }
  }

  lemma KeptThrough(a: seq<Row>, b: seq<Row>, c: seq<Row>)
    requires StillThere(a, b) && StillThere(b, c)
    ensures StillThere(a, c)
  {
    forall i | 0 <= i < |a| ensures SameRequest(a[i], c[i]) {
      assert SameRequest(a[i], b[i]) && SameRequest(b[i], c[i]);
    }
  }

  lemma SubmissionKeeps(s: State, e: Event, text: Json -> string)
    requires Inv(s) && (e.SubmitCode? || e.SubmitReply? || e.PressCancel?)
    ensures Inv(Step(s, e, text)) && StillThere(s.log, Step(s, e, text).log)
  {
    var request := RequestOf(s, e);
    if request.Some? {
      SubmitDoes(s, request.value, text);
      RowAdded(s.seen, s.log, RowFor(|s.log|, request.value));
    }
  }

  lemma OtherRequestKeeps(s: State, e: Event, text: Json -> string)
    requires Inv(s) && e.OtherRequest?
    ensures Inv(Step(s, e, text)) && StillThere(s.log, Step(s, e, text).log)
  {
    if NoUssd(e.kind, e.extra) {
      RequestDoes(s, e.kind, e.extra, text);
      RowAdded(s.seen, s.log, RowOf(|s.log|, Dispatcher.Body(s.d, e.kind, e.extra)));
    }
  }

  lemma ConfirmKeeps(s: State, text: Json -> string)
    requires Inv(s)
    ensures Inv(Step(s, Confirm, text)) && StillThere(s.log, Step(s, Confirm, text).log)
  {
    if s.d.pending.Some? {
      ConfirmDoes(s, text);
      RowAdded(s.seen, s.log, RowOf(|s.log|, Dispatcher.Body(s.d, s.d.pending.value.kind, s.d.pending.value.extra)));
    }
  }

  lemma StepKeeps(s: State, e: Event, text: Json -> string)
    requires Inv(s)
    ensures Inv(Step(s, e, text)) && StillThere(s.log, Step(s, e, text).log)
  {
    match e
    case SubmitCode(_) => SubmissionKeeps(s, e, text);
    case SubmitReply(_) => SubmissionKeeps(s, e, text);
    case PressCancel => SubmissionKeeps(s, e, text);
    case OtherRequest(_, _) => OtherRequestKeeps(s, e, text);
    case Confirm => ConfirmKeeps(s, text);
    case Elsewhere(row) => RowAdded(s.seen, s.log, row.(id := |s.log|, issuedAt := |s.log|, own := false));
    case Settle(_, _, _, _) => RowSettled(s, e, text);
    case Refresh => FetchedAreRows(s.log);
    case Observe => NewestRowIsNewest(s.seen);
    case _ =>
  }

  lemma {:induction false} RunKeeps(s: State, events: seq<Event>, text: Json -> string)
    requires Inv(s)
    ensures Inv(Run(s, events, text)) && StillThere(s.log, Run(s, events, text).log)
    decreases |events|
  {
    if events != [] {
      var s' := Step(s, events[0], text);
      StepKeeps(s, events[0], text);
      RunKeeps(s', events[1..], text);
      KeptThrough(s.log, s'.log, Run(s, events, text).log);
    }
  }

  /** A fetch shows the newest exchange of the log exactly while one of the fetched rows is USSD, or none ever was. */
  lemma FetchShowsTheNewestIff(log: seq<Row>)
    requires Numbered(log)
    ensures LatestExchange(Fetched(log)) == LatestExchange(log) <==>
            || (exists r <- Fetched(log) :: r.kind == "send_ussd")
            || (forall r <- log :: r.kind != "send_ussd")
  {
    NewestRowIsNewest(Fetched(log));
    NewestRowIsNewest(log);
    if NewestRow(Fetched(log)).Some? { FetchedNewestIsNewest(log); }
  }

  lemma FetchedNewestIsNewest(log: seq<Row>)
    requires Numbered(log) && NewestRow(Fetched(log)).Some?
    ensures NewestRow(log) == NewestRow(Fetched(log))
  {
    var seen := Fetched(log);
    FetchedAreRows(log);
    NewestRowIsNewest(seen);
    NewestRowIsNewest(log);
    var a := NewestRow(seen).value;
    assert a in log;
    var b := NewestRow(log).value;
    assert log[b.id] == b && log[a.id] == a;
  }

  // ---- Where replies come from ----

  /** Before event `k` of the run the session of the newest fetched exchange, on module `imei`, was open by every known
      clock, and event `k` wrote `code` as its reply. */
  ghost predicate Wrote(s: State, events: seq<Event>, k: nat, imei: string, code: string, text: Json -> string) {
    && k < |events| && events[k].SubmitReply? && Trim(events[k].reply) == code
    && var earlier := Run(s, events[..k], text);
       SessionOpen(earlier) && LatestExchange(earlier.seen).value.modemImei == Some(imei)
  }

  /** Row `i` is a reply written at event `k`, when the log was not yet that long. */
  ghost predicate RepliedAt(s: State, events: seq<Event>, k: nat, row: Row, i: nat, text: Json -> string) {
    && row.modemImei.Some? && row.code.Some?
    && Wrote(s, events, k, row.modemImei.value, row.code.value, text)
    && |Run(s, events[..k], text).log| <= i
  }

  ghost predicate PendingAt(s: State, events: seq<Event>, k: nat, r: UssdRequest, text: Json -> string) {
    Wrote(s, events, k, r.imei, r.code, text) && |Run(s, events[..k], text).log| <= |Run(s, events, text).log|
  }

  /** Every reply in the log, and a reply that is pending, was written in an open session of the run. */
  ghost predicate Traced(s: State, events: seq<Event>, text: Json -> string) {
    var w := Run(s, events, text);
    && Inv(w)
    && (forall i | 0 <= i < |w.log| && IsReply(w.log[i]) :: exists k: nat :: RepliedAt(s, events, k, w.log[i], i, text))
    && (forall r: UssdRequest | w.d.pending.Some? && Pends(w.d.pending.value, r) && r.stage.Continue? ::
          exists k: nat :: PendingAt(s, events, k, r, text))
  }

  lemma {:induction false} RunSnoc(s: State, events: seq<Event>, e: Event, text: Json -> string)
    ensures Run(s, events + [e], text) == Step(Run(s, events, text), e, text)
    decreases |events|
  {
    if events == [] {
      assert [] + [e] == [e] && [e][1..] == [];
      assert Run(s, [e], text) == Run(Step(s, e, text), [], text);
    } else {
      assert (events + [e])[0] == events[0] && (events + [e])[1..] == events[1..] + [e];
      RunSnoc(Step(s, events[0], text), events[1..], e, text);
    }
  }

  lemma WroteStays(s: State, events: seq<Event>, e: Event, k: nat, imei: string, code: string, text: Json -> string)
    requires Wrote(s, events, k, imei, code, text)
    ensures Wrote(s, events + [e], k, imei, code, text) && (events + [e])[..k] == events[..k]
  {
    assert (events + [e])[..k] == events[..k];
  }

  /** Which replies one step can add: the pending one, on confirmation. */
  lemma NewReply(w: State, e: Event, i: nat, text: Json -> string)
    requires Inv(w) && i < |Step(w, e, text).log| && IsReply(Step(w, e, text).log[i])
    ensures || (i < |w.log| && IsReply(w.log[i]) && SameRequest(w.log[i], Step(w, e, text).log[i]))
            || (e.Confirm? && i == |w.log| && w.d.pending.Some?
                && exists r ::
                     Pends(w.d.pending.value, r) && r.stage.Continue? && Step(w, e, text).log[i] == RowFor(i, r))
  {
    StepKeeps(w, e, text);
    if i < |w.log| {
      assert SameRequest(w.log[i], Step(w, e, text).log[i]);
    } else if RequestOf(w, e).Some? {
      SubmittedIsNoReply(w, e, i, text);
    } else if e.OtherRequest? && NoUssd(e.kind, e.extra) {
      RequestDoes(w, e.kind, e.extra, text);
      RecordedAsOther(|w.log|, w.d, e.kind, e.extra);
    } else if e.Confirm? && w.d.pending.Some? {
      ConfirmedReply(w, i, text);
    }
  }

  lemma ConfirmedReply(w: State, i: nat, text: Json -> string)
    requires Inv(w) && w.d.pending.Some?
    requires |w.log| <= i < |Step(w, Confirm, text).log| && IsReply(Step(w, Confirm, text).log[i])
    ensures i == |w.log|
    ensures exists r ::
              Pends(w.d.pending.value, r) && r.stage.Continue? && Step(w, Confirm, text).log[i] == RowFor(i, r)
  {
    var p := w.d.pending.value;
    ConfirmDoes(w, text);
    if NoUssd(p.kind, p.extra) {
      RecordedAsOther(|w.log|, w.d, p.kind, p.extra);
    } else {
      var r :| Pends(p, r);
      ConfirmRecordsUssd(w, r, text);
    }
  }

  /** What the forms post without asking is never a reply. */
  lemma SubmittedIsNoReply(w: State, e: Event, i: nat, text: Json -> string)
    requires Inv(w) && RequestOf(w, e).Some? && |w.log| <= i < |Step(w, e, text).log|
    ensures !IsReply(Step(w, e, text).log[i])
  {
    var r := RequestOf(w, e).value;
    SubmitDoes(w, r, text);
    if r.stage.Continue? { ReplyIsAsked(w, r, text); }
  }

  /** Which reply can be pending after a step: the one that was, or the one just written. */
  lemma NewPending(w: State, e: Event, r: UssdRequest, text: Json -> string)
    requires Inv(w) && r.stage.Continue?
    requires Step(w, e, text).d.pending.Some? && Pends(Step(w, e, text).d.pending.value, r)
    ensures || (w.d.pending.Some? && Pends(w.d.pending.value, r))
            || (e.SubmitReply? && RequestOf(w, e) == Some(r))
  {
    if RequestOf(w, e).Some? {
      PendingAfterSubmit(w, RequestOf(w, e).value, r, text);
    } else if e.OtherRequest? && NoUssd(e.kind, e.extra) {
      RequestDoes(w, e.kind, e.extra, text);
    }
  }

  lemma PendingAfterSubmit(w: State, q: UssdRequest, r: UssdRequest, text: Json -> string)
    requires Inv(w) && Submit(w, Some(q), text).d.pending.Some? && Pends(Submit(w, Some(q), text).d.pending.value, r)
    ensures (w.d.pending.Some? && Pends(w.d.pending.value, r)) || q == r
  {
    SubmitDoes(w, q, text);
    if Pends(Submit(w, Some(q), text).d.pending.value, q) { ExtraSaysAll(q, r); }
  }

  lemma RepliesStayTraced(s: State, events: seq<Event>, e: Event, i: nat, text: Json -> string)
    requires Traced(s, events, text)
    requires i < |Run(s, events + [e], text).log| && IsReply(Run(s, events + [e], text).log[i])
    ensures exists k: nat :: RepliedAt(s, events + [e], k, Run(s, events + [e], text).log[i], i, text)
  {
    var w, more := Run(s, events, text), events + [e];
    RunSnoc(s, events, e, text);
    NewReply(w, e, i, text);
    var row := Run(s, more, text).log[i];
    if i < |w.log| {
      var k: nat :| RepliedAt(s, events, k, w.log[i], i, text);
      WroteStays(s, events, e, k, row.modemImei.value, row.code.value, text);
      assert RepliedAt(s, more, k, row, i, text);
    } else {
      var r :| Pends(w.d.pending.value, r) && r.stage.Continue? && row == RowFor(i, r);
      var k: nat :| PendingAt(s, events, k, r, text);
      WroteStays(s, events, e, k, r.imei, r.code, text);
      assert RepliedAt(s, more, k, row, i, text);
    }
  }

  lemma PendingStaysTraced(s: State, events: seq<Event>, e: Event, r: UssdRequest, text: Json -> string)
    requires Traced(s, events, text) && r.stage.Continue?
    requires var w' := Run(s, events + [e], text); w'.d.pending.Some? && Pends(w'.d.pending.value, r)
    ensures exists k: nat :: PendingAt(s, events + [e], k, r, text)
  {
    var w, more := Run(s, events, text), events + [e];
    RunSnoc(s, events, e, text);
    NewPending(w, e, r, text);
    StepKeeps(w, e, text);
    if w.d.pending.Some? && Pends(w.d.pending.value, r) {
      var k: nat :| PendingAt(s, events, k, r, text);
      WroteStays(s, events, e, k, r.imei, r.code, text);
      assert PendingAt(s, more, k, r, text);
    } else {
      assert more[..|events|] == events && more[|events|] == e;
      assert PendingAt(s, more, |events|, r, text);
    }
  }

  lemma {:induction false} RunIsTraced(s: State, events: seq<Event>, text: Json -> string)
    requires Fresh(s)
    ensures Traced(s, events, text)
    decreases |events|
  {
    if events != [] {
      var less, e := events[..|events| - 1], events[|events| - 1];
      assert events == less + [e];
      RunIsTraced(s, less, text);
      RunSnoc(s, less, e, text);
      StepKeeps(Run(s, less, text), e, text);
      forall i | 0 <= i < |Run(s, events, text).log| && IsReply(Run(s, events, text).log[i])
        ensures exists k: nat :: RepliedAt(s, events, k, Run(s, events, text).log[i], i, text)
      {
        RepliesStayTraced(s, less, e, i, text);
      }
      forall r: UssdRequest | r.stage.Continue? && Run(s, events, text).d.pending.Some?
        && Pends(Run(s, events, text).d.pending.value, r)
        ensures exists k: nat :: PendingAt(s, events, k, r, text)
      {
        PendingStaysTraced(s, less, e, r, text);
      }
    }
  }

  /** The newest exchange fetched is on module `imei`, succeeded, waits for a reply, and is young by every known clock,
      of which there is one at least. */
  ghost predicate Answerable(w: State, imei: Option<string>) {
    var exchange := LatestExchange(w.seen);
    && exchange.Some? && CanBeContinued(exchange.value) && exchange.value.modemImei == imei
    && (exchange.value.completedAt.Some? || ObservedAt(w).Some?)
    && YoungBy(exchange.value.completedAt, w.clock) && YoungBy(ObservedAt(w), w.clock)
  }

  lemma WroteToAnswerable(s: State, events: seq<Event>, k: nat, row: Row, i: nat, text: Json -> string)
    requires RepliedAt(s, events, k, row, i, text)
    ensures Answerable(Run(s, events[..k], text), row.modemImei)
  {
    var earlier := Run(s, events[..k], text);
    OpenMeansYoungByEveryClock(LatestExchange(earlier.seen), ObservedAt(earlier), earlier.clock);
  }

  /** Every reply in every log: at some event of the run it was written, word for word, and just then the newest
      exchange fetched could be answered, on the module the reply went to. */
  lemma RepliesGoToTheirSession(s: State, events: seq<Event>, i: nat, text: Json -> string)
    requires Fresh(s)
    requires i < |Run(s, events, text).log| && IsReply(Run(s, events, text).log[i])
    ensures var row := Run(s, events, text).log[i];
            exists k: nat :: k < |events| && events[k].SubmitReply? && row.code == Some(Trim(events[k].reply))
                             && Answerable(Run(s, events[..k], text), row.modemImei)
  {
    RunIsTraced(s, events, text);
    var row := Run(s, events, text).log[i];
    var k: nat :| RepliedAt(s, events, k, row, i, text);
    WroteToAnswerable(s, events, k, row, i, text);
  }

  /** The exchange a reply answers is an earlier row of the log, on the same module. */
  lemma AnsweredRow(s: State, events: seq<Event>, i: nat, text: Json -> string) returns (j: nat)
    requires Fresh(s)
    requires i < |Run(s, events, text).log| && IsReply(Run(s, events, text).log[i])
    ensures var log := Run(s, events, text).log;
            j < i && log[j].kind == "send_ussd" && log[j].modemImei == log[i].modemImei
  {
    RunIsTraced(s, events, text);
    var row := Run(s, events, text).log[i];
    var k: nat :| RepliedAt(s, events, k, row, i, text);
    WroteToAnswerable(s, events, k, row, i, text);
    j := AnsweredSince(s, events, k, row.modemImei, text);
  }

  lemma AnsweredSince(s: State, events: seq<Event>, k: nat, imei: Option<string>, text: Json -> string)
    returns (j: nat)
    requires Fresh(s) && k <= |events| && Answerable(Run(s, events[..k], text), imei)
    ensures var log := Run(s, events, text).log;
            j < |Run(s, events[..k], text).log| <= |log| && log[j].kind == "send_ussd" && log[j].modemImei == imei
  {
    RunIsTraced(s, events[..k], text);
    assert events == events[..k] + events[k..];
    RunConcat(s, events[..k], events[k..], text);
    j := ExchangeIsARow(Run(s, events[..k], text), events[k..], imei, text);
  }

  /** The exchange that can be answered now is a row of every later log. */
  lemma ExchangeIsARow(w: State, rest: seq<Event>, imei: Option<string>, text: Json -> string) returns (j: nat)
    requires Inv(w) && Answerable(w, imei)
    ensures var log := Run(w, rest, text).log;
            j < |w.log| <= |log| && log[j].kind == "send_ussd" && log[j].modemImei == imei
  {
    NewestRowIsNewest(w.seen);
    var newest := NewestRow(w.seen).value;
    j := newest.id;
    RunKeeps(w, rest, text);
    assert SameRequest(newest, w.log[j]) && SameRequest(w.log[j], Run(w, rest, text).log[j]);
  }

  lemma {:induction false} RunConcat(s: State, a: seq<Event>, b: seq<Event>, text: Json -> string)
    ensures Run(s, a + b, text) == Run(Run(s, a, text), b, text)
    decreases |a|
  {
    if a == [] {
      assert a + b == b;
    } else {
      assert (a + b)[0] == a[0] && (a + b)[1..] == a[1..] + b;
      RunConcat(Step(s, a[0], text), a[1..], b, text);
    }
  }

  /** Following replies back ends, on the same module, at a USSD command that was not a reply of this console: nobody is
      ever answered on a module where no session had been opened or closed before. */
  lemma {:induction false} EveryReplyHasAnOrigin(s: State, events: seq<Event>, i: nat, text: Json -> string)
    requires Fresh(s)
    requires i < |Run(s, events, text).log| && IsReply(Run(s, events, text).log[i])
    ensures var log := Run(s, events, text).log;
            exists j | 0 <= j < i ::
              log[j].kind == "send_ussd" && !IsReply(log[j]) && log[j].modemImei == log[i].modemImei
    decreases i
  {
    var j := AnsweredRow(s, events, i, text);
    if IsReply(Run(s, events, text).log[j]) { EveryReplyHasAnOrigin(s, events, j, text); }
  }

  // ---- Between writing a reply and confirming it ----

  /** What can happen while the dialog is open, short of answering it or asking something else. */
  predicate Idle(e: Event) {
    e.Select? || e.Advance? || e.Refresh? || e.Observe? || e.Settle? || e.Elsewhere?
  }

  lemma {:induction false} IdleKeepsPending(s: State, between: seq<Event>, text: Json -> string)
    requires s.d.panel.Console? && forall e <- between :: Idle(e)
    ensures var s' := Run(s, between, text);
            s'.d.pending == s.d.pending && s'.d.posted == s.d.posted && s'.d.panel == s.d.panel
    decreases |between|
  {
    if between != [] {
      assert Idle(between[0]);
      IdleKeepsPending(Step(s, between[0], text), between[1..], text);
    }
  }

  /** However long that lasts and whatever else is recorded meanwhile, confirming posts and records the reply as it was
      written, to the module it answers. */
  lemma ReplySurvives(s: State, reply: string, between: seq<Event>, text: Json -> string)
    requires Inv(s) && SessionOpen(s) && Trim(reply) != ""
    requires forall e <- between :: Idle(e)
    ensures var r := ContinueRequest(LatestExchange(s.seen), reply).value;
            var before := Run(Step(s, SubmitReply(reply), text), between, text);
            var after := Step(before, Confirm, text);
            && r.imei == LatestExchange(s.seen).value.modemImei.value && r.code == Trim(reply) && r.stage.Continue?
            && after.log == before.log + [RowFor(|before.log|, r)]
            && before.d.posted == s.d.posted && |after.d.posted| == |s.d.posted| + 1
            && forall f <- Extra(r) ::
                 f in after.d.posted[|s.d.posted|].body && after.d.posted[|s.d.posted|].body[f] == Extra(r)[f]
  {
    var exchange := LatestExchange(s.seen);
    OpenMeansYoungByEveryClock(exchange, ObservedAt(s), s.clock);
    var r := ContinueRequest(exchange, reply).value;
    ReplyIsAsked(s, r, text);
    var s1 := Step(s, SubmitReply(reply), text);
    IdleKeepsPending(s1, between, text);
    ConfirmDoes(Run(s1, between, text), text);
    ConfirmRecordsUssd(Run(s1, between, text), r, text);
  }

  /** Moving the selector before the answer moves nothing. */
  lemma SelectorDoesNotAimReplies(s: State, reply: string, imei: string, text: Json -> string)
    requires Inv(s) && SessionOpen(s) && Trim(reply) != ""
    ensures var s' := Step(Run(Step(s, SubmitReply(reply), text), [Select(imei)], text), Confirm, text);
            |s'.log| > 0 && s'.log[|s'.log| - 1].modemImei == LatestExchange(s.seen).value.modemImei
  {
    ReplySurvives(s, reply, [Select(imei)], text);
    OpenMeansYoungByEveryClock(LatestExchange(s.seen), ObservedAt(s), s.clock);
  }

  /** The deadline is looked at when the reply is written, not when the dialog is answered: however long that takes, it
      is sent. */
  lemma DeadlineIsNotAskedAgain(s: State, reply: string, late: int, text: Json -> string)
    requires Inv(s) && SessionOpen(s) && Trim(reply) != ""
    ensures var s' := Step(Run(Step(s, SubmitReply(reply), text), [Advance(late)], text), Confirm, text);
            |s'.log| > 0 && IsReply(s'.log[|s'.log| - 1])
  {
    ReplySurvives(s, reply, [Advance(late)], text);
  }

  /** A reply always waits for its dialog. */
  lemma ReplyIsAsked(s: State, r: UssdRequest, text: Json -> string)
    requires s.d.panel.Console? && r.stage.Continue?
    ensures var s' := Submit(s, Some(r), text);
            s' == s.(d := s'.d) && s'.d.posted == s.d.posted && s'.d.panel == s.d.panel
            && s'.d.pending.Some? && Pends(s'.d.pending.value, r)
  {
    var asked := Dispatcher.Asked(s.d, Extra(r));
    assert asked["stage"] == Str("continue");
    CommandTable.UssdIsRight(asked, text);
  }
}
