/**
 eSIM state rebuilt from the command log (`lib/catalog.ts`) and the verdict on a
 profile switch (`lib/tokens.ts`), as functions of the log.

 `lc` stands for `localeCompare`. An absent string field is None; `AsString`
 also turns the empty string into None, as the parsers do.
 */
module Esim {
  import opened Wrappers
  import opened Ordering
  import opened Newest
  import opened Texts

  datatype RawProfile = RawProfile(iccid: Option<string>, enabled: Option<bool>, name: Option<string>)

  datatype Details = Details(
    eid: Option<string>, imei: Option<string>, profiles: seq<RawProfile>, profilesError: Option<string>)

  /** One relayed command. `details` is None when the result carries no object. */
  datatype Command = Command(
    id: string, kind: string, status: string, completedAt: Option<int>,
    modemImei: Option<string>, targetIccid: Option<string>, reason: Option<string>, details: Option<Details>)

  datatype ReadProfile = ReadProfile(iccid: string, enabled: bool, name: Option<string>)

  datatype Listing = Listing(
    modemImei: string, eid: Option<string>, profiles: seq<ReadProfile>, profilesError: Option<string>, collectedAt: int)

  datatype ProfileRow = ProfileRow(
    eid: string, iccid: string, state: string, nickname: Option<string>,
    modemImei: Option<string>, collectedAt: int, source: string)

  datatype ReadFailure = ReadFailure(modemImei: string, noEuicc: bool, reason: string, failedAt: Option<int>)

  datatype SwitchState = Unverified | Confirmed | Contradicted

  datatype Verdict = Verdict(
    targetIccid: string, modemImei: Option<string>, state: SwitchState, readAt: Option<int>, observed: Option<string>)

  function At(r: Command): int {
    r.completedAt.GetOr(0)
  }

  const ESIM_CHIP_COMMANDS: set<string> := {"read_esim_info", "list_esim_profiles"}

  // ---- Chip readings, one per EID ----

  datatype ChipInfo = ChipInfo(imei: string, eid: string)

  function ParseInfo(details: Option<Details>): Option<ChipInfo> {
    if details.None? then None
    else
      var eid, imei := AsString(details.value.eid), AsString(details.value.imei);
      if eid.None? || imei.None? then None else Some(ChipInfo(imei.value, eid.value))
  }

  function ChipKey(r: Command): Option<string> {
    if r.kind != "read_esim_info" || r.status != "succeeded" then None
    else
      var info := ParseInfo(r.details);
      if info.None? then None else Some(info.value.eid)
  }

  const CHIP: Rule<Command, string> := Rule(ChipKey, At, false)

  function ByEid(lc: (string, string) -> int): (Command, Command) -> int {
    (l, r) => lc(ChipKey(l).GetOr(""), ChipKey(r).GetOr(""))
  }

  /** The newest successful reading of each chip, as the log rows they came from, in EID order. */
  function ChipReads(rows: seq<Command>, lc: (string, string) -> int): seq<Command> {
    Sort(ByEid(lc), Kept(CHIP, rows).Values())
  }

  /** `eidByImei`: filled in EID order, so the last EID naming a module stays. */
  function EidByImei(chips: seq<Command>): map<string, string> {
    if chips == [] then map[]
    else
      var before := EidByImei(chips[..|chips| - 1]);
      var info := ParseInfo(chips[|chips| - 1].details);
      if info.None? then before else before[info.value.imei := info.value.eid]
  }

  // ---- Listings, one per module ----

  function ListingKey(r: Command): Option<string> {
    if r.status != "succeeded" || r.kind !in ESIM_CHIP_COMMANDS || r.details.None? then None
    else
      var own := AsString(r.details.value.imei);
      if own.Some? then own else AsString(r.modemImei)
  }

  const LISTING: Rule<Command, string> := Rule(ListingKey, At, false)

  function ParseProfiles(raw: seq<RawProfile>): seq<ReadProfile> {
    if raw == [] then []
    else
      var iccid := AsString(raw[0].iccid);
      (if iccid.None? then [] else [ReadProfile(iccid.value, raw[0].enabled == Some(true), raw[0].name)])
      + ParseProfiles(raw[1..])
  }

  function ListingOf(r: Command, eidByImei: map<string, string>): Listing
    requires ListingKey(r).Some?
  {
    var imei := ListingKey(r).value;
    var body := r.details.value;
    var own := AsString(body.eid);
    var eid := if own.Some? then own else if imei in eidByImei then Some(eidByImei[imei]) else None;
    Listing(imei, eid, ParseProfiles(body.profiles), AsString(body.profilesError), At(r))
  }

  function ListingsOf(rows: seq<Command>, eidByImei: map<string, string>): seq<Listing> {
    if rows == [] then []
    else
      (if ListingKey(rows[0]).Some? then [ListingOf(rows[0], eidByImei)] else []) + ListingsOf(rows[1..], eidByImei)
  }

  function ByModem(lc: (string, string) -> int): (Listing, Listing) -> int {
    (l: Listing, r: Listing) => lc(l.modemImei, r.modemImei)
  }

  function Listings(rows: seq<Command>, lc: (string, string) -> int): seq<Listing> {
    Sort(ByModem(lc), ListingsOf(Kept(LISTING, rows).Values(), EidByImei(ChipReads(rows, lc))))
  }

  // ---- Profile rows ----

  function RowOf(l: Listing, p: ReadProfile): ProfileRow
    requires l.eid.Some?
  {
    ProfileRow(l.eid.value, p.iccid, if p.enabled then "enabled" else "disabled", p.name,
               Some(l.modemImei), l.collectedAt, "read")
  }

  function RowsOf(l: Listing, profiles: seq<ReadProfile>): seq<ProfileRow> {
    if AsString(l.eid).None? || profiles == [] then [] else [RowOf(l, profiles[0])] + RowsOf(l, profiles[1..])
  }

  function RowsOfListings(listings: seq<Listing>): seq<ProfileRow> {
    if listings == [] then [] else RowsOf(listings[0], listings[0].profiles) + RowsOfListings(listings[1..])
  }

  function RowsFromReads(rows: seq<Command>, lc: (string, string) -> int): seq<ProfileRow> {
    RowsOfListings(Listings(rows, lc))
  }

  function KeyText(eid: string, iccid: string): string {
    eid + "/" + iccid
  }

  function ProfileKey(r: ProfileRow): Option<string> {
    if r.eid == "" || r.iccid == "" then None else Some(KeyText(r.eid, r.iccid))
  }

  function CollectedAt(r: ProfileRow): int {
    r.collectedAt
  }

  const PROFILE: Rule<ProfileRow, string> := Rule(ProfileKey, CollectedAt, true)

  function StateRank(state: string): int {
    if state == "enabled" then 0 else if state == "disabled" then 1 else if state == "deleted" then 2 else 3
  }

  function Canonical(lc: (string, string) -> int): (ProfileRow, ProfileRow) -> int {
    Chain([(l: ProfileRow, r: ProfileRow) => lc(l.eid, r.eid),
           (l: ProfileRow, r: ProfileRow) => StateRank(l.state) - StateRank(r.state),
           (l: ProfileRow, r: ProfileRow) => lc(l.iccid, r.iccid)])
  }

  function Merge(inventory: seq<ProfileRow>, fromReads: seq<ProfileRow>, lc: (string, string) -> int): seq<ProfileRow> {
    Sort(Canonical(lc), Kept(PROFILE, inventory + fromReads).Values())
  }

  // ---- Failures ----

  predicate FoldedAt(word: string, s: string, i: int) {
    0 <= i <= |s| - |word| && forall j | 0 <= j < |word| :: Lower(s[i + j]) == word[j]
  }

  /** `word`, already lower case, occurs in `s` whatever the case of `s`. */
  predicate OccursFolded(word: string, s: string) {
    exists i | 0 <= i <= |s| :: FoldedAt(word, s, i)
  }

  predicate RefusedIsdrChannel(reason: string) {
    OccursFolded("open isd-r channel", reason)
  }

  function ChipModem(r: Command): Option<string> {
    if r.kind in ESIM_CHIP_COMMANDS then AsString(r.modemImei) else None
  }

  function FailKey(r: Command): Option<string> {
    if r.status == "failed" then ChipModem(r) else None
  }

  const FAIL: Rule<Command, string> := Rule(FailKey, At, false)

  predicate SucceededOn(r: Command, imei: string) {
    r.status == "succeeded" && ChipModem(r) == Some(imei)
  }

  /** The newest success on a module, or -1. */
  function NewestSuccess(rows: seq<Command>, imei: string): int {
    if rows == [] then -1
    else
      var before := NewestSuccess(rows[..|rows| - 1], imei);
      var row := rows[|rows| - 1];
      if SucceededOn(row, imei) && At(row) > before then At(row) else before
  }

  /** Every module anything has ever got an EID out of. */
  function KnownEuicc(rows: seq<Command>, inventory: seq<ProfileRow>): set<string> {
    (set r | r in inventory && AsString(r.modemImei).Some? && r.eid != "" :: r.modemImei.value)
    + (set r | r in rows && r.status == "succeeded" && ChipModem(r).Some? && ParseInfo(r.details).Some? ::
         ChipModem(r).value)
  }

  function FailureOf(r: Command, known: set<string>): ReadFailure
    requires FailKey(r).Some?
  {
    var reason := r.reason.GetOr("");
    ReadFailure(FailKey(r).value, RefusedIsdrChannel(reason) && FailKey(r).value !in known, reason, r.completedAt)
  }

  predicate StillBroken(r: Command, rows: seq<Command>)
    requires FailKey(r).Some?
  {
    At(r) > NewestSuccess(rows, FailKey(r).value)
  }

  function Broken(newest: seq<Command>, rows: seq<Command>, known: set<string>): seq<ReadFailure> {
    if newest == [] then []
    else
      (if FailKey(newest[0]).Some? && StillBroken(newest[0], rows) then [FailureOf(newest[0], known)] else [])
      + Broken(newest[1..], rows, known)
  }

  function ByFailedModem(lc: (string, string) -> int): (ReadFailure, ReadFailure) -> int {
    (l: ReadFailure, r: ReadFailure) => lc(l.modemImei, r.modemImei)
  }

  function ReadFailures(rows: seq<Command>, inventory: seq<ProfileRow>, lc: (string, string) -> int): seq<ReadFailure> {
    Sort(ByFailedModem(lc), Broken(Kept(FAIL, rows).Values(), rows, KnownEuicc(rows, inventory)))
  }

  /** Rows of several fetches as one list, the first of each id. */
  function MergeBatch(out: seq<Command>, batch: seq<Command>): seq<Command> {
    if batch == [] then out
    else
      var sofar := MergeBatch(out, batch[..|batch| - 1]);
      var row := batch[|batch| - 1];
      if exists r <- sofar :: r.id == row.id then sofar else sofar + [row]
  }

  function MergeBatches(batches: seq<seq<Command>>): seq<Command> {
    if batches == [] then [] else MergeBatch(MergeBatches(batches[..|batches| - 1]), batches[|batches| - 1])
  }

  // ---- The verdict on a switch ----

  function SwitchKey(r: Command): Option<()> {
    if r.kind == "switch_esim_profile" && r.status == "succeeded" then Some(()) else None
  }

  const SWITCH: Rule<Command, ()> := Rule(SwitchKey, At, false)

  predicate IsEvidence(p: ProfileRow, iccid: string, after: int) {
    p.iccid == iccid && p.collectedAt > after
  }

  function Evidence(iccid: string, after: int): Rule<ProfileRow, ()> {
    Rule((p: ProfileRow) => if IsEvidence(p, iccid, after) then Some(()) else None, CollectedAt, false)
  }

  /** The first row of maximal time among those a one-key rule admits. */
  function Top<R>(rule: Rule<R, ()>, rows: seq<R>): Option<R> {
    var kept := Kept(rule, rows).vals;
    if () in kept then Some(kept[()]) else None
  }

  function Judge(latest: Option<ProfileRow>): SwitchState {
    if latest.None? then Unverified else if latest.value.state == "enabled" then Confirmed else Contradicted
  }

  function SwitchVerdict(commands: seq<Command>, observed: seq<ProfileRow>): Option<Verdict> {
    var newest := Top(SWITCH, commands);
    if newest.None? || newest.value.targetIccid.GetOr("") == "" then None
    else
      var target := newest.value.targetIccid.value;
      var latest := Top(Evidence(target, At(newest.value)), observed);
      Some(Verdict(target, newest.value.modemImei, Judge(latest),
                   if latest.None? then None else Some(latest.value.collectedAt),
                   if latest.None? then None else Some(latest.value.state)))
  }

  /** What the panel shows: the verdict over the durable inventory merged with the log's own readings. */
  function PanelVerdict(commands: seq<Command>, inventory: seq<ProfileRow>,
                        lc: (string, string) -> int): Option<Verdict> {
    SwitchVerdict(commands, Merge(inventory, RowsFromReads(commands, lc), lc))
  }
}
