/** What the rows of the command log say, field by field: the keys and times the folds go by, without the folds. */
module EsimLog {
  import opened Wrappers
  import opened Newest
  import opened Esim

  /** The field is there, and holds `text`. */
  predicate Says(field: Option<string>, text: string) {
    field == Some(text) && text != ""
  }

  predicate Unsaid(field: Option<string>) {
    field == None || field == Some("")
  }

  /** When the command completed; one that has not counts as the epoch. */
  function Moment(r: Command): int {
    match r.completedAt case None => 0 case Some(at) => at
  }

  predicate AsksTheChip(r: Command) {
    r.kind == "read_esim_info" || r.kind == "list_esim_profiles"
  }

  /** Chip `eid` answered, in module `imei`. */
  predicate ReadIn(r: Command, imei: string, eid: string) {
    && r.kind == "read_esim_info" && r.status == "succeeded" && r.details.Some?
    && Says(r.details.value.eid, eid) && Says(r.details.value.imei, imei)
  }

  /** The chip in module `imei` listed its profiles: the module the answer names, else the one it was asked in. */
  predicate ListedIn(r: Command, imei: string) {
    && AsksTheChip(r) && r.status == "succeeded" && r.details.Some?
    && (Says(r.details.value.imei, imei) || (Unsaid(r.details.value.imei) && Says(r.modemImei, imei)))
  }

  predicate SucceededIn(r: Command, imei: string) {
    AsksTheChip(r) && r.status == "succeeded" && Says(r.modemImei, imei)
  }

  predicate FailedIn(r: Command, imei: string) {
    AsksTheChip(r) && r.status == "failed" && Says(r.modemImei, imei)
  }

  predicate Switched(r: Command) {
    r.kind == "switch_esim_profile" && r.status == "succeeded"
  }

  /** The keys of the folds are what the rows say, and the time is when they completed. */
  lemma KeysAreWhatRowsSay(r: Command, imei: string, eid: string)
    ensures ListingKey(r) == Some(imei) <==> ListedIn(r, imei)
    ensures ChipKey(r) == Some(eid) && ParseInfo(r.details).value.imei == imei <==> ReadIn(r, imei, eid)
    ensures FailKey(r) == Some(imei) <==> FailedIn(r, imei)
    ensures SucceededOn(r, imei) <==> SucceededIn(r, imei)
    ensures SwitchKey(r).Some? <==> Switched(r)
    ensures At(r) == Moment(r)
  {
  }

  /** Of the rows that say `p`, the newest, and the first of the newest. */
  ghost predicate FirstNewest(rows: seq<Command>, p: Command -> bool, i: int) {
    && 0 <= i < |rows| && p(rows[i])
    && forall j | 0 <= j < |rows| && p(rows[j]) ::
         Moment(rows[j]) < Moment(rows[i]) || (Moment(rows[j]) == Moment(rows[i]) && i <= j)
  }

  /** A fold keeps, for each key, the first of the newest rows that say it. */
  lemma WinnersAreFirstNewest<K>(rule: Rule<Command, K>, rows: seq<Command>, k: K, p: Command -> bool, i: int)
    requires !rule.laterWins && forall r <- rows :: rule.at(r) == Moment(r)
    requires forall r <- rows :: rule.key(r) == Some(k) <==> p(r)
    ensures Wins(rule, rows, i) && rule.key(rows[i]) == Some(k) <==> FirstNewest(rows, p, i)
  {
  }

  /** The newest listing of module `imei`. */
  ghost predicate NewestListing(rows: seq<Command>, imei: string, i: int) {
    FirstNewest(rows, (r: Command) => ListedIn(r, imei), i)
  }

  lemma ListingWinners(rows: seq<Command>, imei: string, i: int)
    ensures Wins(LISTING, rows, i) && ListingKey(rows[i]) == Some(imei) <==> NewestListing(rows, imei, i)
  {
    var p := (r: Command) => ListedIn(r, imei);
    forall r | r in rows ensures LISTING.at(r) == Moment(r) && (LISTING.key(r) == Some(imei) <==> p(r)) {
      KeysAreWhatRowsSay(r, imei, "");
    }
    WinnersAreFirstNewest(LISTING, rows, imei, p, i);
  }

  /** The newest failure in module `imei`. */
  ghost predicate NewestFailureIn(rows: seq<Command>, imei: string, i: int) {
    FirstNewest(rows, (r: Command) => FailedIn(r, imei), i)
  }

  lemma FailureWinners(rows: seq<Command>, imei: string, i: int)
    ensures Wins(FAIL, rows, i) && FailKey(rows[i]) == Some(imei) <==> NewestFailureIn(rows, imei, i)
  {
    var p := (r: Command) => FailedIn(r, imei);
    forall r | r in rows ensures FAIL.at(r) == Moment(r) && (FAIL.key(r) == Some(imei) <==> p(r)) {
      KeysAreWhatRowsSay(r, imei, "");
    }
    WinnersAreFirstNewest(FAIL, rows, imei, p, i);
  }

  /** The newest reading of chip `eid`, in whatever module. */
  ghost predicate NewestReading(rows: seq<Command>, eid: string, i: int) {
    FirstNewest(rows, (r: Command) => Read(r, eid), i)
  }

  predicate Read(r: Command, eid: string) {
    && r.kind == "read_esim_info" && r.status == "succeeded" && r.details.Some?
    && Says(r.details.value.eid, eid) && !Unsaid(r.details.value.imei)
  }

  lemma ReadingWinners(rows: seq<Command>, eid: string, i: int)
    ensures Wins(CHIP, rows, i) && ChipKey(rows[i]) == Some(eid) <==> NewestReading(rows, eid, i)
  {
    var p := (r: Command) => Read(r, eid);
    forall r | r in rows ensures CHIP.at(r) == Moment(r) && (CHIP.key(r) == Some(eid) <==> p(r)) {
      if r.details.Some? { KeysAreWhatRowsSay(r, r.details.value.imei.GetOr(""), eid); }
    }
    WinnersAreFirstNewest(CHIP, rows, eid, p, i);
  }

  lemma SwitchWinners(rows: seq<Command>, i: int)
    ensures Wins(SWITCH, rows, i) <==> FirstNewest(rows, Switched, i)
  {
    forall r | r in rows ensures SWITCH.at(r) == Moment(r) && (SWITCH.key(r) == Some(()) <==> Switched(r)) {
      KeysAreWhatRowsSay(r, "", "");
    }
    WinnersAreFirstNewest(SWITCH, rows, (), Switched, i);
    if 0 <= i < |rows| && SWITCH.key(rows[i]).Some? { assert SWITCH.key(rows[i]).value == (); }
  }
}
