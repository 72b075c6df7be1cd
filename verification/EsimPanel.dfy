/** The eSIM panel from end to end: every answer in terms of the fields of the rows it was given. */
module EsimPanel {
  import opened Wrappers
  import opened Ordering
  import opened Newest
  import opened Texts
  import opened Esim
  import opened EsimLog
  import opened EsimMerge
  import opened EsimFailures
  import opened EsimSwitch

  // ---- The EID a module lends ----

  /** The newest reading of chip `eid` was taken in module `imei`. */
  ghost predicate LastReadIn(rows: seq<Command>, imei: string, eid: string) {
    exists i :: NewestReading(rows, eid, i) && ReadIn(rows[i], imei, eid)
  }

  /** Of the chips last read in module `imei`, `eid` sorts last. */
  ghost predicate Lent(rows: seq<Command>, lc: (string, string) -> int, imei: string, eid: string) {
    LastReadIn(rows, imei, eid) && forall other | LastReadIn(rows, imei, other) :: lc(other, eid) <= 0
  }

  ghost predicate KeptReading(rows: seq<Command>, lc: (string, string) -> int, imei: string, eid: string) {
    exists k <- ChipReads(rows, lc) :: ChipKey(k) == Some(eid) && TakenIn(k, imei)
  }

  lemma KeptReadings(rows: seq<Command>, lc: (string, string) -> int, imei: string, eid: string)
    ensures KeptReading(rows, lc, imei, eid) <==> LastReadIn(rows, imei, eid)
  {
    SortMembers(ByEid(lc), Kept(CHIP, rows).Values());
    ValuesHoldKept(CHIP, rows);
    if k :| k in ChipReads(rows, lc) && ChipKey(k) == Some(eid) && TakenIn(k, imei) {
      KeptAreWinners(CHIP, rows, eid);
      var i :| Wins(CHIP, rows, i) && ChipKey(rows[i]) == Some(eid) && rows[i] == k;
      ReadingWinners(rows, eid, i);
      KeysAreWhatRowsSay(k, imei, eid);
      assert NewestReading(rows, eid, i) && ReadIn(rows[i], imei, eid);
    }
    if i :| NewestReading(rows, eid, i) && ReadIn(rows[i], imei, eid) {
      ReadingWinners(rows, eid, i);
      WinnerIsKept(CHIP, rows, i);
      KeysAreWhatRowsSay(rows[i], imei, eid);
      assert rows[i] in ChipReads(rows, lc) && TakenIn(rows[i], imei);
    }
  }

  /** The lent EID is the one that sorts last among those of the chips whose newest reading was taken in the module. */
  lemma LentSortsLast(rows: seq<Command>, lc: (string, string) -> int, imei: string, eid: string)
    requires Collation(lc)
    ensures var eids := EidByImei(ChipReads(rows, lc));
            imei in eids && eids[imei] == eid <==> Lent(rows, lc, imei, eid)
  {
    var eids := EidByImei(ChipReads(rows, lc));
    BorrowedEidSortsLast(rows, lc, imei);
    KeptReadings(rows, lc, imei, eid);
    if imei in eids {
      var best := eids[imei];
      KeptReadings(rows, lc, imei, best);
      assert KeptReading(rows, lc, imei, best);
      forall other | LastReadIn(rows, imei, other) ensures lc(other, best) <= 0 {
        KeptReadings(rows, lc, imei, other);
        var k :| k in ChipReads(rows, lc) && ChipKey(k) == Some(other) && TakenIn(k, imei);
      }
      if Lent(rows, lc, imei, eid) { MutuallyFirst(lc, best, eid); }
    }
  }

  // ---- The rows read back ----

  /** The EID of a listing: its own, or the one its module lends. */
  ghost predicate ListedFor(rows: seq<Command>, lc: (string, string) -> int, imei: string, body: Details, eid: string) {
    Says(body.eid, eid) || (Unsaid(body.eid) && Lent(rows, lc, imei, eid))
  }

  /** `row` is what the raw entry of a listing says, if it names an ICCID: enabled only if it says so. */
  ghost predicate Describes(raw: RawProfile, row: ProfileRow) {
    && Says(raw.iccid, row.iccid) && row.nickname == raw.name && row.source == "read"
    && row.state == if raw.enabled == Some(true) then "enabled" else "disabled"
  }

  /** `row` is an entry of the newest listing of module `imei`, row `i` of the log. */
  ghost predicate ShownFrom(rows: seq<Command>, lc: (string, string) -> int, imei: string, i: int, row: ProfileRow) {
    && NewestListing(rows, imei, i)
    && row.modemImei == Some(imei) && row.collectedAt == Moment(rows[i])
    && ListedFor(rows, lc, imei, rows[i].details.value, row.eid)
    && exists raw <- rows[i].details.value.profiles :: Describes(raw, row)
  }

  lemma LentIsNamed(rows: seq<Command>, lc: (string, string) -> int, imei: string, eid: string)
    requires Lent(rows, lc, imei, eid)
    ensures eid != ""
  {
  }

  lemma ListingEid(rows: seq<Command>, lc: (string, string) -> int, imei: string, r: Command, eid: string)
    requires Collation(lc) && ListingKey(r) == Some(imei)
    ensures var l := ListingOf(r, EidByImei(ChipReads(rows, lc)));
            AsString(l.eid) == Some(eid) <==> ListedFor(rows, lc, imei, r.details.value, eid)
  {
    LentSortsLast(rows, lc, imei, eid);
    var eids := EidByImei(ChipReads(rows, lc));
    if imei in eids {
      LentSortsLast(rows, lc, imei, eids[imei]);
      LentIsNamed(rows, lc, imei, eids[imei]);
    }
  }

  lemma ListsIff(rows: seq<Command>, lc: (string, string) -> int, imei: string, i: int, row: ProfileRow)
    requires Collation(lc) && NewestListing(rows, imei, i)
    ensures ListingKey(rows[i]) == Some(imei)
    ensures Lists(ListingOf(rows[i], EidByImei(ChipReads(rows, lc))), row) <==> ShownFrom(rows, lc, imei, i, row)
  {
    ListingWinners(rows, imei, i);
    KeysAreWhatRowsSay(rows[i], imei, "");
    var body := rows[i].details.value;
    var l := ListingOf(rows[i], EidByImei(ChipReads(rows, lc)));
    if Lists(l, row) {
      ListingEid(rows, lc, imei, rows[i], l.eid.value);
      var p :| p in l.profiles && row == RowOf(l, p);
      ParsedProfiles(body.profiles, p);
      var raw :| raw in body.profiles && Says(raw.iccid, p.iccid) && (raw.enabled == Some(true) <==> p.enabled)
                 && raw.name == p.name;
      assert Describes(raw, row);
    }
    if ShownFrom(rows, lc, imei, i, row) {
      ListingEid(rows, lc, imei, rows[i], row.eid);
      var raw :| raw in body.profiles && Describes(raw, row);
      var p := ReadProfile(row.iccid, raw.enabled == Some(true), raw.name);
      ParsedProfiles(body.profiles, p);
      assert row == RowOf(l, p);
    }
  }

  /** A row is read back from the log if and only if it is an entry of the newest listing of its module: its ICCID, its
      name, its state as the entry says, and for a listing that names no EID the one its module lends. */
  lemma RowsSayWhatWasListed(rows: seq<Command>, lc: (string, string) -> int, row: ProfileRow)
    requires Collation(lc)
    ensures row in RowsFromReads(rows, lc) <==> exists imei, i :: ShownFrom(rows, lc, imei, i, row)
  {
    ReadRowsComeFromNewestListings(rows, lc, row);
    var eids := EidByImei(ChipReads(rows, lc));
    if i :| Wins(LISTING, rows, i) && Lists(ListingOf(rows[i], eids), row) {
      var imei := ListingKey(rows[i]).value;
      ListingWinners(rows, imei, i);
      ListsIff(rows, lc, imei, i, row);
    }
    if imei, i :| ShownFrom(rows, lc, imei, i, row) {
      ListingWinners(rows, imei, i);
      ListsIff(rows, lc, imei, i, row);
    }
  }

  /** What a listing on the panel says of row `i` of the log: its module, its moment, its EID or the one lent, why it
      has no profiles, and the raw entries that name one. */
  ghost predicate Tells(rows: seq<Command>, lc: (string, string) -> int, imei: string, i: int, l: Listing) {
    && NewestListing(rows, imei, i) && l.modemImei == imei && l.collectedAt == Moment(rows[i])
    && var body := rows[i].details.value;
       && l.profilesError == (if Unsaid(body.profilesError) then None else body.profilesError)
       && (forall eid :: AsString(l.eid) == Some(eid) <==> ListedFor(rows, lc, imei, body, eid))
       && forall p :: p in l.profiles <==> exists raw <- body.profiles ::
            Says(raw.iccid, p.iccid) && (raw.enabled == Some(true) <==> p.enabled) && raw.name == p.name
  }

  lemma ListingTells(rows: seq<Command>, lc: (string, string) -> int, imei: string, i: int)
    requires Collation(lc) && NewestListing(rows, imei, i)
    ensures ListingKey(rows[i]) == Some(imei)
    ensures Tells(rows, lc, imei, i, ListingOf(rows[i], EidByImei(ChipReads(rows, lc))))
  {
    ListingWinners(rows, imei, i);
    KeysAreWhatRowsSay(rows[i], imei, "");
    var l := ListingOf(rows[i], EidByImei(ChipReads(rows, lc)));
    forall eid ensures AsString(l.eid) == Some(eid) <==> ListedFor(rows, lc, imei, rows[i].details.value, eid) {
      ListingEid(rows, lc, imei, rows[i], eid);
    }
    forall p ensures p in l.profiles <==> exists raw <- rows[i].details.value.profiles ::
                       Says(raw.iccid, p.iccid) && (raw.enabled == Some(true) <==> p.enabled) && raw.name == p.name
    {
      ParsedProfiles(rows[i].details.value.profiles, p);
    }
  }

  /** The panel has one listing for each module that was ever listed, and it tells what the newest of them said. */
  lemma ListingsTellTheNewest(rows: seq<Command>, lc: (string, string) -> int)
    requires Collation(lc)
    ensures forall l <- Listings(rows, lc) :: exists i :: Tells(rows, lc, l.modemImei, i, l)
    ensures forall imei, i | NewestListing(rows, imei, i) ::
              exists l <- Listings(rows, lc) :: Tells(rows, lc, imei, i, l)
  {
    var eids := EidByImei(ChipReads(rows, lc));
    var kept := Kept(LISTING, rows).Values();
    SortMembers(ByModem(lc), ListingsOf(kept, eids));
    ValuesHoldKept(LISTING, rows);
    forall l | l in Listings(rows, lc) ensures exists i :: Tells(rows, lc, l.modemImei, i, l) {
      ListingsOfMembers(kept, eids, l);
      var r :| r in kept && ListingKey(r).Some? && l == ListingOf(r, eids);
      KeptAreWinners(LISTING, rows, l.modemImei);
      var i :| Wins(LISTING, rows, i) && ListingKey(rows[i]) == Some(l.modemImei) && rows[i] == r;
      ListingWinners(rows, l.modemImei, i);
      ListingTells(rows, lc, l.modemImei, i);
    }
    forall imei, i | NewestListing(rows, imei, i)
      ensures exists l <- Listings(rows, lc) :: Tells(rows, lc, imei, i, l)
    {
      ListingWinners(rows, imei, i);
      WinnerIsKept(LISTING, rows, i);
      ListingTells(rows, lc, imei, i);
      ListingsOfMembers(kept, eids, ListingOf(rows[i], eids));
    }
  }

  // ---- The verdict follows the chip ----

  /** Every other row for its ICCID is older than `row`. */
  ghost predicate NewestFor(rows: seq<ProfileRow>, row: ProfileRow) {
    row in rows && forall p <- rows | p.iccid == row.iccid && p != row :: p.collectedAt < row.collectedAt
  }

  lemma NewestForIsMerged(rows: seq<ProfileRow>, lc: (string, string) -> int, row: ProfileRow)
    requires NoCollision(rows) && NewestFor(rows, row) && row.eid != "" && row.iccid != ""
    ensures NewestFor(MergeAll(rows, lc), row)
  {
    MergedHoldsKept(rows, lc);
    var k := ProfileKey(row).value;
    KeptIsNewest(PROFILE, rows, k);
    assert Kept(PROFILE, rows).vals[k] == row;
    forall p | p in MergeAll(rows, lc) ensures p in rows {
      KeptIsNewest(PROFILE, rows, ProfileKey(p).value);
    }
  }

  /** Whatever the log and the inventory hold: when the newest row for the target of the newest switch is newer than the
      switch, the panel says what that row says, and nothing else. */
  lemma PanelFollowsTheChip(commands: seq<Command>, inventory: seq<ProfileRow>, lc: (string, string) -> int,
                            s: Command, row: ProfileRow)
    requires Switched(s) && s in commands && forall r <- commands | Switched(r) && r != s :: Moment(r) < Moment(s)
    requires Says(s.targetIccid, row.iccid) && row.eid != "" && row.collectedAt > Moment(s)
    requires var rows := inventory + RowsFromReads(commands, lc); NoCollision(rows) && NewestFor(rows, row)
    ensures PanelVerdict(commands, inventory, lc) ==
            Some(Verdict(row.iccid, s.modemImei, if row.state == "enabled" then Confirmed else Contradicted,
                         Some(row.collectedAt), Some(row.state)))
  {
    var table := Merge(inventory, RowsFromReads(commands, lc), lc);
    NewestForIsMerged(inventory + RowsFromReads(commands, lc), lc, row);
    TopSwitchIsNewest(commands);
    KeysAreWhatRowsSay(s, "", "");
    assert Top(SWITCH, commands) == Some(s);
    var rule := Evidence(row.iccid, At(s));
    TopIsNewest(rule, table);
    assert Top(rule, table) == Some(row);
  }

  // ---- The failures ----

  const REFUSAL := "open isd-r channel"

  ghost predicate RefusalAt(reason: string, i: nat) {
    i + |REFUSAL| <= |reason| && Fold(reason[i..i + |REFUSAL|]) == REFUSAL
  }

  /** Some part of the reason reads, in whatever letter case, as the refusal of the ISD-R channel. */
  ghost predicate SaysRefused(reason: string) {
    exists i: nat :: RefusalAt(reason, i)
  }

  lemma RefusedSaysSo(reason: string)
    ensures RefusedIsdrChannel(reason) <==> SaysRefused(reason)
  {
    if i :| 0 <= i <= |reason| && FoldedAt(REFUSAL, reason, i) {
      assert RefusalAt(reason, i);
    }
    if i: nat :| RefusalAt(reason, i) {
      var part := reason[i..i + |REFUSAL|];
      forall j | 0 <= j < |REFUSAL| ensures Lower(reason[i + j]) == REFUSAL[j] {
        assert Fold(part)[j] == Lower(part[j]);
      }
      assert FoldedAt(REFUSAL, reason, i);
    }
  }

  /** No row of the inventory and no succeeded chip command of the module names an EID. */
  ghost predicate NeverGaveAnEid(rows: seq<Command>, inventory: seq<ProfileRow>, imei: string) {
    && (forall p <- inventory | Says(p.modemImei, imei) :: p.eid == "")
    && (forall r <- rows | SucceededIn(r, imei) && r.details.Some? ::
          Unsaid(r.details.value.eid) || Unsaid(r.details.value.imei))
  }

  /** `f` says what the newest failure of its module says, and that failure came after every success there. */
  ghost predicate FailureShown(rows: seq<Command>, inventory: seq<ProfileRow>, i: int, f: ReadFailure) {
    && NewestFailureIn(rows, f.modemImei, i)
    && Moment(rows[i]) >= 0 && (forall r <- rows | SucceededIn(r, f.modemImei) :: Moment(r) < Moment(rows[i]))
    && f.failedAt == rows[i].completedAt
    && f.reason == (match rows[i].reason case None => "" case Some(reason) => reason)
    && (f.noEuicc <==> SaysRefused(f.reason) && NeverGaveAnEid(rows, inventory, f.modemImei))
  }

  lemma ReportsIffShown(rows: seq<Command>, inventory: seq<ProfileRow>, i: int, f: ReadFailure)
    ensures Reports(rows, inventory, i, f) <==> FailureShown(rows, inventory, i, f)
  {
    FailureWinners(rows, f.modemImei, i);
    if NewestFailureIn(rows, f.modemImei, i) {
      RefusedSaysSo(f.reason);
      KeysAreWhatRowsSay(rows[i], f.modemImei, "");
      forall r | r in rows
        ensures (SucceededOn(r, f.modemImei) <==> SucceededIn(r, f.modemImei)) && At(r) == Moment(r)
      {
        KeysAreWhatRowsSay(r, f.modemImei, "");
      }
      NoEvidenceIffNeverGave(rows, inventory, f.modemImei);
    }
  }

  lemma NoEvidenceIffNeverGave(rows: seq<Command>, inventory: seq<ProfileRow>, imei: string)
    requires imei != ""
    ensures NoEidEvidence(rows, inventory, imei) <==> NeverGaveAnEid(rows, inventory, imei)
  {
    forall r ensures SucceededOn(r, imei) <==> SucceededIn(r, imei) {
      KeysAreWhatRowsSay(r, imei, "");
    }
  }

  /** A module is reported if and only if its newest failed chip command came after every one that succeeded there, with
      that command's reason and time; and as chipless if and only if the reason refuses the ISD-R channel and nothing in
      view ever named an EID for it. */
  lemma FailuresSayWhatFailed(rows: seq<Command>, inventory: seq<ProfileRow>, lc: (string, string) -> int,
                              f: ReadFailure)
    ensures f in ReadFailures(rows, inventory, lc) <==> exists i :: FailureShown(rows, inventory, i, f)
  {
    FailuresRefineSpec(rows, inventory, lc, f);
    forall i ensures Reports(rows, inventory, i, f) <==> FailureShown(rows, inventory, i, f) {
      ReportsIffShown(rows, inventory, i, f);
    }
  }

  // ---- The order of what is shown ----

  /** Enabled profiles first, then disabled ones, then deleted ones, then the rest. */
  predicate StandsBefore(x: string, y: string) {
    || (x == "enabled" && y != "enabled")
    || (x == "disabled" && y != "enabled" && y != "disabled")
    || (x == "deleted" && y != "enabled" && y != "disabled" && y != "deleted")
  }

  /** The table goes by EID, on one chip by state, and among profiles of one state by ICCID. */
  ghost predicate InTableOrder(lc: (string, string) -> int, x: ProfileRow, y: ProfileRow) {
    || lc(x.eid, y.eid) < 0
    || (x.eid == y.eid && StandsBefore(x.state, y.state))
    || (x.eid == y.eid && !StandsBefore(y.state, x.state) && lc(x.iccid, y.iccid) <= 0)
  }

  lemma CanonicalUnfolds(lc: (string, string) -> int, x: ProfileRow, y: ProfileRow)
    requires Collation(lc)
    ensures Canonical(lc)(x, y) <= 0 ==> InTableOrder(lc, x, y)
  {
    var eid := (l: ProfileRow, r: ProfileRow) => lc(l.eid, r.eid);
    var rank := (l: ProfileRow, r: ProfileRow) => StateRank(l.state) - StateRank(r.state);
    var iccid := (l: ProfileRow, r: ProfileRow) => lc(l.iccid, r.iccid);
    var cs := [eid, rank, iccid];
    assert cs[1..] == [rank, iccid] && cs[1..][1..] == [iccid];
    assert By(cs, x, y) == if eid(x, y) != 0 then eid(x, y) else By([rank, iccid], x, y);
    assert By([rank, iccid], x, y) == if rank(x, y) != 0 then rank(x, y) else By([iccid], x, y);
    assert By([iccid], x, y) == if iccid(x, y) != 0 then iccid(x, y) else By([iccid][1..], x, y);
  }

  lemma TableIsInOrder(a: seq<ProfileRow>, b: seq<ProfileRow>, lc: (string, string) -> int, i: nat, j: nat)
    requires Collation(lc) && i < j < |Merge(a, b, lc)|
    ensures InTableOrder(lc, Merge(a, b, lc)[i], Merge(a, b, lc)[j])
  {
    CanonicalIsPreorder(lc);
    SortSorted(Canonical(lc), Kept(PROFILE, a + b).Values());
    SortedAt(Canonical(lc), Merge(a, b, lc), i, j);
    CanonicalUnfolds(lc, Merge(a, b, lc)[i], Merge(a, b, lc)[j]);
  }

  /** Listings and failures go by module. */
  lemma ListsGoByModule(rows: seq<Command>, inventory: seq<ProfileRow>, lc: (string, string) -> int)
    requires Collation(lc)
    ensures forall i, j | 0 <= i < j < |Listings(rows, lc)| ::
              lc(Listings(rows, lc)[i].modemImei, Listings(rows, lc)[j].modemImei) <= 0
    ensures forall i, j | 0 <= i < j < |ReadFailures(rows, inventory, lc)| ::
              lc(ReadFailures(rows, inventory, lc)[i].modemImei, ReadFailures(rows, inventory, lc)[j].modemImei) <= 0
  {
    var listings, failures := Listings(rows, lc), ReadFailures(rows, inventory, lc);
    LiftedPreorder(lc, (l: Listing) => l.modemImei, ByModem(lc));
    SortSorted(ByModem(lc), ListingsOf(Kept(LISTING, rows).Values(), EidByImei(ChipReads(rows, lc))));
    forall i, j | 0 <= i < j < |listings| ensures lc(listings[i].modemImei, listings[j].modemImei) <= 0 {
      SortedAt(ByModem(lc), listings, i, j);
    }
    LiftedPreorder(lc, (f: ReadFailure) => f.modemImei, ByFailedModem(lc));
    SortSorted(ByFailedModem(lc), Broken(Kept(FAIL, rows).Values(), rows, KnownEuicc(rows, inventory)));
    forall i, j | 0 <= i < j < |failures| ensures lc(failures[i].modemImei, failures[j].modemImei) <= 0 {
      SortedAt(ByFailedModem(lc), failures, i, j);
    }
  }

  // ---- Several fetches as one list ----

  /** Row `n` is the first of its id. */
  ghost predicate FirstOfItsId(rows: seq<Command>, n: int) {
    0 <= n < |rows| && forall k | 0 <= k < n :: rows[k].id != rows[n].id
  }

  /** `merged` is the first row of each id in `rows`, in that order: `at[k]` is where its `k`-th row comes from. */
  ghost predicate FirstOfEach(rows: seq<Command>, merged: seq<Command>, at: seq<int>) {
    && |at| == |merged|
    && (forall k | 0 <= k < |at| :: FirstOfItsId(rows, at[k]) && rows[at[k]] == merged[k])
    && (forall k, l | 0 <= k < l < |at| :: at[k] < at[l])
    && (forall n | FirstOfItsId(rows, n) :: n in at)
  }

  lemma FirstStaysFirst(rows: seq<Command>, row: Command, n: int)
    requires 0 <= n < |rows|
    ensures FirstOfItsId(rows + [row], n) <==> FirstOfItsId(rows, n)
    ensures (rows + [row])[n] == rows[n]
  {
    assert forall k | 0 <= k < |rows| :: (rows + [row])[k] == rows[k];
  }

  lemma KnownRow(rows: seq<Command>, merged: seq<Command>, at: seq<int>, row: Command)
    requires FirstOfEach(rows, merged, at) && exists r <- merged :: r.id == row.id
    ensures FirstOfEach(rows + [row], merged, at)
  {
    var more := rows + [row];
    var r :| r in merged && r.id == row.id;
    var k :| 0 <= k < |merged| && merged[k] == r;
    assert FirstOfItsId(rows, at[k]) && more[at[k]].id == more[|rows|].id;
    forall l | 0 <= l < |at| ensures FirstOfItsId(more, at[l]) && more[at[l]] == merged[l] {
      FirstStaysFirst(rows, row, at[l]);
    }
    forall n | FirstOfItsId(more, n) ensures n in at {
      if n < |rows| { FirstStaysFirst(rows, row, n); }
    }
  }

  lemma NewRow(rows: seq<Command>, merged: seq<Command>, at: seq<int>, row: Command)
    requires FirstOfEach(rows, merged, at) && !exists r <- merged :: r.id == row.id
    ensures FirstOfEach(rows + [row], merged + [row], at + [|rows|])
  {
    var more := rows + [row];
    IdIsKnown(rows, merged, at, row);
    forall k | 0 <= k < |rows| ensures more[k].id != more[|rows|].id { assert more[k] == rows[k]; }
    assert FirstOfItsId(more, |rows|);
    forall l | 0 <= l < |at| ensures FirstOfItsId(more, at[l]) && more[at[l]] == merged[l] {
      FirstStaysFirst(rows, row, at[l]);
    }
    forall n | FirstOfItsId(more, n) ensures n in at + [|rows|] {
      if n < |rows| { FirstStaysFirst(rows, row, n); }
    }
  }

  /** An id no kept row has is one no row has had. */
  lemma IdIsKnown(rows: seq<Command>, merged: seq<Command>, at: seq<int>, row: Command)
    requires FirstOfEach(rows, merged, at) && !exists r <- merged :: r.id == row.id
    ensures forall n | 0 <= n < |rows| :: rows[n].id != row.id
  {
    forall n | 0 <= n < |rows| ensures rows[n].id != row.id {
      var first := FirstWithId(rows, n);
      assert first in at;
      var k :| 0 <= k < |at| && at[k] == first;
      assert merged[k] in merged;
    }
  }

  lemma {:induction false} FirstWithId(rows: seq<Command>, n: int) returns (first: int)
    requires 0 <= n < |rows|
    ensures FirstOfItsId(rows, first) && rows[first].id == rows[n].id
    decreases n
  {
    if k :| 0 <= k < n && rows[k].id == rows[n].id {
      first := FirstWithId(rows, k);
    } else {
      first := n;
    }
  }

  lemma {:induction false} BatchIsFirstOfEach(rows: seq<Command>, out: seq<Command>, at: seq<int>, batch: seq<Command>)
    returns (at': seq<int>)
    requires FirstOfEach(rows, out, at)
    ensures FirstOfEach(rows + batch, MergeBatch(out, batch), at')
    decreases |batch|
  {
    if batch == [] {
      assert rows + batch == rows;
      at' := at;
    } else {
      var less, row := batch[..|batch| - 1], batch[|batch| - 1];
      assert rows + batch == (rows + less) + [row];
      at' := BatchIsFirstOfEach(rows, out, at, less);
      var sofar := MergeBatch(out, less);
      if exists r <- sofar :: r.id == row.id {
        KnownRow(rows + less, sofar, at', row);
      } else {
        NewRow(rows + less, sofar, at', row);
        at' := at' + [|rows + less|];
      }
    }
  }

  /** The merged list is the first row of each id over all fetches, in the order they came. */
  lemma {:induction false} MergedIsFirstOfEach(batches: seq<seq<Command>>)
    ensures exists at :: FirstOfEach(Flatten(batches), MergeBatches(batches), at)
    decreases |batches|
  {
    if batches == [] {
      assert FirstOfEach(Flatten(batches), MergeBatches(batches), []);
    } else {
      var less, batch := batches[..|batches| - 1], batches[|batches| - 1];
      MergedIsFirstOfEach(less);
      var at :| FirstOfEach(Flatten(less), MergeBatches(less), at);
      var at' := BatchIsFirstOfEach(Flatten(less), MergeBatches(less), at, batch);
      assert FirstOfEach(Flatten(batches), MergeBatches(batches), at');
    }
  }

  // ---- Ties ----

  /** The first of the newest rows that show `iccid` after `s`. */
  ghost predicate FirstShowing(observed: seq<ProfileRow>, iccid: string, s: Command, j: int) {
    && 0 <= j < |observed| && ShowsAfter(observed[j], iccid, s)
    && forall k | 0 <= k < |observed| && ShowsAfter(observed[k], iccid, s) ::
         observed[k].collectedAt < observed[j].collectedAt
         || (observed[k].collectedAt == observed[j].collectedAt && j <= k)
  }

  lemma TopIsTheWinner<R>(rule: Rule<R, ()>, rows: seq<R>) returns (i: int)
    requires Top(rule, rows).Some?
    ensures Wins(rule, rows, i) && Top(rule, rows) == Some(rows[i])
  {
    KeptAreWinners(rule, rows, ());
    i :| Wins(rule, rows, i) && rule.key(rows[i]) == Some(()) && rows[i] == Kept(rule, rows).vals[()];
  }

  /** Of switches of one moment the first in the log is asked about, and of rows of one moment the first in the table
      answers. */
  lemma TiesGoToTheFirst(commands: seq<Command>, observed: seq<ProfileRow>)
    requires SwitchVerdict(commands, observed).Some?
    ensures var v := SwitchVerdict(commands, observed).value;
            exists i :: FirstNewest(commands, Switched, i)
              && Says(commands[i].targetIccid, v.targetIccid) && v.modemImei == commands[i].modemImei
              && (v.observed.Some? ==> exists j :: FirstShowing(observed, v.targetIccid, commands[i], j)
                                                   && v.observed == Some(observed[j].state))
  {
    var i := TopIsTheWinner(SWITCH, commands);
    SwitchWinners(commands, i);
    KeysAreWhatRowsSay(commands[i], "", "");
    var v := SwitchVerdict(commands, observed).value;
    if v.observed.Some? {
      var j := TopIsTheWinner(Evidence(v.targetIccid, At(commands[i])), observed);
      assert FirstShowing(observed, v.targetIccid, commands[i], j);
    }
  }
}
