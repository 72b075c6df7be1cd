/** The verdict on a switch, end to end: from the command log to what the panel says. */
module EsimSwitch {
  import opened Wrappers
  import opened Ordering
  import opened Newest
  import opened Esim
  import opened EsimLog
  import opened EsimMerge

  // ---- Where table rows come from ----

  lemma {:induction false} RowsOfMembers(l: Listing, profiles: seq<ReadProfile>, row: ProfileRow)
    ensures row in RowsOf(l, profiles) <==> AsString(l.eid).Some? && exists p <- profiles :: row == RowOf(l, p)
  {
    if AsString(l.eid).Some? && profiles != [] {
      RowsOfMembers(l, profiles[1..], row);
      assert profiles == [profiles[0]] + profiles[1..];
      assert forall p :: p in profiles <==> p == profiles[0] || p in profiles[1..];
    }
  }

  /** `row` is profile `p` of listing `l`. */
  ghost predicate Lists(l: Listing, row: ProfileRow) {
    AsString(l.eid).Some? && exists p <- l.profiles :: row == RowOf(l, p)
  }

  lemma {:induction false} RowsOfListingsMembers(listings: seq<Listing>, row: ProfileRow)
    ensures row in RowsOfListings(listings) <==> exists l <- listings :: Lists(l, row)
  {
    if listings != [] {
      RowsOfMembers(listings[0], listings[0].profiles, row);
      RowsOfListingsMembers(listings[1..], row);
      assert row in RowsOf(listings[0], listings[0].profiles) <==> Lists(listings[0], row);
      assert RowsOfListings(listings) == RowsOf(listings[0], listings[0].profiles) + RowsOfListings(listings[1..]);
      assert listings == [listings[0]] + listings[1..];
      assert forall l :: l in listings <==> l == listings[0] || l in listings[1..];
    }
  }

  lemma {:induction false} ListingsOfMembers(rows: seq<Command>, eids: map<string, string>, l: Listing)
    ensures l in ListingsOf(rows, eids) <==> exists r <- rows :: ListingKey(r).Some? && l == ListingOf(r, eids)
  {
    if rows != [] {
      ListingsOfMembers(rows[1..], eids, l);
      assert rows == [rows[0]] + rows[1..];
      assert forall r :: r in rows <==> r == rows[0] || r in rows[1..];
    }
  }

  /** A row read back from the log is one profile of the newest listing of some module. */
  lemma ReadRowsComeFromNewestListings(rows: seq<Command>, lc: (string, string) -> int, row: ProfileRow)
    ensures row in RowsFromReads(rows, lc) <==>
            exists i :: Wins(LISTING, rows, i) && Lists(ListingOf(rows[i], EidByImei(ChipReads(rows, lc))), row)
  {
    var eids := EidByImei(ChipReads(rows, lc));
    var kept := Kept(LISTING, rows).Values();
    var listings := ListingsOf(kept, eids);
    RowsOfListingsMembers(Listings(rows, lc), row);
    SortMembers(ByModem(lc), listings);
    ValuesHoldKept(LISTING, rows);
    if row in RowsFromReads(rows, lc) {
      var l :| l in Listings(rows, lc) && Lists(l, row);
      ListingsOfMembers(kept, eids, l);
      var r :| r in kept && ListingKey(r).Some? && l == ListingOf(r, eids);
      KeptAreWinners(LISTING, rows, ListingKey(r).value);
      var i :| Wins(LISTING, rows, i) && rows[i] == r;
    }
    if i :| Wins(LISTING, rows, i) && Lists(ListingOf(rows[i], eids), row) {
      WinnerIsKept(LISTING, rows, i);
      assert rows[i] in kept;
      ListingsOfMembers(kept, eids, ListingOf(rows[i], eids));
    }
  }

  // ---- The borrowed EID ----

  /** The reading in `r` was taken in module `imei`. */
  ghost predicate TakenIn(r: Command, imei: string) {
    ParseInfo(r.details).Some? && ParseInfo(r.details).value.imei == imei
  }

  ghost predicate LastTakenIn(chips: seq<Command>, i: int, imei: string) {
    0 <= i < |chips| && TakenIn(chips[i], imei) && forall j | i < j < |chips| :: !TakenIn(chips[j], imei)
  }

  lemma {:induction false} LastTakenInStays(chips: seq<Command>, imei: string)
    ensures imei in EidByImei(chips) <==> exists i | 0 <= i < |chips| :: TakenIn(chips[i], imei)
    ensures imei in EidByImei(chips) ==>
              exists i :: LastTakenIn(chips, i, imei) && ParseInfo(chips[i].details).value.eid == EidByImei(chips)[imei]
  {
    if chips != [] {
      var n := |chips| - 1;
      var less := chips[..n];
      LastTakenInStays(less, imei);
      EidAfterOne(chips, imei);
      if TakenIn(chips[n], imei) {
        assert LastTakenIn(chips, n, imei);
      } else if imei in EidByImei(less) {
        var i :| LastTakenIn(less, i, imei) && ParseInfo(less[i].details).value.eid == EidByImei(less)[imei];
        LastTakenStays(chips, i, imei);
      } else {
        assert forall i | 0 <= i < n :: less[i] == chips[i];
      }
    }
  }

  lemma EidAfterOne(chips: seq<Command>, imei: string)
    requires chips != []
    ensures var n := |chips| - 1; var less := EidByImei(chips[..n]);
            if TakenIn(chips[n], imei)
            then imei in EidByImei(chips) && EidByImei(chips)[imei] == ParseInfo(chips[n].details).value.eid
            else (imei in EidByImei(chips) <==> imei in less)
                 && (imei in less ==> EidByImei(chips)[imei] == less[imei])
  {
  }

  lemma LastTakenStays(chips: seq<Command>, i: int, imei: string)
    requires chips != [] && LastTakenIn(chips[..|chips| - 1], i, imei) && !TakenIn(chips[|chips| - 1], imei)
    ensures LastTakenIn(chips, i, imei) && chips[i] == chips[..|chips| - 1][i]
  {
    var less := chips[..|chips| - 1];
    forall j | i < j < |chips| ensures !TakenIn(chips[j], imei) {
      if j < |less| { assert less[j] == chips[j]; }
    }
  }

  /** A listing without an EID borrows the one that sorts last among the chips whose newest reading
      was taken in its module: EID order decides, not recency. */
  lemma BorrowedEidSortsLast(rows: seq<Command>, lc: (string, string) -> int, imei: string)
    requires Collation(lc)
    ensures var eids := EidByImei(ChipReads(rows, lc));
            && (imei in eids <==> exists r <- ChipReads(rows, lc) :: TakenIn(r, imei))
            && (imei in eids ==> exists r <- ChipReads(rows, lc) :: TakenIn(r, imei) && ChipKey(r) == Some(eids[imei]))
            && (imei in eids ==>
                  forall r <- ChipReads(rows, lc) | TakenIn(r, imei) :: lc(ChipKey(r).GetOr(""), eids[imei]) <= 0)
  {
    var chips := ChipReads(rows, lc);
    var eids := EidByImei(chips);
    LastTakenInStays(chips, imei);
    ChipReadsSorted(rows, lc);
    if imei in eids {
      var i :| LastTakenIn(chips, i, imei) && ParseInfo(chips[i].details).value.eid == eids[imei];
      assert chips[i] in chips && ChipKey(chips[i]) == Some(eids[imei]);
      forall r | r in chips && TakenIn(r, imei) ensures lc(ChipKey(r).GetOr(""), eids[imei]) <= 0 {
        var j :| 0 <= j < |chips| && chips[j] == r;
        SortedUpTo(lc, chips, j, i);
      }
    }
  }

  lemma SortedUpTo(lc: (string, string) -> int, chips: seq<Command>, j: nat, i: nat)
    requires Signed(lc) && Sorted(ByEid(lc), chips) && j <= i < |chips|
    ensures lc(ChipKey(chips[j]).GetOr(""), ChipKey(chips[i]).GetOr("")) <= 0
  {
    if j < i {
      SortedAt(ByEid(lc), chips, j, i);
    }
  }

  lemma ChipReadsSorted(rows: seq<Command>, lc: (string, string) -> int)
    requires Collation(lc)
    ensures Sorted(ByEid(lc), ChipReads(rows, lc))
    ensures forall r <- ChipReads(rows, lc) :: ChipKey(r).Some? && r in rows
  {
    var c := ByEid(lc);
    LiftedPreorder(lc, (r: Command) => ChipKey(r).GetOr(""), c);
    SortSorted(c, Kept(CHIP, rows).Values());
    SortMembers(c, Kept(CHIP, rows).Values());
    ValuesHoldKept(CHIP, rows);
    forall r | r in ChipReads(rows, lc) ensures ChipKey(r).Some? && r in rows {
      KeptIsNewest(CHIP, rows, ChipKey(r).value);
    }
  }

  /** `r` is a reading of module `imei` that no other reading of it outdates. */
  ghost predicate NewestReadingIn(rows: seq<Command>, imei: string, r: Command) {
    && r in rows && ChipKey(r).Some? && TakenIn(r, imei)
    && forall s <- rows | ChipKey(s).Some? && TakenIn(s, imei) :: At(s) <= At(r)
  }

  /** The EID lent in a module is that of the module's newest reading if and only if the chip's own newest reading
      was taken there, and no chip whose newest reading was taken there sorts behind it. */
  lemma LendsNewestReadingIff(rows: seq<Command>, lc: (string, string) -> int, imei: string, r: Command)
    requires Collation(lc) && NewestReadingIn(rows, imei, r)
    ensures var chips := ChipReads(rows, lc); var eids := EidByImei(chips);
            imei in eids && eids[imei] == ChipKey(r).value <==>
            && (exists k <- chips :: ChipKey(k) == ChipKey(r) && TakenIn(k, imei))
            && (forall k <- chips | TakenIn(k, imei) :: lc(ChipKey(k).GetOr(""), ChipKey(r).value) <= 0)
  {
    var chips := ChipReads(rows, lc);
    var eids := EidByImei(chips);
    BorrowedEidSortsLast(rows, lc, imei);
    if imei in eids {
      var k :| k in chips && TakenIn(k, imei) && ChipKey(k) == Some(eids[imei]);
      if lc(ChipKey(k).GetOr(""), ChipKey(r).value) <= 0 && lc(ChipKey(r).value, eids[imei]) <= 0 {
        MutuallyFirst(lc, eids[imei], ChipKey(r).value);
      }
    }
  }

  lemma MutuallyFirst(lc: (string, string) -> int, a: string, b: string)
    requires Collation(lc) && lc(a, b) <= 0 && lc(b, a) <= 0
    ensures a == b
  {
  }

  /** So of two chips last read in one module the one that sorts first lends nothing, however new its reading. */
  lemma OlderChipCanLendItsEid(rows: seq<Command>, x: Command, y: Command, lc: (string, string) -> int, imei: string)
    requires Collation(lc) && x in ChipReads(rows, lc) && y in ChipReads(rows, lc)
    requires TakenIn(x, imei) && TakenIn(y, imei) && lc(ChipKey(y).GetOr(""), ChipKey(x).GetOr("")) < 0
    ensures var eids := EidByImei(ChipReads(rows, lc)); imei in eids && Some(eids[imei]) != ChipKey(y)
  {
    BorrowedEidSortsLast(rows, lc, imei);
  }

  /** And a chip read again in another module leaves the first with nothing to borrow, unless another chip was last read
      there. */
  lemma ChipThatMovedLendsNothing(rows: seq<Command>, lc: (string, string) -> int, imei: string)
    requires Collation(lc)
    requires forall r <- rows | ChipKey(r).Some? && TakenIn(r, imei) ::
               exists s <- rows :: ChipKey(s) == ChipKey(r) && At(s) > At(r) && !TakenIn(s, imei)
                                   && forall q <- rows | ChipKey(q) == ChipKey(r) && TakenIn(q, imei) :: At(q) < At(s)
    ensures imei !in EidByImei(ChipReads(rows, lc))
  {
    BorrowedEidSortsLast(rows, lc, imei);
    ChipReadsSorted(rows, lc);
    if imei in EidByImei(ChipReads(rows, lc)) {
      var k :| k in ChipReads(rows, lc) && TakenIn(k, imei);
      ChipReadIsKept(rows, lc, k);
      KeptIsNewest(CHIP, rows, ChipKey(k).value);
    }
  }

  lemma ChipReadIsKept(rows: seq<Command>, lc: (string, string) -> int, k: Command)
    requires k in ChipReads(rows, lc)
    ensures ChipKey(k).Some? && ChipKey(k).value in Kept(CHIP, rows).vals
            && Kept(CHIP, rows).vals[ChipKey(k).value] == k
  {
    SortMembers(ByEid(lc), Kept(CHIP, rows).Values());
    ValuesHoldKept(CHIP, rows);
  }

  // ---- The verdict ----

  /** What `Top` is, without the loop. */
  lemma TopIsNewest<R>(rule: Rule<R, ()>, rows: seq<R>)
    ensures Top(rule, rows).Some? <==> exists r <- rows :: rule.key(r).Some?
    ensures Top(rule, rows).Some? ==>
              var best := Top(rule, rows).value;
              && best in rows && rule.key(best).Some?
              && forall r <- rows | rule.key(r).Some? :: rule.at(r) <= rule.at(best)
  {
    KeptIsNewest(rule, rows, ());
    forall r | r in rows && rule.key(r).Some? ensures rule.key(r) == Some(()) {
      assert rule.key(r).value == ();
    }
  }

  /** `s` is a newest succeeded switch in the log. */
  ghost predicate NewestSwitch(commands: seq<Command>, s: Command) {
    s in commands && Switched(s) && forall r <- commands | Switched(r) :: Moment(r) <= Moment(s)
  }

  /** `p` shows profile `iccid`, and was collected strictly after `s` completed. */
  ghost predicate ShowsAfter(p: ProfileRow, iccid: string, s: Command) {
    p.iccid == iccid && p.collectedAt > Moment(s)
  }

  lemma TopSwitchIsNewest(commands: seq<Command>)
    ensures Top(SWITCH, commands).Some? <==> exists r <- commands :: Switched(r)
    ensures Top(SWITCH, commands).Some? ==> NewestSwitch(commands, Top(SWITCH, commands).value)
  {
    TopIsNewest(SWITCH, commands);
    forall r | r in commands ensures (SWITCH.key(r).Some? <==> Switched(r)) && SWITCH.at(r) == Moment(r) {
      KeysAreWhatRowsSay(r, "", "");
    }
  }

  /** Reading `verdict` against any table of rows: it speaks of the newest switch, and of the newest
      row for its target collected strictly afterwards, if there is one. */
  lemma VerdictSpeaksOfTheNewestSwitch(commands: seq<Command>, observed: seq<ProfileRow>)
    ensures var v := SwitchVerdict(commands, observed);
            v.Some? ==> exists s ::
              && NewestSwitch(commands, s) && Says(s.targetIccid, v.value.targetIccid)
              && v.value.modemImei == s.modemImei
              && (v.value.state.Unverified? <==> forall p <- observed :: !ShowsAfter(p, v.value.targetIccid, s))
              && (!v.value.state.Unverified? ==> exists p <- observed ::
                    && ShowsAfter(p, v.value.targetIccid, s)
                    && v.value.readAt == Some(p.collectedAt) && v.value.observed == Some(p.state)
                    && (v.value.state.Confirmed? <==> p.state == "enabled")
                    && forall q <- observed | ShowsAfter(q, v.value.targetIccid, s) ::
                         q.collectedAt <= p.collectedAt)
  {
    TopSwitchIsNewest(commands);
    var v := SwitchVerdict(commands, observed);
    if v.Some? {
      var s := Top(SWITCH, commands).value;
      KeysAreWhatRowsSay(s, "", "");
      TopIsNewest(Evidence(v.value.targetIccid, At(s)), observed);
      assert NewestSwitch(commands, s);
    }
  }

  /** There is a verdict exactly when something was switched and the newest such command names its target. */
  lemma NoVerdictWithoutASwitch(commands: seq<Command>, observed: seq<ProfileRow>)
    ensures (forall r <- commands :: !Switched(r)) ==> SwitchVerdict(commands, observed).None?
    ensures (exists r <- commands :: Switched(r))
            && (forall s <- commands | NewestSwitch(commands, s) :: !Unsaid(s.targetIccid))
            ==> SwitchVerdict(commands, observed).Some?
  {
    TopSwitchIsNewest(commands);
  }

  /** A chip command that listed `iccid` with the given state: what is not said to be enabled is not. */
  ghost predicate ListedBy(c: Command, iccid: string, enabled: bool) {
    && AsksTheChip(c) && c.status == "succeeded" && c.details.Some?
    && exists raw <- c.details.value.profiles :: Says(raw.iccid, iccid) && (raw.enabled == Some(true) <==> enabled)
  }

  /** The profiles of a listing are the raw entries that name an ICCID. */
  lemma {:induction false} ParsedProfiles(raw: seq<RawProfile>, p: ReadProfile)
    ensures p in ParseProfiles(raw) <==>
            exists r <- raw :: Says(r.iccid, p.iccid) && (r.enabled == Some(true) <==> p.enabled) && r.name == p.name
  {
    if raw != [] {
      ParsedProfiles(raw[1..], p);
      assert raw == [raw[0]] + raw[1..];
      assert forall r :: r in raw <==> r == raw[0] || r in raw[1..];
    }
  }

  lemma ListsWhatWasListed(c: Command, eids: map<string, string>, p: ProfileRow)
    requires ListingKey(c).Some? && Lists(ListingOf(c, eids), p)
    ensures ListedBy(c, p.iccid, p.state == "enabled") && p.collectedAt == Moment(c)
  {
    KeysAreWhatRowsSay(c, ListingKey(c).value, "");
    var l := ListingOf(c, eids);
    var profile :| profile in l.profiles && p == RowOf(l, profile);
    ParsedProfiles(c.details.value.profiles, profile);
  }

  lemma RowWasListed(commands: seq<Command>, lc: (string, string) -> int, p: ProfileRow)
    requires p in RowsFromReads(commands, lc)
    ensures exists c <- commands :: ListedBy(c, p.iccid, p.state == "enabled") && Moment(c) == p.collectedAt
  {
    ReadRowsComeFromNewestListings(commands, lc, p);
    var eids := EidByImei(ChipReads(commands, lc));
    var i :| Wins(LISTING, commands, i) && Lists(ListingOf(commands[i], eids), p);
    ListsWhatWasListed(commands[i], eids, p);
    assert commands[i] in commands;
  }

  /** `confirmed` is never said on the strength of the switch itself: an inventory row or a successful chip
      listing from strictly after the newest switch showed the target enabled. */
  lemma ConfirmedRestsOnLaterEvidence(commands: seq<Command>, inventory: seq<ProfileRow>, lc: (string, string) -> int)
    requires PanelVerdict(commands, inventory, lc).Some?
    requires PanelVerdict(commands, inventory, lc).value.state.Confirmed?
    ensures var target := PanelVerdict(commands, inventory, lc).value.targetIccid;
            exists s :: NewestSwitch(commands, s) && Says(s.targetIccid, target)
              && ((exists p <- inventory :: ShowsAfter(p, target, s) && p.state == "enabled")
                  || (exists c <- commands :: ListedBy(c, target, true) && Moment(c) > Moment(s)))
  {
    var listed := RowsFromReads(commands, lc);
    var target := PanelVerdict(commands, inventory, lc).value.targetIccid;
    var s, p := ConfirmedByARow(commands, Merge(inventory, listed, lc));
    TableRowsComeFromSomewhere(inventory, listed, lc, p);
    if p !in inventory {
      RowWasListed(commands, lc, p);
      var c :| c in commands && ListedBy(c, p.iccid, true) && Moment(c) == p.collectedAt;
      assert ListedBy(c, target, true) && Moment(c) > Moment(s);
    }
  }

  lemma ConfirmedByARow(commands: seq<Command>, observed: seq<ProfileRow>) returns (s: Command, p: ProfileRow)
    requires SwitchVerdict(commands, observed).Some? && SwitchVerdict(commands, observed).value.state.Confirmed?
    ensures var target := SwitchVerdict(commands, observed).value.targetIccid;
            && NewestSwitch(commands, s) && Says(s.targetIccid, target)
            && p in observed && ShowsAfter(p, target, s) && p.state == "enabled"
  {
    TopSwitchIsNewest(commands);
    s := Top(SWITCH, commands).value;
    KeysAreWhatRowsSay(s, "", "");
    var rule := Evidence(s.targetIccid.value, At(s));
    TopIsNewest(rule, observed);
    p := Top(rule, observed).value;
  }

  lemma TableRowsComeFromSomewhere(a: seq<ProfileRow>, b: seq<ProfileRow>, lc: (string, string) -> int, p: ProfileRow)
    requires p in Merge(a, b, lc)
    ensures (p in a || p in b) && ProfileKey(p).Some?
  {
    MergedHoldsKept(a + b, lc);
    KeptIsNewest(PROFILE, a + b, ProfileKey(p).value);
  }

  /** The rows that can appear in the table at all. */
  function Fileable(rows: seq<ProfileRow>): seq<ProfileRow> {
    if rows == [] then [] else (if ProfileKey(rows[0]).Some? then [rows[0]] else []) + Fileable(rows[1..])
  }

  lemma {:induction false} FileableMembers(rows: seq<ProfileRow>, r: ProfileRow)
    ensures r in Fileable(rows) <==> r in rows && ProfileKey(r).Some?
  {
    if rows != [] {
      FileableMembers(rows[1..], r);
      assert rows == [rows[0]] + rows[1..];
    }
  }

  /** Rows collected at one moment for one ICCID agree on its state. */
  ghost predicate AgreeOnTies(rows: seq<ProfileRow>) {
    forall x, y | x in rows && y in rows && x.iccid == y.iccid && x.collectedAt == y.collectedAt :: x.state == y.state
  }

  lemma EvidenceSurvivesMerge(rows: seq<ProfileRow>, lc: (string, string) -> int, p: ProfileRow, iccid: string,
                              after: int)
    requires NoCollision(rows) && p in rows && ProfileKey(p).Some? && IsEvidence(p, iccid, after)
    ensures exists q <- MergeAll(rows, lc) :: IsEvidence(q, iccid, after) && q.collectedAt >= p.collectedAt
  {
    var k := ProfileKey(p).value;
    KeptIsNewest(PROFILE, rows, k);
    MergedHoldsKept(rows, lc);
    var q := Kept(PROFILE, rows).vals[k];
    assert p in rows && q in rows;
    assert q in MergeAll(rows, lc);
  }

  /** Folding rows into one per profile loses no evidence: same moment of reading as over all of them,
      and the same state unless simultaneous rows contradict each other. */
  lemma MergeLosesNoEvidence(commands: seq<Command>, rows: seq<ProfileRow>, lc: (string, string) -> int)
    requires NoCollision(rows)
    ensures var merged, plain := SwitchVerdict(commands, MergeAll(rows, lc)), SwitchVerdict(commands, Fileable(rows));
            && (merged.Some? <==> plain.Some?)
            && (merged.Some? ==> merged.value.readAt == plain.value.readAt)
            && (merged.Some? && AgreeOnTies(Fileable(rows)) ==> merged == plain)
  {
    var newest := Top(SWITCH, commands);
    if newest.Some? && newest.value.targetIccid.GetOr("") != "" {
      var rule := Evidence(newest.value.targetIccid.value, At(newest.value));
      TopIsNewest(rule, MergeAll(rows, lc));
      TopIsNewest(rule, Fileable(rows));
      TopsAgree(rows, lc, newest.value.targetIccid.value, At(newest.value));
    }
  }

  lemma TopsAgree(rows: seq<ProfileRow>, lc: (string, string) -> int, iccid: string, after: int)
    requires NoCollision(rows)
    ensures var m, f := Top(Evidence(iccid, after), MergeAll(rows, lc)), Top(Evidence(iccid, after), Fileable(rows));
            && (m.Some? <==> f.Some?)
            && (m.Some? ==> m.value.collectedAt == f.value.collectedAt)
            && (m.Some? && AgreeOnTies(Fileable(rows)) ==> m.value.state == f.value.state)
  {
    var rule := Evidence(iccid, after);
    var merged, plain := MergeAll(rows, lc), Fileable(rows);
    TopIsNewest(rule, merged);
    TopIsNewest(rule, plain);
    if Top(rule, plain).Some? {
      var p := Top(rule, plain).value;
      FileableMembers(rows, p);
      EvidenceSurvivesMerge(rows, lc, p, iccid, after);
    }
    if Top(rule, merged).Some? {
      MergedIsFileable(rows, lc, Top(rule, merged).value);
    }
  }

  lemma MergedIsFileable(rows: seq<ProfileRow>, lc: (string, string) -> int, q: ProfileRow)
    requires q in MergeAll(rows, lc)
    ensures q in Fileable(rows)
  {
    MergedHoldsKept(rows, lc);
    KeptIsNewest(PROFILE, rows, ProfileKey(q).value);
    FileableMembers(rows, q);
  }

  lemma SwitchIsNotAReading(commands: seq<Command>, s: Command, lc: (string, string) -> int)
    requires SwitchKey(s).Some?
    ensures RowsFromReads(commands + [s], lc) == RowsFromReads(commands, lc)
  {
    var log := commands + [s];
    assert log[..|log| - 1] == commands && log[|log| - 1] == s;
    assert Kept(CHIP, log) == Kept(CHIP, commands);
    assert Kept(LISTING, log) == Kept(LISTING, commands);
  }

  lemma NewSwitchIsOnTop(commands: seq<Command>, s: Command)
    requires SwitchKey(s).Some?
    requires forall r <- commands | SwitchKey(r).Some? :: At(r) < At(s)
    ensures Top(SWITCH, commands + [s]) == Some(s)
  {
    var log := commands + [s];
    TopIsNewest(SWITCH, log);
    assert s in log && forall r <- log :: r in commands || r == s;
  }

  lemma LaterSwitchIsOnTop(commands: seq<Command>, s: Command)
    requires Switched(s) && forall r <- commands | Switched(r) :: Moment(r) < Moment(s)
    ensures SwitchKey(s).Some? && At(s) == Moment(s) && Top(SWITCH, commands + [s]) == Some(s)
  {
    KeysAreWhatRowsSay(s, "", "");
    forall r | r in commands ensures (SwitchKey(r).Some? <==> Switched(r)) && At(r) == Moment(r) {
      KeysAreWhatRowsSay(r, "", "");
    }
    NewSwitchIsOnTop(commands, s);
  }

  /** A later switch starts the question again: nothing collected before it can answer for it. */
  lemma LaterSwitchResetsTheVerdict(commands: seq<Command>, s: Command, inventory: seq<ProfileRow>,
                                    lc: (string, string) -> int)
    requires Switched(s) && !Unsaid(s.targetIccid)
    requires forall r <- commands | Switched(r) :: Moment(r) < Moment(s)
    ensures var v := PanelVerdict(commands + [s], inventory, lc);
            && v.Some? && v.value.targetIccid == s.targetIccid.value && v.value.modemImei == s.modemImei
            && (v.value.state.Unverified? <==>
                  forall p <- Merge(inventory, RowsFromReads(commands, lc), lc) ::
                    !ShowsAfter(p, s.targetIccid.value, s))
  {
    LaterSwitchIsOnTop(commands, s);
    SwitchIsNotAReading(commands, s, lc);
    TopIsNewest(Evidence(s.targetIccid.value, At(s)), Merge(inventory, RowsFromReads(commands, lc), lc));
  }
}
