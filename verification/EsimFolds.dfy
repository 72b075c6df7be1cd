/** The loops of `lib/catalog.ts` and `lib/tokens.ts` themselves, each proved against its specification in `Esim`. */
module EsimFolds {
  import opened Sequences
  import opened Wrappers
  import opened Ordering
  import opened Newest
  import opened Esim

  method LatestEsimChipReads(rows: seq<Command>, lc: (string, string) -> int) returns (out: seq<Command>)
    ensures out == ChipReads(rows, lc)
  {
    var seen := JsMap([], map[]);
    for n := 0 to |rows|
      invariant seen == Kept(CHIP, rows[..n]) && seen.Valid()
    {
      var row := rows[n];
      assert rows[..n + 1][..n] == rows[..n] && rows[..n + 1][n] == row;
      if row.kind != "read_esim_info" || row.status != "succeeded" { continue; }
      var info := ParseInfo(row.details);
      if info.None? { continue; }
      if info.value.eid in seen.vals && At(seen.vals[info.value.eid]) >= At(row) { continue; }
      seen := seen.Set(info.value.eid, row);
    }
    assert rows[..|rows|] == rows;
    out := Sort(ByEid(lc), seen.Values());
  }

  method FillEidByImei(chips: seq<Command>) returns (eidByImei: map<string, string>)
    ensures eidByImei == EidByImei(chips)
  {
    eidByImei := map[];
    for n := 0 to |chips|
      invariant eidByImei == EidByImei(chips[..n])
    {
      assert chips[..n + 1][..n] == chips[..n];
      var info := ParseInfo(chips[n].details);
      if info.Some? { eidByImei := eidByImei[info.value.imei := info.value.eid]; }
    }
    assert chips[..|chips|] == chips;
  }

  /** The stored listing of every module is made from the row the fold kept for it. */
  ghost predicate Lists(byImei: JsMap<string, Listing>, kept: JsMap<string, Command>, eids: map<string, string>) {
    && byImei.Valid() && kept.Valid() && byImei.keys == kept.keys && byImei.vals.Keys == kept.vals.Keys
    && forall k <- kept.vals ::
         ListingKey(kept.vals[k]) == Some(k) && byImei.vals[k] == ListingOf(kept.vals[k], eids)
  }

  lemma FileListing(byImei: JsMap<string, Listing>, kept: JsMap<string, Command>, eids: map<string, string>,
                    row: Command)
    requires Lists(byImei, kept, eids) && ListingKey(row).Some?
    ensures Lists(byImei.Set(ListingKey(row).value, ListingOf(row, eids)), kept.Set(ListingKey(row).value, row), eids)
  {
    var key, listing := ListingKey(row).value, ListingOf(row, eids);
    var filed, kept' := byImei.Set(key, listing), kept.Set(key, row);
    SetSameKeys(byImei, kept, key, listing, row);
    forall k | k in kept'.vals
      ensures ListingKey(kept'.vals[k]) == Some(k) && filed.vals[k] == ListingOf(kept'.vals[k], eids)
    {
      if k != key { assert k in kept.vals; }
    }
  }

  lemma SetSameKeys<K, V, W>(a: JsMap<K, V>, b: JsMap<K, W>, k: K, v: V, w: W)
    requires a.keys == b.keys && a.vals.Keys == b.vals.Keys
    ensures a.Set(k, v).keys == b.Set(k, w).keys && a.Set(k, v).vals.Keys == b.Set(k, w).vals.Keys
  {
  }

  method LatestEsimProfileListings(rows: seq<Command>, lc: (string, string) -> int) returns (out: seq<Listing>)
    ensures out == Listings(rows, lc)
  {
    var chips := LatestEsimChipReads(rows, lc);
    var eidByImei := FillEidByImei(chips);
    var byImei: JsMap<string, Listing> := JsMap([], map[]);
    ghost var kept: JsMap<string, Command> := JsMap([], map[]);
    for n := 0 to |rows|
      invariant kept == Kept(LISTING, rows[..n]) && Lists(byImei, kept, eidByImei)
    {
      var row := rows[n];
      assert rows[..n + 1][..n] == rows[..n] && rows[..n + 1][n] == row;
      if row.status != "succeeded" || row.kind !in ESIM_CHIP_COMMANDS || row.details.None? { continue; }
      var own := AsString(row.details.value.imei);
      var modemImei := if own.Some? then own else AsString(row.modemImei);
      if modemImei.None? { continue; }
      assert modemImei == ListingKey(row);
      if modemImei.value in byImei.vals && byImei.vals[modemImei.value].collectedAt >= At(row) { continue; }
      FileListing(byImei, kept, eidByImei, row);
      byImei := byImei.Set(modemImei.value, ListingOf(row, eidByImei));
      kept := kept.Set(modemImei.value, row);
    }
    assert rows[..|rows|] == rows;
    ListingsOfValues(kept, eidByImei, byImei);
    out := Sort(ByModem(lc), byImei.Values());
  }

  lemma ListingsOfEach(rows: seq<Command>, eids: map<string, string>, listings: seq<Listing>)
    requires |rows| == |listings|
    requires forall i | 0 <= i < |rows| :: ListingKey(rows[i]).Some? && listings[i] == ListingOf(rows[i], eids)
    ensures ListingsOf(rows, eids) == listings
  {
    if rows != [] {
      ListingsOfEach(rows[1..], eids, listings[1..]);
      assert listings == [listings[0]] + listings[1..];
    }
  }

  lemma ListingsOfValues(kept: JsMap<string, Command>, eids: map<string, string>, byImei: JsMap<string, Listing>)
    requires Lists(byImei, kept, eids)
    ensures ListingsOf(kept.Values(), eids) == byImei.Values()
  {
    forall i | 0 <= i < |kept.keys| ensures kept.keys[i] in kept.vals {
      assert kept.keys[i] in kept.keys;
    }
    ListingsOfEach(kept.Values(), eids, byImei.Values());
  }

  lemma RowsOfStep(listing: Listing, i: nat)
    requires i < |listing.profiles| && AsString(listing.eid).Some?
    ensures var profile := listing.profiles[i];
            RowsOf(listing, listing.profiles[i..]) ==
            [ProfileRow(listing.eid.value, profile.iccid, if profile.enabled then "enabled" else "disabled",
                        profile.name, Some(listing.modemImei), listing.collectedAt, "read")]
            + RowsOf(listing, listing.profiles[i + 1..])
  {
    assert listing.profiles[i..][1..] == listing.profiles[i + 1..];
  }

  method RowsOfListing(listing: Listing) returns (out: seq<ProfileRow>)
    ensures out == RowsOf(listing, listing.profiles)
  {
    out := [];
    if AsString(listing.eid).None? { return; }
    for i := 0 to |listing.profiles|
      invariant out + RowsOf(listing, listing.profiles[i..]) == RowsOf(listing, listing.profiles)
    {
      var profile := listing.profiles[i];
      var row := ProfileRow(listing.eid.value, profile.iccid, if profile.enabled then "enabled" else "disabled",
                            profile.name, Some(listing.modemImei), listing.collectedAt, "read");
      RowsOfStep(listing, i);
      Regroup(out, [row], RowsOf(listing, listing.profiles[i + 1..]));
      out := out + [row];
    }
  }

  method EsimProfileRowsFromReads(rows: seq<Command>, lc: (string, string) -> int) returns (out: seq<ProfileRow>)
    ensures out == RowsFromReads(rows, lc)
  {
    out := [];
    var listings := LatestEsimProfileListings(rows, lc);
    for n := 0 to |listings|
      invariant out + RowsOfListings(listings[n..]) == RowsOfListings(listings)
    {
      assert listings[n..][1..] == listings[n + 1..];
      var more := RowsOfListing(listings[n]);
      Regroup(out, more, RowsOfListings(listings[n + 1..]));
      out := out + more;
    }
  }

  method MergeEsimProfiles(inventory: seq<ProfileRow>, fromReads: seq<ProfileRow>, lc: (string, string) -> int)
    returns (out: seq<ProfileRow>)
    ensures out == Merge(inventory, fromReads, lc)
  {
    var byKey := JsMap([], map[]);
    var rows := inventory + fromReads;
    for n := 0 to |rows|
      invariant byKey == Kept(PROFILE, rows[..n]) && byKey.Valid()
    {
      var row := rows[n];
      assert rows[..n + 1][..n] == rows[..n] && rows[..n + 1][n] == row;
      if row.eid == "" || row.iccid == "" { continue; }
      var key := row.eid + "/" + row.iccid;
      if key in byKey.vals && byKey.vals[key].collectedAt > row.collectedAt { continue; }
      byKey := byKey.Set(key, row);
    }
    assert rows[..|rows|] == rows;
    out := Sort(Canonical(lc), byKey.Values());
  }

  method KnownFromInventory(inventory: seq<ProfileRow>) returns (knownEuicc: set<string>)
    ensures knownEuicc == KnownEuicc([], inventory)
  {
    knownEuicc := {};
    for n := 0 to |inventory|
      invariant knownEuicc == KnownEuicc([], inventory[..n])
    {
      var row := inventory[n];
      assert inventory[..n + 1] == inventory[..n] + [row];
      assert forall r :: r in inventory[..n + 1] <==> r in inventory[..n] || r == row;
      if AsString(row.modemImei).Some? && row.eid != "" { knownEuicc := knownEuicc + {row.modemImei.value}; }
    }
    assert inventory[..|inventory|] == inventory;
  }

  lemma KnownGrows(rows: seq<Command>, row: Command, inventory: seq<ProfileRow>)
    ensures KnownEuicc(rows + [row], inventory) ==
            KnownEuicc(rows, inventory)
            + if row.status == "succeeded" && ChipModem(row).Some? && ParseInfo(row.details).Some?
              then {ChipModem(row).value} else {}
  {
    assert forall r :: r in rows + [row] <==> r in rows || r == row;
  }

  /** The success map answers as the maximum does, with -1 for a module it does not hold. */
  ghost predicate Tracks(newestSuccess: map<string, int>, rows: seq<Command>) {
    forall imei :: (if imei in newestSuccess then newestSuccess[imei] else -1) == NewestSuccess(rows, imei)
  }

  lemma TrackOne(newestSuccess: map<string, int>, rows: seq<Command>, row: Command, imei: string)
    requires Tracks(newestSuccess, rows) && row.status == "succeeded" && ChipModem(row) == Some(imei)
    ensures Tracks(if At(row) > NewestSuccess(rows, imei) then newestSuccess[imei := At(row)] else newestSuccess,
                   rows + [row])
  {
    assert (rows + [row])[..|rows|] == rows;
  }

  lemma TrackNone(newestSuccess: map<string, int>, rows: seq<Command>, row: Command)
    requires Tracks(newestSuccess, rows) && (row.status != "succeeded" || ChipModem(row).None?)
    ensures Tracks(newestSuccess, rows + [row])
  {
    assert (rows + [row])[..|rows|] == rows;
  }

  method ScanChipCommands(rows: seq<Command>, inventory: seq<ProfileRow>, known: set<string>)
    returns (newestSuccess: map<string, int>, failures: JsMap<string, Command>, knownEuicc: set<string>)
    requires known == KnownEuicc([], inventory)
    ensures Tracks(newestSuccess, rows)
    ensures failures == Kept(FAIL, rows)
    ensures knownEuicc == KnownEuicc(rows, inventory)
  {
    newestSuccess, failures, knownEuicc := map[], JsMap([], map[]), known;
    for n := 0 to |rows|
      invariant failures == Kept(FAIL, rows[..n]) && failures.Valid()
      invariant Tracks(newestSuccess, rows[..n])
      invariant knownEuicc == KnownEuicc(rows[..n], inventory)
    {
      var row := rows[n];
      assert rows[..n + 1] == rows[..n] + [row] && rows[..n + 1][..n] == rows[..n];
      KnownGrows(rows[..n], row, inventory);
      var imei := AsString(row.modemImei);
      if row.kind !in ESIM_CHIP_COMMANDS || imei.None? {
        TrackNone(newestSuccess, rows[..n], row);
        continue;
      }
      var at := At(row);
      if row.status == "succeeded" {
        TrackOne(newestSuccess, rows[..n], row, imei.value);
        if at > (if imei.value in newestSuccess then newestSuccess[imei.value] else -1) {
          newestSuccess := newestSuccess[imei.value := at];
        }
        if ParseInfo(row.details).Some? { knownEuicc := knownEuicc + {imei.value}; }
        continue;
      }
      TrackNone(newestSuccess, rows[..n], row);
      if row.status != "failed" { continue; }
      if imei.value in failures.vals && At(failures.vals[imei.value]) >= at { continue; }
      failures := failures.Set(imei.value, row);
    }
    assert rows[..|rows|] == rows;
  }

  lemma BrokenStep(newest: seq<Command>, rows: seq<Command>, known: set<string>, n: nat)
    requires n < |newest| && FailKey(newest[n]).Some?
    ensures Broken(newest[n..], rows, known) ==
            (if StillBroken(newest[n], rows) then [FailureOf(newest[n], known)] else [])
              + Broken(newest[n + 1..], rows, known)
  {
    assert newest[n..][1..] == newest[n + 1..];
  }

  lemma StandsAfter(newestSuccess: map<string, int>, rows: seq<Command>, row: Command)
    requires Tracks(newestSuccess, rows) && FailKey(row).Some?
    ensures var imei := FailKey(row).value;
            StillBroken(row, rows) <==> At(row) > (if imei in newestSuccess then newestSuccess[imei] else -1)
  {
  }

  method CollectBroken(newest: seq<Command>, newestSuccess: map<string, int>, knownEuicc: set<string>,
                       ghost rows: seq<Command>)
    returns (broken: seq<ReadFailure>)
    requires Tracks(newestSuccess, rows)
    requires forall r <- newest :: FailKey(r).Some?
    ensures broken == Broken(newest, rows, knownEuicc)
  {
    broken := [];
    for n := 0 to |newest|
      invariant broken + Broken(newest[n..], rows, knownEuicc) == Broken(newest, rows, knownEuicc)
    {
      var row := newest[n];
      assert row in newest;
      BrokenStep(newest, rows, knownEuicc, n);
      var imei := AsString(row.modemImei).value;
      var since := if imei in newestSuccess then newestSuccess[imei] else -1;
      StandsAfter(newestSuccess, rows, row);
      if At(row) > since {
        var reason := row.reason.GetOr("");
        Regroup(broken, [FailureOf(row, knownEuicc)], Broken(newest[n + 1..], rows, knownEuicc));
        var refused := RefusedIsdrChannel(reason) && imei !in knownEuicc;
        broken := broken + [ReadFailure(imei, refused, reason, row.completedAt)];
      }
    }
  }

  method EsimReadFailures(rows: seq<Command>, inventory: seq<ProfileRow>, lc: (string, string) -> int)
    returns (out: seq<ReadFailure>)
    ensures out == ReadFailures(rows, inventory, lc)
  {
    var known := KnownFromInventory(inventory);
    var newestSuccess, failures, knownEuicc := ScanChipCommands(rows, inventory, known);
    ValuesHoldKept(FAIL, rows);
    var broken := CollectBroken(failures.Values(), newestSuccess, knownEuicc, rows);
    out := Sort(ByFailedModem(lc), broken);
  }

  method MergeCommandBatches(batches: seq<seq<Command>>) returns (out: seq<Command>)
    ensures out == MergeBatches(batches)
  {
    var seen: set<string> := {};
    out := [];
    for b := 0 to |batches|
      invariant out == MergeBatches(batches[..b])
      invariant seen == set r | r in out :: r.id
    {
      var batch := batches[b];
      assert batches[..b + 1][..b] == batches[..b];
      ghost var before := out;
      for n := 0 to |batch|
        invariant out == MergeBatch(before, batch[..n])
        invariant seen == set r | r in out :: r.id
      {
        var row := batch[n];
        assert batch[..n + 1][..n] == batch[..n];
        if row.id in seen { continue; }
        seen := seen + {row.id};
        out := out + [row];
      }
      assert batch[..|batch|] == batch;
    }
    assert batches[..|batches|] == batches;
  }

  method EsimSwitchVerdict(commands: seq<Command>, observed: seq<ProfileRow>) returns (verdict: Option<Verdict>)
    ensures verdict == SwitchVerdict(commands, observed)
  {
    var newest: Option<Command> := None;
    for n := 0 to |commands|
      invariant newest == Top(SWITCH, commands[..n])
    {
      var row := commands[n];
      assert commands[..n + 1][..n] == commands[..n] && commands[..n + 1][n] == row;
      if row.kind != "switch_esim_profile" || row.status != "succeeded" { continue; }
      if newest.None? || At(row) > At(newest.value) { newest := Some(row); }
    }
    assert commands[..|commands|] == commands;
    if newest.None? { return None; }
    var targetIccid := newest.value.targetIccid.GetOr("");
    if targetIccid == "" { return None; }
    var switchedAt := At(newest.value);
    ghost var rule := Evidence(targetIccid, switchedAt);
    var latest: Option<ProfileRow> := None;
    for n := 0 to |observed|
      invariant latest == Top(rule, observed[..n])
    {
      var profile := observed[n];
      assert observed[..n + 1][..n] == observed[..n] && observed[..n + 1][n] == profile;
      if profile.iccid != targetIccid || profile.collectedAt <= switchedAt { continue; }
      if latest.None? || profile.collectedAt > latest.value.collectedAt { latest := Some(profile); }
    }
    assert observed[..|observed|] == observed;
    return Some(Verdict(
      targetIccid, newest.value.modemImei,
      if latest.None? then Unverified else if latest.value.state == "enabled" then Confirmed else Contradicted,
      if latest.None? then None else Some(latest.value.collectedAt),
      if latest.None? then None else Some(latest.value.state)));
  }

  /** The panel's wiring of the three: its verdict is the one the end-to-end lemmas are about. */
  method PanelVerdictOf(commands: seq<Command>, profiles: seq<ProfileRow>, lc: (string, string) -> int)
    returns (verdict: Option<Verdict>)
    ensures verdict == PanelVerdict(commands, profiles, lc)
  {
    var fromReads := EsimProfileRowsFromReads(commands, lc);
    var inventory := MergeEsimProfiles(profiles, fromReads, lc);
    verdict := EsimSwitchVerdict(commands, inventory);
  }
}
