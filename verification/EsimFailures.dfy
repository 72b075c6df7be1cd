/** Which chip reads are broken now, why, and on what part of the log that answer depends. */
module EsimFailures {
  import opened Wrappers
  import opened Ordering
  import opened Newest
  import opened Esim
  import opened EsimMerge

  lemma {:induction false} NewestSuccessIsMax(rows: seq<Command>, imei: string)
    ensures NewestSuccess(rows, imei) >= -1
    ensures forall r <- rows | SucceededOn(r, imei) :: At(r) <= NewestSuccess(rows, imei)
    ensures NewestSuccess(rows, imei) == -1
            || exists r <- rows :: SucceededOn(r, imei) && At(r) == NewestSuccess(rows, imei)
  {
    if rows != [] {
      var less, row := rows[..|rows| - 1], rows[|rows| - 1];
      NewestSuccessIsMax(less, imei);
      assert rows == less + [row];
      assert row in rows;
      assert forall r :: r in rows <==> r in less || r == row;
    }
  }

  /** Later than every success, and not before the epoch: the code starts its search at -1. */
  lemma BrokenIffLaterThanEverySuccess(r: Command, rows: seq<Command>)
    requires FailKey(r).Some?
    ensures StillBroken(r, rows) <==>
            At(r) >= 0 && forall s <- rows | SucceededOn(s, FailKey(r).value) :: At(s) < At(r)
  {
    NewestSuccessIsMax(rows, FailKey(r).value);
  }

  lemma {:induction false} BrokenMembers(newest: seq<Command>, rows: seq<Command>, known: set<string>, f: ReadFailure)
    ensures f in Broken(newest, rows, known) <==>
            exists r <- newest :: FailKey(r).Some? && StillBroken(r, rows) && f == FailureOf(r, known)
  {
    if newest != [] {
      BrokenMembers(newest[1..], rows, known, f);
      assert newest == [newest[0]] + newest[1..];
      assert forall r :: r in newest <==> r == newest[0] || r in newest[1..];
    }
  }

  /** Nothing in view ever got an EID out of this module. */
  ghost predicate NoEidEvidence(rows: seq<Command>, inventory: seq<ProfileRow>, imei: string) {
    && (forall r <- inventory :: AsString(r.modemImei) == Some(imei) ==> r.eid == "")
    && (forall r <- rows :: SucceededOn(r, imei) ==> ParseInfo(r.details).None?)
  }

  lemma KnownIsEvidence(rows: seq<Command>, inventory: seq<ProfileRow>, imei: string)
    requires imei != ""
    ensures imei in KnownEuicc(rows, inventory) <==> !NoEidEvidence(rows, inventory, imei)
  {
    var fromInventory := set r | r in inventory && AsString(r.modemImei).Some? && r.eid != "" :: r.modemImei.value;
    var fromReads := set r | r in rows && r.status == "succeeded" && ChipModem(r).Some? && ParseInfo(r.details).Some? ::
                       ChipModem(r).value;
    assert KnownEuicc(rows, inventory) == fromInventory + fromReads;
    if r :| r in inventory && AsString(r.modemImei) == Some(imei) && r.eid != "" {
      assert imei in fromInventory;
    }
    if r :| r in rows && SucceededOn(r, imei) && ParseInfo(r.details).Some? {
      assert imei in fromReads;
    }
  }

  /** The newest failed chip read of a module: the first in the log among those of maximal time. */
  ghost predicate NewestFailure(rows: seq<Command>, i: int, imei: string) {
    Wins(FAIL, rows, i) && FailKey(rows[i]) == Some(imei)
  }

  /** `f` reports the failure in row `i`, which outlives every success of its module. */
  ghost predicate Reports(rows: seq<Command>, inventory: seq<ProfileRow>, i: int, f: ReadFailure) {
    && NewestFailure(rows, i, f.modemImei)
    && At(rows[i]) >= 0 && (forall s <- rows | SucceededOn(s, f.modemImei) :: At(s) < At(rows[i]))
    && f.failedAt == rows[i].completedAt && f.reason == rows[i].reason.GetOr("")
    && (f.noEuicc <==> RefusedIsdrChannel(f.reason) && NoEidEvidence(rows, inventory, f.modemImei))
  }

  lemma KeptFailureReports(rows: seq<Command>, inventory: seq<ProfileRow>, i: int, f: ReadFailure)
    requires Wins(FAIL, rows, i)
    ensures Reports(rows, inventory, i, f) <==>
            StillBroken(rows[i], rows) && f == FailureOf(rows[i], KnownEuicc(rows, inventory))
  {
    BrokenIffLaterThanEverySuccess(rows[i], rows);
    KnownIsEvidence(rows, inventory, FailKey(rows[i]).value);
  }

  /** A module is reported exactly when its newest failure outlives every success, with that failure's reason;
      and it is called chipless exactly when that failure refused the ISD-R channel and no EID was ever seen. */
  lemma FailuresRefineSpec(rows: seq<Command>, inventory: seq<ProfileRow>, lc: (string, string) -> int, f: ReadFailure)
    ensures f in ReadFailures(rows, inventory, lc) <==> exists i :: Reports(rows, inventory, i, f)
  {
    var newest := Kept(FAIL, rows).Values();
    var known := KnownEuicc(rows, inventory);
    SortMembers(ByFailedModem(lc), Broken(newest, rows, known));
    BrokenMembers(newest, rows, known, f);
    ValuesHoldKept(FAIL, rows);
    if f in ReadFailures(rows, inventory, lc) {
      var r :| r in newest && FailKey(r).Some? && StillBroken(r, rows) && f == FailureOf(r, known);
      var i := KeptIsSomeRow(rows, r);
      KeptFailureReports(rows, inventory, i, f);
    }
    if i :| Reports(rows, inventory, i, f) {
      WinnerIsKept(FAIL, rows, i);
      KeptFailureReports(rows, inventory, i, f);
      assert rows[i] in newest;
    }
  }

  lemma KeptIsSomeRow(rows: seq<Command>, r: Command) returns (i: int)
    requires r in Kept(FAIL, rows).Values()
    ensures Wins(FAIL, rows, i) && rows[i] == r
  {
    ValuesHoldKept(FAIL, rows);
    KeptAreWinners(FAIL, rows, FailKey(r).value);
    i :| Wins(FAIL, rows, i) && rows[i] == r;
  }

  /** At most one report per module. */
  lemma OneReportPerModule(rows: seq<Command>, inventory: seq<ProfileRow>, lc: (string, string) -> int,
                           f: ReadFailure, g: ReadFailure)
    requires f in ReadFailures(rows, inventory, lc) && g in ReadFailures(rows, inventory, lc)
    requires f.modemImei == g.modemImei
    ensures f == g
  {
    FailuresRefineSpec(rows, inventory, lc, f);
    FailuresRefineSpec(rows, inventory, lc, g);
    var i :| Reports(rows, inventory, i, f);
    var j :| Reports(rows, inventory, j, g);
    WinnerIsUnique(FAIL, rows, i, j);
  }

  ghost predicate DistinctModems(s: seq<ReadFailure>) {
    forall i, j | 0 <= i < j < |s| :: s[i].modemImei != s[j].modemImei
  }

  lemma {:induction false} BrokenKeepsDistinct(newest: seq<Command>, rows: seq<Command>, known: set<string>)
    requires forall i, j | 0 <= i < j < |newest| :: FailKey(newest[i]) != FailKey(newest[j])
    ensures DistinctModems(Broken(newest, rows, known))
  {
    if newest != [] {
      BrokenKeepsDistinct(newest[1..], rows, known);
      var rest := Broken(newest[1..], rows, known);
      forall f | f in rest && FailKey(newest[0]).Some? ensures f.modemImei != FailKey(newest[0]).value {
        BrokenMembers(newest[1..], rows, known, f);
        var r :| r in newest[1..] && FailKey(r).Some? && f == FailureOf(r, known);
        var n :| 0 <= n < |newest[1..]| && newest[1..][n] == r;
        assert newest[n + 1] == r;
      }
      forall i | 0 <= i < |rest| ensures rest[i] in rest {}
    }
  }

  // ---- What the answer depends on ----

  /** A failed chip read of maximal time for its module. */
  ghost predicate TopFailure(rows: seq<Command>, r: Command) {
    r in rows && FailKey(r).Some? && forall s <- rows | FailKey(s) == FailKey(r) :: At(s) <= At(r)
  }

  ghost predicate SayTheSame(x: Command, y: Command) {
    x.reason.GetOr("") == y.reason.GetOr("") && x.completedAt == y.completedAt
  }

  /** Two newest failures of one module, still standing. */
  ghost predicate Rivals(rows: seq<Command>, x: Command, y: Command) {
    TopFailure(rows, x) && TopFailure(rows, y) && FailKey(x) == FailKey(y) && StillBroken(x, rows)
  }

  /** Where several failures of a module are newest and still stand, they say the same. */
  ghost predicate TiesAgree(rows: seq<Command>) {
    forall x, y | Rivals(rows, x, y) :: SayTheSame(x, y)
  }

  ghost predicate Told(rows: seq<Command>, known: set<string>, r: Command, f: ReadFailure) {
    TopFailure(rows, r) && StillBroken(r, rows) && f == FailureOf(r, known)
  }

  /** When the ties agree, the report is what the newest standing failures say, without asking which came first. */
  lemma ReportedAsTold(rows: seq<Command>, inventory: seq<ProfileRow>, lc: (string, string) -> int, f: ReadFailure)
    requires TiesAgree(rows)
    ensures f in ReadFailures(rows, inventory, lc) <==> exists r :: Told(rows, KnownEuicc(rows, inventory), r, f)
  {
    var known := KnownEuicc(rows, inventory);
    FailuresRefineSpec(rows, inventory, lc, f);
    if i :| Reports(rows, inventory, i, f) {
      KeptFailureReports(rows, inventory, i, f);
      assert Told(rows, known, rows[i], f);
    }
    if r :| Told(rows, known, r, f) {
      var i := WinnerBeside(rows, r);
      assert Rivals(rows, r, rows[i]);
      KeptFailureReports(rows, inventory, i, f);
    }
  }

  /** Beside a newest failure there is the winner of its module, of the same time. */
  lemma WinnerBeside(rows: seq<Command>, r: Command) returns (i: int)
    requires TopFailure(rows, r)
    ensures Wins(FAIL, rows, i) && FailKey(rows[i]) == FailKey(r) && At(rows[i]) == At(r)
  {
    KeptIsNewest(FAIL, rows, FailKey(r).value);
    KeptAreWinners(FAIL, rows, FailKey(r).value);
    i :| Wins(FAIL, rows, i) && FailKey(rows[i]) == FailKey(r) && rows[i] == Kept(FAIL, rows).vals[FailKey(r).value];
  }

  lemma SeparatedByModem(reports: seq<ReadFailure>, lc: (string, string) -> int)
    requires Collation(lc) && DistinctModems(reports)
    ensures Separates(ByFailedModem(lc), reports)
  {
    forall x, y | x in reports && y in reports && ByFailedModem(lc)(x, y) == 0 ensures x == y {
      var i :| 0 <= i < |reports| && reports[i] == x;
      var j :| 0 <= j < |reports| && reports[j] == y;
    }
  }

  lemma BrokenAreDistinct(rows: seq<Command>, known: set<string>)
    ensures DistinctModems(Broken(Kept(FAIL, rows).Values(), rows, known))
  {
    ValuesHoldKept(FAIL, rows);
    BrokenKeepsDistinct(Kept(FAIL, rows).Values(), rows, known);
  }

  /** Two reports with the same members are the same list. */
  lemma SameMembersSameReport(a: seq<Command>, b: seq<Command>, inventory: seq<ProfileRow>, lc: (string, string) -> int)
    requires Collation(lc)
    requires forall f :: f in ReadFailures(a, inventory, lc) <==> f in ReadFailures(b, inventory, lc)
    ensures ReadFailures(a, inventory, lc) == ReadFailures(b, inventory, lc)
  {
    var c := ByFailedModem(lc);
    var ra := Broken(Kept(FAIL, a).Values(), a, KnownEuicc(a, inventory));
    var rb := Broken(Kept(FAIL, b).Values(), b, KnownEuicc(b, inventory));
    BrokenAreDistinct(a, KnownEuicc(a, inventory));
    BrokenAreDistinct(b, KnownEuicc(b, inventory));
    SortMembers(c, ra);
    SortMembers(c, rb);
    forall f ensures f in ra <==> f in rb {
      assert f in ReadFailures(a, inventory, lc) <==> f in ReadFailures(b, inventory, lc);
    }
    DistinctSameMembers(ra, rb);
    SeparatedByModem(ra, lc);
    LiftedPreorder(lc, (f: ReadFailure) => f.modemImei, c);
    ArrivalOrderIsForgotten(c, ra, rb);
  }

  /** The rows of `b` all come from `a`, and nothing decisive was dropped on the way. */
  ghost predicate KeepsWhatMatters(a: seq<Command>, b: seq<Command>, inventory: seq<ProfileRow>) {
    && (forall r <- b | r.kind in ESIM_CHIP_COMMANDS :: r in a)
    && (forall k <- Kept(FAIL, a).vals :: Kept(FAIL, a).vals[k] in b)
    && (forall r <- a | r.status == "succeeded" && ChipModem(r).Some? ::
          exists s <- b :: SucceededOn(s, ChipModem(r).value) && At(s) >= At(r))
    && (forall r <- a | r.status == "succeeded" && ChipModem(r).Some? && ParseInfo(r.details).Some? ::
          ChipModem(r).value in KnownEuicc(b, inventory))
  }

  /** Reordering, repeating, or dropping rows that are not a module's newest success, newest failure
      or last EID evidence leaves the report exactly as it was. */
  lemma OnlyDecisiveRowsMatter(a: seq<Command>, b: seq<Command>, inventory: seq<ProfileRow>,
                               lc: (string, string) -> int)
    requires Collation(lc) && TiesAgree(a) && KeepsWhatMatters(a, b, inventory)
    ensures ReadFailures(a, inventory, lc) == ReadFailures(b, inventory, lc)
  {
    SameKnown(a, b, inventory);
    TiesStillAgree(a, b, inventory);
    forall f ensures f in ReadFailures(a, inventory, lc) <==> f in ReadFailures(b, inventory, lc) {
      ReportedAsTold(a, inventory, lc, f);
      ReportedAsTold(b, inventory, lc, f);
      ToldAlike(a, b, inventory, KnownEuicc(a, inventory), f);
    }
    SameMembersSameReport(a, b, inventory, lc);
  }

  lemma ToldAlike(a: seq<Command>, b: seq<Command>, inventory: seq<ProfileRow>, known: set<string>, f: ReadFailure)
    requires TiesAgree(a) && KeepsWhatMatters(a, b, inventory)
    ensures (exists r :: Told(a, known, r, f)) <==> (exists r :: Told(b, known, r, f))
  {
    if r :| Told(a, known, r, f) {
      var w := TopSurvives(a, b, inventory, r);
      assert Rivals(a, r, w);
      assert Told(b, known, w, f);
    }
    if r :| Told(b, known, r, f) {
      TopWasTop(a, b, inventory, r);
      assert Told(a, known, r, f);
    }
  }

  lemma SameKnown(a: seq<Command>, b: seq<Command>, inventory: seq<ProfileRow>)
    requires KeepsWhatMatters(a, b, inventory)
    ensures KnownEuicc(a, inventory) == KnownEuicc(b, inventory)
  {
    var ka, kb := KnownEuicc(a, inventory), KnownEuicc(b, inventory);
    forall imei ensures imei in ka <==> imei in kb {
      KnownAgrees(a, b, inventory, imei);
    }
  }

  /** A newest failure of what is left was a newest failure before. */
  lemma TopWasTop(a: seq<Command>, b: seq<Command>, inventory: seq<ProfileRow>, r: Command)
    requires KeepsWhatMatters(a, b, inventory) && TopFailure(b, r)
    ensures TopFailure(a, r) && (StillBroken(r, a) <==> StillBroken(r, b))
  {
    var k := FailKey(r).value;
    KeptIsNewest(FAIL, a, k);
    SameNewestSuccess(a, b, inventory, k);
  }

  /** For every newest failure one of the same time and module is left. */
  lemma TopSurvives(a: seq<Command>, b: seq<Command>, inventory: seq<ProfileRow>, r: Command) returns (w: Command)
    requires KeepsWhatMatters(a, b, inventory) && TopFailure(a, r)
    ensures TopFailure(a, w) && TopFailure(b, w) && FailKey(w) == FailKey(r) && At(w) == At(r)
    ensures StillBroken(r, a) <==> StillBroken(w, b)
  {
    var k := FailKey(r).value;
    KeptIsNewest(FAIL, a, k);
    w := Kept(FAIL, a).vals[k];
    SameNewestSuccess(a, b, inventory, k);
  }

  lemma TiesStillAgree(a: seq<Command>, b: seq<Command>, inventory: seq<ProfileRow>)
    requires TiesAgree(a) && KeepsWhatMatters(a, b, inventory)
    ensures TiesAgree(b)
  {
    forall x, y | Rivals(b, x, y) ensures SayTheSame(x, y) {
      TopWasTop(a, b, inventory, x);
      TopWasTop(a, b, inventory, y);
      assert Rivals(a, x, y);
    }
  }

  lemma CoveredSuccesses(a: seq<Command>, b: seq<Command>, imei: string)
    requires forall r <- a | SucceededOn(r, imei) :: exists s <- b :: SucceededOn(s, imei) && At(s) >= At(r)
    ensures NewestSuccess(a, imei) <= NewestSuccess(b, imei)
  {
    NewestSuccessIsMax(a, imei);
    NewestSuccessIsMax(b, imei);
  }

  lemma SameNewestSuccess(a: seq<Command>, b: seq<Command>, inventory: seq<ProfileRow>, imei: string)
    requires KeepsWhatMatters(a, b, inventory)
    ensures NewestSuccess(a, imei) == NewestSuccess(b, imei)
  {
    CoveredSuccesses(a, b, imei);
    CoveredSuccesses(b, a, imei);
  }

  lemma KnownAgrees(a: seq<Command>, b: seq<Command>, inventory: seq<ProfileRow>, imei: string)
    requires KeepsWhatMatters(a, b, inventory)
    ensures imei in KnownEuicc(a, inventory) <==> imei in KnownEuicc(b, inventory)
  {
  }

  /** The fetches agree with each other: one id is one row. */
  ghost predicate OneRowPerId(rows: seq<Command>) {
    forall x, y | x in rows && y in rows && x.id == y.id :: x == y
  }

  function Flatten(batches: seq<seq<Command>>): seq<Command> {
    if batches == [] then [] else Flatten(batches[..|batches| - 1]) + batches[|batches| - 1]
  }

  lemma {:induction false} MergeBatchMembers(out: seq<Command>, batch: seq<Command>, r: Command)
    requires OneRowPerId(out + batch)
    ensures r in MergeBatch(out, batch) <==> r in out || r in batch
  {
    if batch != [] {
      var less, row := batch[..|batch| - 1], batch[|batch| - 1];
      assert batch == less + [row];
      assert forall x :: x in out + less ==> x in out + batch;
      MergeBatchMembers(out, less, r);
      if x :| x in MergeBatch(out, less) && x.id == row.id {
        MergeBatchMembers(out, less, x);
        assert x in out + batch && row in out + batch;
      }
    }
  }

  lemma {:induction false} MergeBatchesMembers(batches: seq<seq<Command>>, r: Command)
    requires OneRowPerId(Flatten(batches))
    ensures r in MergeBatches(batches) <==> r in Flatten(batches)
  {
    if batches != [] {
      var less, batch := batches[..|batches| - 1], batches[|batches| - 1];
      assert Flatten(batches) == Flatten(less) + batch;
      assert forall x :: x in Flatten(less) ==> x in Flatten(batches);
      forall x ensures x in MergeBatches(less) <==> x in Flatten(less) {
        MergeBatchesMembers(less, x);
      }
      assert forall x :: x in MergeBatches(less) + batch ==> x in Flatten(batches);
      MergeBatchMembers(MergeBatches(less), batch, r);
    }
  }

  ghost predicate DistinctIds(s: seq<Command>) {
    forall i, j | 0 <= i < j < |s| :: s[i].id != s[j].id
  }

  lemma {:induction false} MergeBatchIds(out: seq<Command>, batch: seq<Command>)
    requires DistinctIds(out)
    ensures DistinctIds(MergeBatch(out, batch))
  {
    if batch != [] {
      MergeBatchIds(out, batch[..|batch| - 1]);
    }
  }

  /** However the fetches overlap, no command is counted twice. */
  lemma {:induction false} MergedIdsAreDistinct(batches: seq<seq<Command>>)
    ensures DistinctIds(MergeBatches(batches))
  {
    if batches != [] {
      MergedIdsAreDistinct(batches[..|batches| - 1]);
      MergeBatchIds(MergeBatches(batches[..|batches| - 1]), batches[|batches| - 1]);
    }
  }

  /** What the panel computes from its windowed fetches is what the whole log would give,
      as soon as the fetches cover the log's chip commands. */
  lemma BatchesStandForTheLog(
    batches: seq<seq<Command>>, log: seq<Command>, inventory: seq<ProfileRow>, lc: (string, string) -> int)
    requires Collation(lc) && TiesAgree(log)
    requires OneRowPerId(Flatten(batches))
    requires forall r: Command | r.kind in ESIM_CHIP_COMMANDS :: r in Flatten(batches) <==> r in log
    ensures ReadFailures(MergeBatches(batches), inventory, lc) == ReadFailures(log, inventory, lc)
  {
    var b := MergeBatches(batches);
    forall r: Command | r.kind in ESIM_CHIP_COMMANDS ensures r in b <==> r in log {
      MergeBatchesMembers(batches, r);
    }
    forall k | k in Kept(FAIL, log).vals ensures Kept(FAIL, log).vals[k] in b {
      KeptIsNewest(FAIL, log, k);
    }
    forall r | r in log && r.status == "succeeded" && ChipModem(r).Some?
      ensures exists s <- b :: SucceededOn(s, ChipModem(r).value) && At(s) >= At(r)
      ensures ParseInfo(r.details).Some? ==> ChipModem(r).value in KnownEuicc(b, inventory)
    {
      assert r in b && SucceededOn(r, ChipModem(r).value);
    }
    OnlyDecisiveRowsMatter(log, b, inventory, lc);
  }

  // ---- When the order of the log shows ----

  ghost predicate ForgetsLogOrder(rows: seq<Command>, inventory: seq<ProfileRow>, lc: (string, string) -> int) {
    forall t: seq<Command> | multiset(t) == multiset(rows) ::
      ReadFailures(t, inventory, lc) == ReadFailures(rows, inventory, lc)
  }

  lemma SameRowsKeepWhatMatters(a: seq<Command>, b: seq<Command>, inventory: seq<ProfileRow>)
    requires forall r :: r in a <==> r in b
    ensures KeepsWhatMatters(a, b, inventory)
  {
    forall k | k in Kept(FAIL, a).vals ensures Kept(FAIL, a).vals[k] in b {
      KeptIsNewest(FAIL, a, k);
    }
    forall r | r in a && r.status == "succeeded" && ChipModem(r).Some?
      ensures exists s <- b :: SucceededOn(s, ChipModem(r).value) && At(s) >= At(r)
      ensures ParseInfo(r.details).Some? ==> ChipModem(r).value in KnownEuicc(b, inventory)
    {
      SuccessCounts(b, inventory, r);
    }
  }

  lemma SuccessCounts(rows: seq<Command>, inventory: seq<ProfileRow>, r: Command)
    requires r in rows && r.status == "succeeded" && ChipModem(r).Some?
    ensures exists s <- rows :: SucceededOn(s, ChipModem(r).value) && At(s) >= At(r)
    ensures ParseInfo(r.details).Some? ==> ChipModem(r).value in KnownEuicc(rows, inventory)
  {
    assert SucceededOn(r, ChipModem(r).value);
  }

  lemma PermutedKeepsWhatMatters(rows: seq<Command>, t: seq<Command>, inventory: seq<ProfileRow>)
    requires multiset(t) == multiset(rows)
    ensures KeepsWhatMatters(rows, t, inventory)
  {
    forall r ensures r in rows <==> r in t {
      assert r in rows <==> r in multiset(rows);
      assert r in t <==> r in multiset(t);
    }
    SameRowsKeepWhatMatters(rows, t, inventory);
  }

  /** Put first, a newest failure that still stands is the one reported. */
  lemma FirstIsReported(x: Command, rest: seq<Command>, inventory: seq<ProfileRow>, lc: (string, string) -> int)
    requires TopFailure([x] + rest, x) && StillBroken(x, [x] + rest)
    ensures FailureOf(x, KnownEuicc([x] + rest, inventory)) in ReadFailures([x] + rest, inventory, lc)
  {
    var rows := [x] + rest;
    var f := FailureOf(x, KnownEuicc(rows, inventory));
    forall j | 0 <= j < |rows| && FailKey(rows[j]) == FailKey(x) ensures At(rows[j]) <= At(x) {
      assert rows[j] in rows;
    }
    assert Wins(FAIL, rows, 0);
    KeptFailureReports(rows, inventory, 0, f);
    FailuresRefineSpec(rows, inventory, lc, f);
  }

  lemma TopMoves(a: seq<Command>, b: seq<Command>, x: Command)
    requires multiset(a) == multiset(b) && TopFailure(a, x)
    ensures TopFailure(b, x) && (StillBroken(x, a) <==> StillBroken(x, b))
  {
    PermutedKeepsWhatMatters(b, a, []);
    TopWasTop(b, a, [], x);
  }

  /** Two newest standing failures of a module that say different things are told apart by the order of the log
      alone. */
  lemma TiedFailuresFollowLogOrder(x: Command, y: Command, rest: seq<Command>, inventory: seq<ProfileRow>,
                                   lc: (string, string) -> int)
    requires Rivals([x, y] + rest, x, y) && !SayTheSame(x, y)
    ensures ReadFailures([x, y] + rest, inventory, lc) != ReadFailures([y, x] + rest, inventory, lc)
  {
    var a, b := [x, y] + rest, [y, x] + rest;
    assert a == [x] + ([y] + rest) && b == [y] + ([x] + rest);
    TopMoves(a, b, y);
    FirstIsReported(x, [y] + rest, inventory, lc);
    FirstIsReported(y, [x] + rest, inventory, lc);
    var f, g := FailureOf(x, KnownEuicc(a, inventory)), FailureOf(y, KnownEuicc(b, inventory));
    if ReadFailures(a, inventory, lc) == ReadFailures(b, inventory, lc) {
      OneReportPerModule(a, inventory, lc, f, g);
    }
  }

  /** Rivals that disagree can be brought to the front, one before the other and the other way round. */
  lemma DisagreementShows(rows: seq<Command>, inventory: seq<ProfileRow>, lc: (string, string) -> int,
                          x: Command, y: Command)
    requires Rivals(rows, x, y) && !SayTheSame(x, y)
    ensures !ForgetsLogOrder(rows, inventory, lc)
  {
    var rest := TwoInFront(rows, x, y);
    TopMoves(rows, [x, y] + rest, x);
    TopMoves(rows, [x, y] + rest, y);
    TiedFailuresFollowLogOrder(x, y, rest, inventory, lc);
    assert multiset([x, y] + rest) == multiset(rows) == multiset([y, x] + rest);
  }

  /** The report is the same for every order of the log if and only if, module by module, the newest failures that
      still stand agree on their reason and time. */
  lemma LogOrderIsForgottenIffTiesAgree(rows: seq<Command>, inventory: seq<ProfileRow>, lc: (string, string) -> int)
    requires Collation(lc)
    ensures ForgetsLogOrder(rows, inventory, lc) <==> TiesAgree(rows)
  {
    if TiesAgree(rows) {
      forall t: seq<Command> | multiset(t) == multiset(rows)
        ensures ReadFailures(t, inventory, lc) == ReadFailures(rows, inventory, lc)
      {
        PermutedKeepsWhatMatters(rows, t, inventory);
        OnlyDecisiveRowsMatter(rows, t, inventory, lc);
      }
    } else {
      var x, y :| Rivals(rows, x, y) && !SayTheSame(x, y);
      DisagreementShows(rows, inventory, lc, x, y);
    }
  }
}
