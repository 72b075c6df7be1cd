/** The merged profile table: what it holds, that it is canonical, and that merging is associative. */
module EsimMerge {
  import opened Ordering
  import opened Newest
  import opened Esim

  // ---- The canonical order ----

  lemma CanonicalIsPreorder(lc: (string, string) -> int)
    requires Collation(lc)
    ensures Preorder(Canonical(lc))
  {
    var eid := (l: ProfileRow, r: ProfileRow) => lc(l.eid, r.eid);
    var rank := (l: ProfileRow, r: ProfileRow) => StateRank(l.state) - StateRank(r.state);
    var iccid := (l: ProfileRow, r: ProfileRow) => lc(l.iccid, r.iccid);
    assert Preorder(eid) by { LiftedPreorder(lc, (r: ProfileRow) => r.eid, eid); }
    assert Preorder(iccid) by { LiftedPreorder(lc, (r: ProfileRow) => r.iccid, iccid); }
    assert Preorder(rank);
    ByIsPreorder([eid, rank, iccid]);
  }

  lemma LiftedPreorder<T(!new)>(lc: (string, string) -> int, f: T -> string, c: (T, T) -> int)
    requires Preorder(lc) && forall x, y :: c(x, y) == lc(f(x), f(y))
    ensures Preorder(c)
  {
    forall x, y, z | c(x, y) <= 0 && c(y, z) <= 0 ensures c(x, z) <= 0 {
      assert lc(f(x), f(y)) <= 0 && lc(f(y), f(z)) <= 0;
    }
    forall x, y ensures c(x, y) < 0 <==> c(y, x) > 0 {
      assert lc(f(x), f(y)) < 0 <==> lc(f(y), f(x)) > 0;
    }
  }

  /** Rows that tie in the canonical order name the same chip and the same profile. */
  lemma CanonicalTie(lc: (string, string) -> int, x: ProfileRow, y: ProfileRow)
    requires Collation(lc) && Canonical(lc)(x, y) == 0
    ensures x.eid == y.eid && x.iccid == y.iccid
  {
    var eid := (l: ProfileRow, r: ProfileRow) => lc(l.eid, r.eid);
    var rank := (l: ProfileRow, r: ProfileRow) => StateRank(l.state) - StateRank(r.state);
    var iccid := (l: ProfileRow, r: ProfileRow) => lc(l.iccid, r.iccid);
    var cs := [eid, rank, iccid];
    assert By(cs, x, y) == 0;
    assert cs[1..] == [rank, iccid] && cs[1..][1..] == [iccid];
    assert eid(x, y) == 0;
    assert By([rank, iccid], x, y) == 0;
    assert By([iccid], x, y) == 0;
  }

  lemma KeptSeparates(lc: (string, string) -> int, rows: seq<ProfileRow>)
    requires Collation(lc)
    ensures Separates(Canonical(lc), Kept(PROFILE, rows).Values())
  {
    var vals := Kept(PROFILE, rows).Values();
    ValuesHoldKept(PROFILE, rows);
    forall x, y | x in vals && y in vals && Canonical(lc)(x, y) == 0 ensures x == y {
      CanonicalTie(lc, x, y);
      assert ProfileKey(x) == ProfileKey(y);
    }
  }

  // ---- The table as a set of winners ----

  function MergeAll(rows: seq<ProfileRow>, lc: (string, string) -> int): seq<ProfileRow> {
    Sort(Canonical(lc), Kept(PROFILE, rows).Values())
  }

  lemma MergedHoldsKept(rows: seq<ProfileRow>, lc: (string, string) -> int)
    ensures HoldsKept(PROFILE, rows, MergeAll(rows, lc))
  {
    ValuesHoldKept(PROFILE, rows);
    SortMembers(Canonical(lc), Kept(PROFILE, rows).Values());
  }

  lemma {:induction false} DistinctCounts<T>(s: seq<T>, x: T)
    requires forall i, j | 0 <= i < j < |s| :: s[i] != s[j]
    ensures multiset(s)[x] == if x in s then 1 else 0
  {
    if s != [] {
      DistinctCounts(s[1..], x);
      assert s == [s[0]] + s[1..];
    }
  }

  lemma DistinctSameMembers<T>(a: seq<T>, b: seq<T>)
    requires forall i, j | 0 <= i < j < |a| :: a[i] != a[j]
    requires forall i, j | 0 <= i < j < |b| :: b[i] != b[j]
    requires forall x :: x in a <==> x in b
    ensures multiset(a) == multiset(b)
  {
    forall x ensures multiset(a)[x] == multiset(b)[x] {
      DistinctCounts(a, x);
      DistinctCounts(b, x);
    }
  }

  lemma SameKeptSameValues<R, K>(rule: Rule<R, K>, a: seq<R>, b: seq<R>)
    requires Kept(rule, a).vals == Kept(rule, b).vals
    ensures multiset(Kept(rule, a).Values()) == multiset(Kept(rule, b).Values())
  {
    ValuesHoldKept(rule, a);
    ValuesHoldKept(rule, b);
    var va, vb := Kept(rule, a).Values(), Kept(rule, b).Values();
    forall x ensures x in va <==> x in vb {
    }
    DistinctSameMembers(va, vb);
  }

  /** The table is a function of the winners alone: not of arrival order, not of losing rows. */
  lemma MergeDependsOnWinners(a: seq<ProfileRow>, b: seq<ProfileRow>, lc: (string, string) -> int)
    requires Collation(lc) && Kept(PROFILE, a).vals == Kept(PROFILE, b).vals
    ensures MergeAll(a, lc) == MergeAll(b, lc)
  {
    CanonicalIsPreorder(lc);
    KeptSeparates(lc, a);
    SameKeptSameValues(PROFILE, a, b);
    ArrivalOrderIsForgotten(Canonical(lc), Kept(PROFILE, a).Values(), Kept(PROFILE, b).Values());
  }

  /** Merging may be done in any grouping. */
  lemma MergeIsAssociative(a: seq<ProfileRow>, b: seq<ProfileRow>, c: seq<ProfileRow>, lc: (string, string) -> int)
    requires Collation(lc)
    ensures Merge(Merge(a, b, lc), c, lc) == Merge(a, Merge(b, c, lc), lc)
  {
    var ab, bc := Merge(a, b, lc), Merge(b, c, lc);
    MergedHoldsKept(a + b, lc);
    MergedHoldsKept(b + c, lc);
    Absorbed(PROFILE, a + b, ab);
    Absorbed(PROFILE, b + c, bc);
    KeptDependsOnHalves(PROFILE, ab, c, a + b, c);
    KeptDependsOnHalves(PROFILE, a, bc, a, b + c);
    assert a + b + c == a + (b + c);
    MergeDependsOnWinners(ab + c, a + bc, lc);
  }

  /** Merging a table with itself, or into nothing, changes nothing. */
  lemma MergeIsIdempotent(a: seq<ProfileRow>, b: seq<ProfileRow>, lc: (string, string) -> int)
    requires Collation(lc)
    ensures var m := Merge(a, b, lc);
            Merge(m, m, lc) == m && Merge(m, [], lc) == m && Merge([], m, lc) == m
  {
    var m := Merge(a, b, lc);
    MergedHoldsKept(a + b, lc);
    Absorbed(PROFILE, a + b, m);
    MergeDependsOnWinners(m, a + b, lc);
    assert m + [] == m == [] + m;
    forall k | k in Kept(PROFILE, m + m).vals.Keys + Kept(PROFILE, m).vals.Keys
      ensures SameEntry(Kept(PROFILE, m + m).vals, Kept(PROFILE, m).vals, k)
    {
      KeptOfConcat(PROFILE, m, m, k);
    }
    SameMaps(Kept(PROFILE, m + m).vals, Kept(PROFILE, m).vals);
    MergeDependsOnWinners(m + m, m, lc);
  }

  // ---- What each row of the table is ----

  /** `f` is `e`, a slash, and more. */
  predicate Continues(e: string, f: string) {
    e + "/" <= f
  }

  /** Two different chips can be given ICCIDs that collide if and only if one EID continues the other behind a slash. */
  lemma EidsCollideIffOneContinues(e: string, f: string)
    requires e != f
    ensures (exists i, j :: i != "" && j != "" && KeyText(e, i) == KeyText(f, j)) <==>
              Continues(e, f) || Continues(f, e)
  {
    if i, j :| i != "" && j != "" && KeyText(e, i) == KeyText(f, j) {
      CollidingContinue(e, i, f, j);
    }
    if Continues(e, f) { ContinuedCollides(e, f); }
    if Continues(f, e) { ContinuedCollides(f, e); }
  }

  lemma CollidingContinue(e: string, i: string, f: string, j: string)
    requires KeyText(e, i) == KeyText(f, j)
    ensures (e == f && i == j) || Continues(e, f) || Continues(f, e)
  {
    var s := KeyText(e, i);
    assert s[..|e|] == e && s[..|f|] == f && s[|e|] == '/' && s[|f|] == '/';
    assert s[|e| + 1..] == i && s[|f| + 1..] == j;
    if |e| < |f| { assert f[..|e| + 1] == s[..|e| + 1] == e + "/"; }
    if |f| < |e| { assert e[..|f| + 1] == s[..|f| + 1] == f + "/"; }
  }

  lemma ContinuedCollides(e: string, f: string)
    requires Continues(e, f)
    ensures exists i, j :: i != "" && j != "" && KeyText(e, i) == KeyText(f, j)
    ensures exists i, j :: i != "" && j != "" && KeyText(f, j) == KeyText(e, i)
  {
    var i, j := f[|e| + 1..] + "/0", "0";
    assert f == e + "/" + f[|e| + 1..];
    assert KeyText(e, i) == KeyText(f, j);
  }

  /** No EID among the rows continues another. */
  ghost predicate Separable(rows: seq<ProfileRow>) {
    forall x, y | x in rows && y in rows :: !Continues(x.eid, y.eid)
  }

  /** Different profiles among the rows have different keys. */
  ghost predicate NoCollision(rows: seq<ProfileRow>) {
    forall x, y | x in rows && y in rows && ProfileKey(x).Some? && ProfileKey(x) == ProfileKey(y) ::
      x.eid == y.eid && x.iccid == y.iccid
  }

  /** While no EID continues another, the text key stands for the pair it is built from. */
  lemma KeyStandsForPair(rows: seq<ProfileRow>)
    requires Separable(rows)
    ensures NoCollision(rows)
  {
    forall x, y | x in rows && y in rows && ProfileKey(x).Some? && ProfileKey(x) == ProfileKey(y)
      ensures x.eid == y.eid && x.iccid == y.iccid
    {
      CollidingContinue(x.eid, x.iccid, y.eid, y.iccid);
    }
  }

  /** And when one does, two profiles can share a key, of which the table keeps one. */
  lemma SlashesCollide(x: ProfileRow, y: ProfileRow, lc: (string, string) -> int)
    requires x.eid != "" && y.iccid != "" && Continues(x.eid, y.eid)
    requires x.iccid == y.eid[|x.eid| + 1..] + "/" + y.iccid && x.collectedAt <= y.collectedAt
    ensures ProfileKey(x) == ProfileKey(y) && y.eid != x.eid
    ensures x !in Merge([x], [y], lc) && y in Merge([x], [y], lc)
  {
    assert y.eid == x.eid + "/" + y.eid[|x.eid| + 1..];
    assert KeyText(x.eid, x.iccid) == KeyText(y.eid, y.iccid);
    assert [x] + [y] == [x, y];
    assert Wins(PROFILE, [x, y], 1);
    WinnerIsKept(PROFILE, [x, y], 1);
    MergedHoldsKept([x, y], lc);
  }

  /** `r` is the newest row of its profile, and the last such row. */
  ghost predicate LastNewest(rows: seq<ProfileRow>, i: int) {
    && 0 <= i < |rows| && rows[i].eid != "" && rows[i].iccid != ""
    && forall j | 0 <= j < |rows| && rows[j].eid == rows[i].eid && rows[j].iccid == rows[i].iccid ::
         rows[j].collectedAt < rows[i].collectedAt || (rows[j].collectedAt == rows[i].collectedAt && j <= i)
  }

  lemma LastNewestWins(rows: seq<ProfileRow>, i: int)
    requires NoCollision(rows)
    ensures LastNewest(rows, i) <==> Wins(PROFILE, rows, i)
  {
    if 0 <= i < |rows| && ProfileKey(rows[i]).Some? {
      forall j | 0 <= j < |rows|
        ensures ProfileKey(rows[j]) == ProfileKey(rows[i]) <==>
                  rows[j].eid == rows[i].eid && rows[j].iccid == rows[i].iccid
      {
        assert rows[i] in rows && rows[j] in rows;
      }
    }
  }

  /** The table holds, for every chip and ICCID seen, the last of its newest rows, and nothing else. */
  lemma MergedRowsAreLastNewest(a: seq<ProfileRow>, b: seq<ProfileRow>, lc: (string, string) -> int, row: ProfileRow)
    requires NoCollision(a + b)
    ensures row in Merge(a, b, lc) <==> exists i :: LastNewest(a + b, i) && (a + b)[i] == row
  {
    var rows := a + b;
    MergedHoldsKept(rows, lc);
    if row in Merge(a, b, lc) {
      var k := ProfileKey(row).value;
      KeptAreWinners(PROFILE, rows, k);
      var i :| Wins(PROFILE, rows, i) && rows[i] == Kept(PROFILE, rows).vals[k];
      LastNewestWins(rows, i);
    }
    if i :| LastNewest(rows, i) && rows[i] == row {
      LastNewestWins(rows, i);
      WinnerIsKept(PROFILE, rows, i);
    }
  }

  /** Every profile seen has a row in the table. */
  ghost predicate HoldsEveryProfile(table: seq<ProfileRow>, rows: seq<ProfileRow>) {
    forall r <- rows | ProfileKey(r).Some? :: exists m <- table :: m.eid == r.eid && m.iccid == r.iccid
  }

  /** Merging loses no profile if and only if no two of them share a key. */
  lemma NothingIsLostIffNoCollision(a: seq<ProfileRow>, b: seq<ProfileRow>, lc: (string, string) -> int)
    ensures HoldsEveryProfile(Merge(a, b, lc), a + b) <==> NoCollision(a + b)
  {
    var rows, table := a + b, Merge(a, b, lc);
    MergedHoldsKept(rows, lc);
    if NoCollision(rows) {
      forall r | r in rows && ProfileKey(r).Some? ensures exists m <- table :: m.eid == r.eid && m.iccid == r.iccid {
        KeptIsNewest(PROFILE, rows, ProfileKey(r).value);
        assert Kept(PROFILE, rows).vals[ProfileKey(r).value] in table;
      }
    }
    if HoldsEveryProfile(table, rows) {
      forall x, y | x in rows && y in rows && ProfileKey(x).Some? && ProfileKey(x) == ProfileKey(y)
        ensures x.eid == y.eid && x.iccid == y.iccid
      {
        var m :| m in table && m.eid == x.eid && m.iccid == x.iccid;
        var n :| n in table && n.eid == y.eid && n.iccid == y.iccid;
        assert ProfileKey(m) == ProfileKey(x) == ProfileKey(y) == ProfileKey(n);
      }
    }
  }

  /** The arrangement is the one and only sorted one: any other listing of the same rows is out of order. */
  lemma MergedIsTheCanonicalArrangement(a: seq<ProfileRow>, b: seq<ProfileRow>, lc: (string, string) -> int,
                                        t: seq<ProfileRow>)
    requires Collation(lc) && multiset(t) == multiset(Merge(a, b, lc))
    ensures Sorted(Canonical(lc), t) <==> t == Merge(a, b, lc)
  {
    var vals := Kept(PROFILE, a + b).Values();
    CanonicalIsPreorder(lc);
    SortSorted(Canonical(lc), vals);
    SortMembers(Canonical(lc), vals);
    KeptSeparates(lc, a + b);
    if Sorted(Canonical(lc), t) {
      SortedUnique(Canonical(lc), Merge(a, b, lc), t);
    }
  }

  /** On a tie the reading is shown: it is the row that knows which module to address. */
  lemma ReadingBeatsInventoryOnTies(inventory: seq<ProfileRow>, fromReads: seq<ProfileRow>, lc: (string, string) -> int,
                                    read: ProfileRow)
    requires NoCollision(inventory + fromReads)
    requires read in fromReads && read.eid != "" && read.iccid != ""
    requires forall r <- inventory + fromReads | r.eid == read.eid && r.iccid == read.iccid ::
               r.collectedAt <= read.collectedAt
    ensures forall r <- Merge(inventory, fromReads, lc) | r.eid == read.eid && r.iccid == read.iccid ::
              r in fromReads && r.collectedAt == read.collectedAt
  {
    var rows := inventory + fromReads;
    var n :| 0 <= n < |fromReads| && fromReads[n] == read;
    assert rows[|inventory| + n] == read;
    forall r | r in Merge(inventory, fromReads, lc) && r.eid == read.eid && r.iccid == read.iccid
      ensures r in fromReads && r.collectedAt == read.collectedAt
    {
      MergedRowsAreLastNewest(inventory, fromReads, lc, r);
      var i :| LastNewest(rows, i) && rows[i] == r;
      assert rows[i] in rows;
      assert i >= |inventory| + n;
      assert r == fromReads[i - |inventory|];
    }
  }
}
