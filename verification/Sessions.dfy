/** The sessions list (`app/sessions/page.tsx`): filtered, then put in an order that must not depend on arrival. */
module Sessions {
  import opened Wrappers
  import opened Texts
  import opened Ordering

  datatype Session = Session(peer: string, count: int, lastBody: string, lastReceivedAt: int, deviceId: string)

  datatype Order = Received | Count | Peer

  /** `Compared` lists what the page compares, in turn; `lc` is the locale's comparison. */
  function Compared(order: Order, lc: (string, string) -> int): seq<(Session, Session) -> int> {
    [ (l: Session, r: Session) =>
        if order.Received? then BiggestFirst(Some(l.lastReceivedAt), Some(r.lastReceivedAt)) else 0,
      (l: Session, r: Session) => if order.Count? then BiggestFirst(Some(l.count), Some(r.count)) else 0,
      (l: Session, r: Session) => lc(l.peer, r.peer)
    ]
  }

  function Comparator(order: Order, lc: (string, string) -> int): (Session, Session) -> int {
    Chain(Compared(order, lc))
  }

  predicate StandsAt(s: string, needle: string, i: nat) {
    i + |needle| <= |s| && s[i..i + |needle|] == needle
  }

  predicate Includes(s: string, needle: string) {
    exists i: nat | i <= |s| :: StandsAt(s, needle, i)
  }

  predicate Matches(needle: string, row: Session) {
    needle == "" || Includes(Fold(row.peer), needle) || Includes(Fold(row.lastBody), needle)
      || Includes(Fold(row.deviceId), needle)
  }

  function Filter(needle: string, rows: seq<Session>): seq<Session> {
    if rows == [] then []
    else (if Matches(needle, rows[0]) then [rows[0]] else []) + Filter(needle, rows[1..])
  }

  function Shown(order: Order, needle: string, lc: (string, string) -> int, rows: seq<Session>): seq<Session> {
    Sort(Comparator(order, lc), Filter(needle, rows))
  }

  /** Equal in everything the page compares. */
  ghost predicate Tie(order: Order, x: Session, y: Session) {
    && x.peer == y.peer
    && (order.Received? ==> x.lastReceivedAt == y.lastReceivedAt)
    && (order.Count? ==> x.count == y.count)
  }

  lemma ComparatorUnfolds(order: Order, lc: (string, string) -> int, x: Session, y: Session)
    ensures Comparator(order, lc)(x, y) ==
            if order.Received? && x.lastReceivedAt != y.lastReceivedAt then y.lastReceivedAt - x.lastReceivedAt
            else if order.Count? && x.count != y.count then y.count - x.count
            else lc(x.peer, y.peer)
  {
    var cs := Compared(order, lc);
    assert By(cs, x, y) == if cs[0](x, y) != 0 then cs[0](x, y) else By(cs[1..], x, y);
    assert By(cs[1..], x, y) == if cs[1](x, y) != 0 then cs[1](x, y) else By(cs[1..][1..], x, y);
    assert By(cs[1..][1..], x, y) == if cs[2](x, y) != 0 then cs[2](x, y) else By(cs[1..][1..][1..], x, y);
  }

  lemma ComparatorOrders(order: Order, lc: (string, string) -> int)
    requires Collation(lc)
    ensures Preorder(Comparator(order, lc))
    ensures forall x, y :: Comparator(order, lc)(x, y) == 0 <==> Tie(order, x, y)
  {
    var c := Comparator(order, lc);
    forall x, y ensures c(x, y) == 0 <==> Tie(order, x, y) {
      ComparatorUnfolds(order, lc, x, y);
    }
    forall x, y ensures c(x, y) < 0 <==> c(y, x) > 0 {
      ComparatorUnfolds(order, lc, x, y);
      ComparatorUnfolds(order, lc, y, x);
    }
    forall x, y, z | c(x, y) <= 0 && c(y, z) <= 0 ensures c(x, z) <= 0 {
      ComparatorUnfolds(order, lc, x, y);
      ComparatorUnfolds(order, lc, y, z);
      ComparatorUnfolds(order, lc, x, z);
    }
  }

  function Rejected(needle: string, rows: seq<Session>): seq<Session> {
    if rows == [] then []
    else (if Matches(needle, rows[0]) then [] else [rows[0]]) + Rejected(needle, rows[1..])
  }

  lemma {:induction false} FilterSplits(needle: string, rows: seq<Session>)
    ensures multiset(rows) == multiset(Filter(needle, rows)) + multiset(Rejected(needle, rows))
    ensures forall r <- Filter(needle, rows) :: Matches(needle, r)
    ensures forall r <- Rejected(needle, rows) :: !Matches(needle, r)
  {
    if rows != [] {
      FilterSplits(needle, rows[1..]);
      assert rows == [rows[0]] + rows[1..];
    }
  }

  lemma {:induction false} FilterSelects(needle: string, a: seq<Session>, b: seq<Session>)
    requires forall r <- a :: Matches(needle, r)
    requires forall r <- b :: !Matches(needle, r)
    ensures Filter(needle, a + b) == a
  {
    if a != [] {
      FilterSelects(needle, a[1..], b);
      assert (a + b)[1..] == a[1..] + b;
    } else if b != [] {
      FilterSelects(needle, a, b[1..]);
      assert (a + b)[1..] == a + b[1..];
    }
  }

  lemma {:induction false} FilterCounts(needle: string, rows: seq<Session>, r: Session)
    ensures multiset(Filter(needle, rows))[r] == if Matches(needle, r) then multiset(rows)[r] else 0
  {
    if rows != [] {
      FilterCounts(needle, rows[1..], r);
      assert rows == [rows[0]] + rows[1..];
    }
  }

  lemma SameRowsFilterAlike(needle: string, a: seq<Session>, b: seq<Session>)
    requires multiset(a) == multiset(b)
    ensures multiset(Filter(needle, a)) == multiset(Filter(needle, b))
  {
    forall r ensures multiset(Filter(needle, a))[r] == multiset(Filter(needle, b))[r] {
      FilterCounts(needle, a, r);
      FilterCounts(needle, b, r);
    }
  }

  /** Every arrangement of the rows kept is kept from some arrival order of all the rows. */
  lemma ArrivalFor(needle: string, rows: seq<Session>, kept: seq<Session>) returns (arrival: seq<Session>)
    requires multiset(kept) == multiset(Filter(needle, rows))
    ensures multiset(arrival) == multiset(rows) && Filter(needle, arrival) == kept
  {
    FilterSplits(needle, rows);
    var rest := Rejected(needle, rows);
    forall r | r in kept ensures Matches(needle, r) {
      assert r in multiset(kept);
    }
    FilterSelects(needle, kept, rest);
    arrival := kept + rest;
  }

  ghost predicate ForgetsArrival(order: Order, needle: string, lc: (string, string) -> int, rows: seq<Session>) {
    forall t: seq<Session> | multiset(t) == multiset(rows) ::
      Shown(order, needle, lc, t) == Shown(order, needle, lc, rows)
  }

  lemma ForgettingIsTheSorts(order: Order, needle: string, lc: (string, string) -> int, rows: seq<Session>)
    ensures ForgetsArrival(order, needle, lc, rows) <==>
              Ordering.ForgetsArrival(Comparator(order, lc), Filter(needle, rows))
  {
    var c, kept := Comparator(order, lc), Filter(needle, rows);
    if Ordering.ForgetsArrival(c, kept) {
      forall t: seq<Session> | multiset(t) == multiset(rows)
        ensures Shown(order, needle, lc, t) == Shown(order, needle, lc, rows)
      {
        SameRowsFilterAlike(needle, t, rows);
      }
    }
    if ForgetsArrival(order, needle, lc, rows) {
      forall t: seq<Session> | multiset(t) == multiset(kept) ensures Sort(c, t) == Sort(c, kept) {
        var arrival := ArrivalFor(needle, rows, t);
        assert Shown(order, needle, lc, arrival) == Shown(order, needle, lc, rows);
      }
    }
  }

  ghost predicate NoTies(order: Order, rows: seq<Session>) {
    forall x, y | x in rows && y in rows && Tie(order, x, y) :: x == y
  }

  lemma SortForgetsIffSeparated(order: Order, lc: (string, string) -> int, kept: seq<Session>)
    requires Collation(lc)
    ensures Ordering.ForgetsArrival(Comparator(order, lc), kept) <==> Separates(Comparator(order, lc), kept)
  {
    ComparatorOrders(order, lc);
    ArrivalIndependentIffNoTies(Comparator(order, lc), kept);
  }

  lemma SeparatedIsNoTies(order: Order, lc: (string, string) -> int, kept: seq<Session>)
    requires Collation(lc)
    ensures Separates(Comparator(order, lc), kept) <==> NoTies(order, kept)
  {
    forall x, y ensures Comparator(order, lc)(x, y) == 0 <==> Tie(order, x, y) {
      ComparatorUnfolds(order, lc, x, y);
    }
  }

  /** The list shown is the same for every arrival order of the rows exactly when no two different rows on it share
      their peer together with the value it is ordered by. */
  lemma ShownForgetsArrivalIffNoTies(order: Order, needle: string, lc: (string, string) -> int, rows: seq<Session>)
    requires Collation(lc)
    ensures ForgetsArrival(order, needle, lc, rows) <==> NoTies(order, Filter(needle, rows))
  {
    var c, kept := Comparator(order, lc), Filter(needle, rows);
    SortForgetsIffSeparated(order, lc, kept);
    SeparatedIsNoTies(order, lc, kept);
    ForgettingIsTheSorts(order, needle, lc, rows);
  }

  /** One row a peer is enough. */
  lemma UniquePeersShowOneOrder(order: Order, needle: string, lc: (string, string) -> int, rows: seq<Session>,
                                again: seq<Session>)
    requires Collation(lc) && multiset(again) == multiset(rows)
    requires forall x, y | x in rows && y in rows && x.peer == y.peer :: x == y
    ensures Shown(order, needle, lc, again) == Shown(order, needle, lc, rows)
  {
    ShownForgetsArrivalIffNoTies(order, needle, lc, rows);
    FilterSplits(needle, rows);
    forall x | x in Filter(needle, rows) ensures x in rows {
      assert x in multiset(rows);
    }
  }

  /** Nothing is lost or invented, and what is ordered by comes largest first. */
  lemma ShownIsOrdered(order: Order, needle: string, lc: (string, string) -> int, rows: seq<Session>, i: nat, j: nat)
    requires Collation(lc) && i < j < |Shown(order, needle, lc, rows)|
    ensures multiset(Shown(order, needle, lc, rows)) == multiset(Filter(needle, rows))
    ensures var s := Shown(order, needle, lc, rows);
            match order
            case Received => s[i].lastReceivedAt >= s[j].lastReceivedAt
            case Count => s[i].count >= s[j].count
            case Peer => lc(s[i].peer, s[j].peer) <= 0
  {
    var c, kept := Comparator(order, lc), Filter(needle, rows);
    ComparatorOrders(order, lc);
    SortMembers(c, kept);
    SortSorted(c, kept);
    SortedAt(c, Sort(c, kept), i, j);
    ComparatorUnfolds(order, lc, Sort(c, kept)[i], Sort(c, kept)[j]);
  }

  /** `needle` occurs in the text, letter case aside. */
  ghost predicate Mentions(text: string, needle: string) {
    exists before, after :: Fold(text) == before + needle + after
  }

  /** A row is wanted if nothing is asked for, or if its peer, its last message or its device mentions it. */
  ghost predicate Wanted(needle: string, r: Session) {
    needle == "" || Mentions(r.peer, needle) || Mentions(r.lastBody, needle) || Mentions(r.deviceId, needle)
  }

  lemma IncludedIsMentioned(text: string, needle: string)
    ensures Includes(Fold(text), needle) <==> Mentions(text, needle)
  {
    var s := Fold(text);
    if i: nat :| i <= |s| && StandsAt(s, needle, i) {
      assert s == s[..i] + needle + s[i + |needle|..];
    }
    if before, after :| s == before + needle + after {
      assert s[|before|..|before| + |needle|] == needle;
      assert StandsAt(s, needle, |before|);
    }
  }

  /** Every row that is wanted is shown, as often as it is there, and no other. */
  lemma ShownAreTheWanted(order: Order, needle: string, lc: (string, string) -> int, rows: seq<Session>, r: Session)
    ensures multiset(Shown(order, needle, lc, rows))[r] == if Wanted(needle, r) then multiset(rows)[r] else 0
  {
    SortMembers(Comparator(order, lc), Filter(needle, rows));
    FilterCounts(needle, rows, r);
    IncludedIsMentioned(r.peer, needle);
    IncludedIsMentioned(r.lastBody, needle);
    IncludedIsMentioned(r.deviceId, needle);
  }
}
