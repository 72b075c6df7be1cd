/**
 Keyed "newest row wins" folds over an unordered log. Every eSIM reconstruction
 in `lib/catalog.ts` is one of these, with its own key, time and tie rule.
 */
module Newest {
  import opened Wrappers

  /** A JavaScript `Map`: entries iterate in the order their keys were first set. */
  datatype JsMap<K(==), V> = JsMap(keys: seq<K>, vals: map<K, V>) {
    ghost predicate Valid() {
      && (forall k <- keys :: k in vals)
      && (forall k <- vals :: k in keys)
      && (forall i, j | 0 <= i < j < |keys| :: keys[i] != keys[j])
    }

    function Set(k: K, v: V): (m: JsMap<K, V>)
      ensures Valid() ==> m.Valid()
    {
      JsMap(if k in vals then keys else keys + [k], vals[k := v])
    }

    function Values(): (s: seq<V>)
      requires Valid()
      ensures |s| == |keys| && forall i | 0 <= i < |keys| :: s[i] == vals[keys[i]]
    {
      seq(|keys|, i requires 0 <= i < |keys| => assert keys[i] in keys; vals[keys[i]])
    }
  }

  /** Which rows compete (same key), for what (the larger time), and who wins a tie. */
  datatype Rule<!R, !K> = Rule(key: R -> Option<K>, at: R -> int, laterWins: bool)

  /** One iteration of the loop: the row is filed unless the one already there outranks it. */
  function Offer<R, K(==)>(rule: Rule<R, K>, kept: JsMap<K, R>, row: R): (kept': JsMap<K, R>)
    ensures kept.Valid() ==> kept'.Valid()
  {
    var key := rule.key(row);
    if key.None? then kept
    else if key.value in kept.vals &&
            (if rule.laterWins then rule.at(kept.vals[key.value]) > rule.at(row)
             else rule.at(kept.vals[key.value]) >= rule.at(row)) then kept
    else kept.Set(key.value, row)
  }

  function Kept<R, K(==)>(rule: Rule<R, K>, rows: seq<R>): (kept: JsMap<K, R>)
    ensures kept.Valid()
  {
    if rows == [] then JsMap([], map[]) else Offer(rule, Kept(rule, rows[..|rows| - 1]), rows[|rows| - 1])
  }

  // ---- What a fold keeps ----

  /** Row `i` outranks every competitor: nobody is newer, and it is on the winning side of every tie. */
  ghost predicate Wins<R, K>(rule: Rule<R, K>, rows: seq<R>, i: int) {
    && 0 <= i < |rows|
    && rule.key(rows[i]).Some?
    && forall j | 0 <= j < |rows| && rule.key(rows[j]) == rule.key(rows[i]) ::
         && rule.at(rows[j]) <= rule.at(rows[i])
         && (rule.at(rows[j]) == rule.at(rows[i]) ==> if rule.laterWins then j <= i else i <= j)
  }

  /** `k` is filed with its winner, and only if some row competes for it. */
  ghost predicate FiledRight<R, K>(rule: Rule<R, K>, rows: seq<R>, kept: JsMap<K, R>, k: K) {
    && (k in kept.vals <==> exists i :: Wins(rule, rows, i) && rule.key(rows[i]) == Some(k))
    && (k in kept.vals ==> exists i :: Wins(rule, rows, i) && rule.key(rows[i]) == Some(k) && rows[i] == kept.vals[k])
    && (k !in kept.vals ==> forall i | 0 <= i < |rows| :: rule.key(rows[i]) != Some(k))
  }

  lemma OthersUnmoved<R, K>(rule: Rule<R, K>, rows: seq<R>, row: R, k: K, kept: JsMap<K, R>, kept': JsMap<K, R>)
    requires rule.key(row) != Some(k) && FiledRight(rule, rows, kept, k)
    requires (k in kept'.vals <==> k in kept.vals) && (k in kept.vals ==> kept'.vals[k] == kept.vals[k])
    ensures FiledRight(rule, rows + [row], kept', k)
  {
    var more := rows + [row];
    assert more[|rows|] == row;
    assert forall i | 0 <= i < |rows| :: more[i] == rows[i];
    if k in kept.vals {
      var i :| Wins(rule, rows, i) && rule.key(rows[i]) == Some(k) && rows[i] == kept.vals[k];
      assert Wins(rule, more, i);
    } else {
      forall i | 0 <= i < |more| ensures rule.key(more[i]) != Some(k) {
        if i < |rows| { assert rule.key(rows[i]) != Some(k); }
      }
    }
  }

  lemma ContestedDecided<R, K>(rule: Rule<R, K>, rows: seq<R>, row: R, k: K, kept: JsMap<K, R>)
    requires rule.key(row) == Some(k) && FiledRight(rule, rows, kept, k)
    ensures FiledRight(rule, rows + [row], Offer(rule, kept, row), k)
  {
    var more := rows + [row];
    var n := |rows|;
    assert more[n] == row;
    assert forall i | 0 <= i < n :: more[i] == rows[i];
    if k in kept.vals {
      var i :| Wins(rule, rows, i) && rule.key(rows[i]) == Some(k) && rows[i] == kept.vals[k];
      if Offer(rule, kept, row) == kept && kept.vals[k] != row {
        assert Wins(rule, more, i);
      } else if rule.at(rows[i]) > rule.at(row) || (rule.at(rows[i]) == rule.at(row) && !rule.laterWins) {
        assert Wins(rule, more, i);
      } else {
        assert Wins(rule, more, n);
      }
    } else {
      assert Wins(rule, more, n);
    }
  }

  /** The loop files, under every key, the winner of that key's rows. */
  lemma {:induction false} KeptAreWinners<R, K>(rule: Rule<R, K>, rows: seq<R>, k: K)
    ensures FiledRight(rule, rows, Kept(rule, rows), k)
  {
    if rows != [] {
      var less, row := rows[..|rows| - 1], rows[|rows| - 1];
      KeptAreWinners(rule, less, k);
      assert less + [row] == rows;
      if rule.key(row) == Some(k) {
        ContestedDecided(rule, less, row, k, Kept(rule, less));
      } else {
        OthersUnmoved(rule, less, row, k, Kept(rule, less), Kept(rule, rows));
      }
    }
  }

  lemma WinnerIsUnique<R, K>(rule: Rule<R, K>, rows: seq<R>, i: int, j: int)
    requires Wins(rule, rows, i) && Wins(rule, rows, j) && rule.key(rows[i]) == rule.key(rows[j])
    ensures i == j
  {
  }

  lemma WinnerIsKept<R, K>(rule: Rule<R, K>, rows: seq<R>, i: int)
    requires Wins(rule, rows, i)
    ensures var k := rule.key(rows[i]).value; k in Kept(rule, rows).vals && Kept(rule, rows).vals[k] == rows[i]
  {
    var k := rule.key(rows[i]).value;
    KeptAreWinners(rule, rows, k);
    var j :| Wins(rule, rows, j) && rule.key(rows[j]) == Some(k) && rows[j] == Kept(rule, rows).vals[k];
    WinnerIsUnique(rule, rows, i, j);
  }

  /** What is kept under `k`, said without the loop: a row of that key, of maximal time. */
  lemma KeptIsNewest<R, K>(rule: Rule<R, K>, rows: seq<R>, k: K)
    ensures k in Kept(rule, rows).vals <==> exists r :: r in rows && rule.key(r) == Some(k)
    ensures k in Kept(rule, rows).vals ==>
              var best := Kept(rule, rows).vals[k];
              && best in rows && rule.key(best) == Some(k)
              && forall r <- rows | rule.key(r) == Some(k) :: rule.at(r) <= rule.at(best)
  {
    KeptAreWinners(rule, rows, k);
    var kept := Kept(rule, rows);
    if k in kept.vals {
      var i :| Wins(rule, rows, i) && rule.key(rows[i]) == Some(k) && rows[i] == kept.vals[k];
      assert rows[i] in rows;
    }
  }

  // ---- What a fold depends on ----

  /** Competing rows of equal time are one and the same row. */
  ghost predicate NoTies<R, K>(rule: Rule<R, K>, rows: seq<R>) {
    forall x, y | x in rows && y in rows ::
      rule.key(x).Some? && rule.key(x) == rule.key(y) && rule.at(x) == rule.at(y) ==> x == y
  }

  ghost predicate SameEntry<K, V>(a: map<K, V>, b: map<K, V>, k: K) {
    (k in a <==> k in b) && (k in a ==> a[k] == b[k])
  }

  lemma SameMaps<K, V>(a: map<K, V>, b: map<K, V>)
    requires forall k <- a.Keys + b.Keys :: SameEntry(a, b, k)
    ensures a == b
  {
    assert forall k <- a :: k in a.Keys + b.Keys && SameEntry(a, b, k);
    assert forall k <- b :: k in a.Keys + b.Keys && SameEntry(a, b, k);
    assert a.Keys == b.Keys;
  }

  lemma WinnerSurvives<R, K>(rule: Rule<R, K>, a: seq<R>, b: seq<R>, k: K)
    requires NoTies(rule, a)
    requires forall r <- b | rule.key(r).Some? :: r in a
    requires k in Kept(rule, a).vals ==> Kept(rule, a).vals[k] in b
    ensures SameEntry(Kept(rule, a).vals, Kept(rule, b).vals, k)
  {
    KeptIsNewest(rule, a, k);
    KeptIsNewest(rule, b, k);
  }

  /** Without ties only the winners matter: any log drawn from `a` that still holds them is worth the same. */
  lemma OnlyWinnersMatter<R, K>(rule: Rule<R, K>, a: seq<R>, b: seq<R>)
    requires NoTies(rule, a)
    requires forall r <- b | rule.key(r).Some? :: r in a
    requires forall k <- Kept(rule, a).vals :: Kept(rule, a).vals[k] in b
    ensures Kept(rule, a).vals == Kept(rule, b).vals
  {
    var ka, kb := Kept(rule, a).vals, Kept(rule, b).vals;
    forall k | k in ka.Keys + kb.Keys ensures SameEntry(ka, kb, k) {
      WinnerSurvives(rule, a, b, k);
    }
    SameMaps(ka, kb);
  }

  // ---- Absorption, for folds where the later of two equals wins ----

  ghost predicate HoldsKept<R, K>(rule: Rule<R, K>, x: seq<R>, m: seq<R>) {
    && (forall r <- m ::
          rule.key(r).Some? && rule.key(r).value in Kept(rule, x).vals && Kept(rule, x).vals[rule.key(r).value] == r)
    && (forall k <- Kept(rule, x).vals :: Kept(rule, x).vals[k] in m)
  }

  /** What a fold over two halves keeps for `k`, from what each half keeps: ties go to the second. */
  ghost predicate Combined<R, K>(rule: Rule<R, K>, kx: JsMap<K, R>, ky: JsMap<K, R>, kxy: JsMap<K, R>, k: K) {
    && (k in kxy.vals <==> k in kx.vals || k in ky.vals)
    && (k in ky.vals && (k in kx.vals ==> rule.at(kx.vals[k]) <= rule.at(ky.vals[k])) ==> kxy.vals[k] == ky.vals[k])
    && (k in kx.vals && !(k in ky.vals && rule.at(kx.vals[k]) <= rule.at(ky.vals[k])) ==> kxy.vals[k] == kx.vals[k])
  }

  lemma CombinedStep<R, K>(rule: Rule<R, K>, kx: JsMap<K, R>, ky: JsMap<K, R>, kxy: JsMap<K, R>, row: R, k: K)
    requires rule.laterWins && Combined(rule, kx, ky, kxy, k)
    ensures Combined(rule, kx, Offer(rule, ky, row), Offer(rule, kxy, row), k)
  {
  }

  /** Where the winner of a concatenation comes from when later rows win ties. */
  lemma {:induction false} KeptOfConcat<R, K>(rule: Rule<R, K>, x: seq<R>, y: seq<R>, k: K)
    requires rule.laterWins
    ensures Combined(rule, Kept(rule, x), Kept(rule, y), Kept(rule, x + y), k)
    decreases |y|
  {
    if y == [] {
      assert x + y == x;
    } else {
      var less, row := y[..|y| - 1], y[|y| - 1];
      KeptOfConcat(rule, x, less, k);
      assert (x + y)[..|x + y| - 1] == x + less;
      assert (x + y)[|x + y| - 1] == row;
      CombinedStep(rule, Kept(rule, x), Kept(rule, less), Kept(rule, x + less), row, k);
    }
  }

  lemma AbsorbedAt<R, K>(rule: Rule<R, K>, x: seq<R>, m: seq<R>, k: K)
    requires HoldsKept(rule, x, m)
    ensures SameEntry(Kept(rule, m).vals, Kept(rule, x).vals, k)
  {
    KeptIsNewest(rule, m, k);
    KeptIsNewest(rule, x, k);
  }

  /** A fold's own output is worth the rows it came from. */
  lemma Absorbed<R, K>(rule: Rule<R, K>, x: seq<R>, m: seq<R>)
    requires HoldsKept(rule, x, m)
    ensures Kept(rule, m).vals == Kept(rule, x).vals
  {
    var kx, km := Kept(rule, x).vals, Kept(rule, m).vals;
    forall k | k in km.Keys + kx.Keys ensures SameEntry(km, kx, k) {
      AbsorbedAt(rule, x, m, k);
    }
    SameMaps(km, kx);
  }

  lemma KeptDependsOnHalves<R, K>(rule: Rule<R, K>, x: seq<R>, y: seq<R>, x': seq<R>, y': seq<R>)
    requires rule.laterWins
    requires Kept(rule, x).vals == Kept(rule, x').vals && Kept(rule, y).vals == Kept(rule, y').vals
    ensures Kept(rule, x + y).vals == Kept(rule, x' + y').vals
  {
    var a, b := Kept(rule, x + y).vals, Kept(rule, x' + y').vals;
    forall k | k in a.Keys + b.Keys ensures SameEntry(a, b, k) {
      KeptOfConcat(rule, x, y, k);
      KeptOfConcat(rule, x', y', k);
    }
    SameMaps(a, b);
  }

  /** The values of a fold are its winners, one per key. */
  lemma ValuesHoldKept<R, K>(rule: Rule<R, K>, x: seq<R>)
    ensures HoldsKept(rule, x, Kept(rule, x).Values())
    ensures forall i, j | 0 <= i < j < |Kept(rule, x).Values()| ::
              rule.key(Kept(rule, x).Values()[i]) != rule.key(Kept(rule, x).Values()[j])
  {
    var kept := Kept(rule, x);
    forall k | k in kept.vals ensures rule.key(kept.vals[k]) == Some(k) {
      KeptIsNewest(rule, x, k);
    }
    forall i | 0 <= i < |kept.keys|
      ensures kept.keys[i] in kept.vals && rule.key(kept.Values()[i]) == Some(kept.keys[i])
    {
      assert kept.keys[i] in kept.keys;
    }
    forall k | k in kept.vals ensures kept.vals[k] in kept.Values() {
      assert k in kept.keys;
      var i :| 0 <= i < |kept.keys| && kept.keys[i] == k;
      assert kept.Values()[i] == kept.vals[k];
    }
  }
}
