/** What one list of constraints demands of another, on every document and read off the lists. */
module ContractLists {
  import opened Json
  import opened Contract
  import opened SinglePath

  /** Whatever satisfies `a` satisfies `c`, read off the lists: `a` speaks about that path too, and what all of it
      allows there `c` allows. */
  ghost predicate Demands(a: seq<Constraint>, c: Constraint) {
    exists d <- a :: d.path == c.path && forall s <- d.values | AllowedAt(a, c.path, s) :: s in c.values
  }

  ghost predicate AllowedAt(a: seq<Constraint>, path: seq<Step>, s: string) {
    forall e <- a | e.path == path :: s in e.values
  }

  lemma {:induction false} SomeOtherText(values: seq<string>, n: nat) returns (s: string)
    ensures |s| >= n && s !in values
    decreases |values|
  {
    if values == [] {
      s := seq(n, i => 'x');
    } else {
      s := SomeOtherText(values[1..], if |values[0]| + 1 > n then |values[0]| + 1 else n);
      assert values == [values[0]] + values[1..];
    }
  }

  lemma AlongSatisfies(a: seq<Constraint>, path: seq<Step>, s: string)
    requires AllowedAt(a, path, s)
    ensures SatisfiesAll(Along(path, Str(s)), a)
  {
    forall e | e in a ensures Satisfies(Along(path, Str(s)), e) {
      if e.path == path {
        AlongLeadsToLeaf(path, s);
      } else {
        AlongHidesFromOthers(path, s, e.path);
        forall v | v in Select(Along(path, Str(s)), e.path) ensures !v.Str? {
          if v.Str? { TextsMembers(Select(Along(path, Str(s)), e.path), v.s); }
        }
      }
    }
  }

  lemma DemandsHold(doc: Json, a: seq<Constraint>, c: Constraint)
    requires Demands(a, c) && SatisfiesAll(doc, a)
    ensures Satisfies(doc, c)
  {
    var d :| d in a && d.path == c.path && forall s <- d.values | AllowedAt(a, c.path, s) :: s in c.values;
    forall v | v in Select(doc, c.path) && v.Str? ensures v.s in c.values {
      assert Satisfies(doc, d);
      forall e | e in a && e.path == c.path ensures v.s in e.values { assert Satisfies(doc, e); }
    }
  }

  lemma UndemandedIsBroken(a: seq<Constraint>, c: Constraint) returns (doc: Json)
    requires !Demands(a, c)
    ensures SatisfiesAll(doc, a) && !Satisfies(doc, c)
  {
    var s: string;
    if d :| d in a && d.path == c.path {
      s :| s in d.values && AllowedAt(a, c.path, s) && s !in c.values;
    } else {
      s := SomeOtherText(c.values, 0);
    }
    doc := Along(c.path, Str(s));
    AlongSatisfies(a, c.path, s);
    AlongLeadsToLeaf(c.path, s);
    assert Str(s) in Select(doc, c.path);
  }

  ghost predicate DemandsAll(a: seq<Constraint>, b: seq<Constraint>) {
    forall c <- b :: Demands(a, c)
  }

  /** One list implies another, on every document, exactly when it demands all of it. */
  lemma ImpliesIffDemandsAll(a: seq<Constraint>, b: seq<Constraint>)
    ensures (forall doc | SatisfiesAll(doc, a) :: SatisfiesAll(doc, b)) <==> DemandsAll(a, b)
  {
    if DemandsAll(a, b) {
      forall doc, c | SatisfiesAll(doc, a) && c in b ensures Satisfies(doc, c) { DemandsHold(doc, a, c); }
    } else {
      var c :| c in b && !Demands(a, c);
      var doc := UndemandedIsBroken(a, c);
      assert !SatisfiesAll(doc, b);
    }
  }

  lemma ListDemandsItself(a: seq<Constraint>)
    ensures DemandsAll(a, a)
  {
    forall c | c in a ensures Demands(a, c) {
      assert c.path == c.path && forall s <- c.values | AllowedAt(a, c.path, s) :: s in c.values;
    }
  }
}
