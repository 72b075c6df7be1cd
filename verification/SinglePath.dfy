/** Documents that hold one value, at the end of one path: what tells two paths apart. */
module SinglePath {
  import opened Json
  import opened Contract

  function Texts(found: seq<Json>): seq<string> {
    if found == [] then [] else (if found[0].Str? then [found[0].s] else []) + Texts(found[1..])
  }

  lemma {:induction false} TextsConcat(a: seq<Json>, b: seq<Json>)
    ensures Texts(a + b) == Texts(a) + Texts(b)
  {
    if a == [] {
      assert a + b == b;
    } else {
      assert (a + b)[1..] == a[1..] + b;
      TextsConcat(a[1..], b);
    }
  }

  lemma {:induction false} TextsMembers(found: seq<Json>, s: string)
    ensures s in Texts(found) <==> Str(s) in found
  {
    if found != [] {
      TextsMembers(found[1..], s);
      assert Str(s) in found <==> found[0] == Str(s) || Str(s) in found[1..];
    }
  }

  /** The document with `leaf` at the end of `steps`, and nothing else. */
  function Along(steps: seq<Step>, leaf: Json): Json {
    if steps == [] then leaf
    else match steps[0]
      case Field(name) => Obj(map[name := Along(steps[1..], leaf)])
      case Items => Arr([Along(steps[1..], leaf)])
  }

  lemma SelectOnly(item: Json, path: seq<Step>)
    requires path != []
    ensures SelectEach([item], path) == Select(item, path[1..])
  {
    assert [item][1..] == [];
  }

  lemma {:induction false} AlongLeadsToLeaf(steps: seq<Step>, s: string)
    ensures Select(Along(steps, Str(s)), steps) == [Str(s)]
  {
    if steps != [] {
      AlongLeadsToLeaf(steps[1..], s);
      if steps[0].Items? { SelectOnly(Along(steps[1..], Str(s)), steps); }
    }
  }

  /** No other path finds a text there. */
  lemma {:induction false} AlongHidesFromOthers(steps: seq<Step>, s: string, other: seq<Step>)
    requires other != steps
    ensures Texts(Select(Along(steps, Str(s)), other)) == []
  {
    if steps != [] && other != [] {
      if steps[0] == other[0] {
        assert steps == [steps[0]] + steps[1..] && other == [other[0]] + other[1..];
        AlongHidesFromOthers(steps[1..], s, other[1..]);
        if steps[0].Items? { SelectOnly(Along(steps[1..], Str(s)), other); }
      }
    }
  }
}
