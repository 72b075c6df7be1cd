/** The collector as it runs, appending to one shared list, and the textual paths it emits. */
module ContractPaths {
  import opened Wrappers
  import opened Sequences
  import opened Contract

  datatype Emitted = Emitted(path: string, values: seq<string>)

  function Extend(path: string, step: Step): string {
    match step
    case Field(name) => if path != "" then path + "." + name else name
    case Items => path + "[]"
  }

  function Render(prefix: string, steps: seq<Step>): string
    decreases |steps|
  {
    if steps == [] then prefix else Render(Extend(prefix, steps[0]), steps[1..])
  }

  function Emit(prefix: string, found: seq<Constraint>): seq<Emitted> {
    if found == [] then [] else [Emitted(Render(prefix, found[0].path), found[0].values)] + Emit(prefix, found[1..])
  }

  lemma {:induction false} EmitConcat(prefix: string, a: seq<Constraint>, b: seq<Constraint>)
    ensures Emit(prefix, a + b) == Emit(prefix, a) + Emit(prefix, b)
  {
    if a == [] {
      assert a + b == b;
    } else {
      assert (a + b)[1..] == a[1..] + b;
      EmitConcat(prefix, a[1..], b);
    }
  }

  lemma {:induction false} EmitUnder(prefix: string, step: Step, found: seq<Constraint>)
    ensures Emit(prefix, Under(step, found)) == Emit(Extend(prefix, step), found)
  {
    if found != [] {
      EmitUnder(prefix, step, found[1..]);
      assert ([step] + found[0].path)[1..] == found[0].path;
      assert Under(step, found)[1..] == Under(step, found[1..]);
    }
  }

  /** The list still to be appended, or None when a definition on the way is missing. */
  function Due(path: string, found: Option<seq<Constraint>>): Option<seq<Emitted>> {
    if found.None? then None else Some(Emit(path, found.value))
  }

  function Then(a: Option<seq<Emitted>>, b: Option<seq<Emitted>>): Option<seq<Emitted>> {
    if a.None? || b.None? then None else Some(a.value + b.value)
  }

  lemma ThenLaws(a: Option<seq<Emitted>>, b: Option<seq<Emitted>>, c: Option<seq<Emitted>>)
    ensures Then(a, Then(b, c)) == Then(Then(a, b), c)
    ensures Then(Some([]), a) == a == Then(a, Some([]))
  {
    if a.Some? && b.Some? && c.Some? {
      assert a.value + (b.value + c.value) == (a.value + b.value) + c.value;
    }
    if a.Some? { assert [] + a.value == a.value == a.value + []; }
  }

  lemma BranchDue(defs: Defs, node: Schema, i: nat, path: string, seen: set<string>)
    requires node.anyOf.AnyOf? && i < |node.anyOf.branches|
    ensures Due(path, WalkBranches(defs, node, i, seen)) ==
            Then(if IsNull(node.anyOf.branches[i]) then Some([])
                 else Due(path, Walk(defs, node.anyOf.branches[i], seen)),
                 Due(path, WalkBranches(defs, node, i + 1, seen)))
  {
    var item, rest := node.anyOf.branches[i], WalkBranches(defs, node, i + 1, seen);
    var head := if IsNull(item) then Some([]) else Walk(defs, item, seen);
    if head.Some? && rest.Some? { EmitConcat(path, head.value, rest.value); }
  }

  lemma FieldDue(defs: Defs, node: Schema, i: nat, path: string, seen: set<string>)
    requires i < |node.properties|
    ensures Due(path, WalkFields(defs, node, i, seen)) ==
            Then(Due(Extend(path, Field(node.properties[i].name)), Walk(defs, node.properties[i].spec, seen)),
                 Due(path, WalkFields(defs, node, i + 1, seen)))
  {
    var p, rest := node.properties[i], WalkFields(defs, node, i + 1, seen);
    var head := Walk(defs, p.spec, seen);
    if head.Some? {
      EmitUnder(path, Field(p.name), head.value);
      if rest.Some? { EmitConcat(path, Under(Field(p.name), head.value), rest.value); }
    }
  }

  lemma FieldStep(defs: Defs, node: Schema, i: nat, path: string, seen: set<string>, sofar: seq<Emitted>, below: string)
    requires i < |node.properties| && below == Extend(path, Field(node.properties[i].name))
    ensures var head := Due(below, Walk(defs, node.properties[i].spec, seen));
            var left := Due(path, WalkFields(defs, node, i, seen));
            var rest := Due(path, WalkFields(defs, node, i + 1, seen));
            && (head.None? ==> left.None?)
            && (head.Some? ==> Then(Some(sofar), left) == Then(Some(sofar + head.value), rest))
  {
    FieldDue(defs, node, i, path, seen);
    ThenLaws(Some(sofar), Due(below, Walk(defs, node.properties[i].spec, seen)),
             Due(path, WalkFields(defs, node, i + 1, seen)));
  }

  /** `collect_constraints`: one list that the recursive walk appends to. */
  class Collector {
    var found: seq<Emitted>

    constructor ()
      ensures found == []
    {
      found := [];
    }

    /** False is the KeyError of a missing definition. */
    method Walk(defs: Defs, node: Schema, path: string, seen: set<string>) returns (ok: bool)
      modifies this
      ensures ok == Contract.Walk(defs, node, seen).Some?
      ensures ok ==> found == old(found) + Emit(path, Contract.Walk(defs, node, seen).value)
      decreases defs.Keys - seen, node
    {
      if node.ref.Some? {
        var name := node.ref.value;
        if name in seen { return true; }
        if name !in defs { return false; }
        assert name in defs.Keys - seen && name !in defs.Keys - (seen + {name});
        ok := Walk(defs, defs[name], path, seen + {name});
        return;
      }
      if node.anyOf.AnyOf? {
        ok := WalkChoice(defs, node, path, seen);
        return;
      }
      if node.values.Some? && node.values.value != [] && node.types == One("string") {
        found := found + [Emitted(path, node.values.value)];
        assert Emit(path, [Constraint([], node.values.value)]) == [Emitted(path, node.values.value)];
        return true;
      }
      if node.types == One("array") && node.items.Some? {
        ok := Walk(defs, node.items.value, path + "[]", seen);
        if ok { EmitUnder(path, Items, Contract.Walk(defs, node.items.value, seen).value); }
        return;
      }
      ok := WalkProperties(defs, node, path, seen);
    }

    method WalkChoice(defs: Defs, node: Schema, path: string, seen: set<string>) returns (ok: bool)
      requires node.anyOf.AnyOf?
      modifies this
      ensures ok == WalkBranches(defs, node, 0, seen).Some?
      ensures ok ==> found == old(found) + Emit(path, WalkBranches(defs, node, 0, seen).value)
      decreases defs.Keys - seen, node, 0
    {
      ghost var due := Due(path, WalkBranches(defs, node, 0, seen));
      ghost var sofar: seq<Emitted> := [];
      ThenLaws(due, None, None);
      for i := 0 to |node.anyOf.branches|
        invariant found == old(found) + sofar
        invariant due == Then(Some(sofar), Due(path, WalkBranches(defs, node, i, seen)))
      {
        var item := node.anyOf.branches[i];
        ghost var head := if IsNull(item) then Some([]) else Due(path, Contract.Walk(defs, item, seen));
        BranchDue(defs, node, i, path, seen);
        ThenLaws(Some(sofar), head, Due(path, WalkBranches(defs, node, i + 1, seen)));
        if IsNull(item) { continue; }
        var went := Walk(defs, item, path, seen);
        if !went { return false; }
        Regroup(old(found), sofar, head.value);
        sofar := sofar + head.value;
      }
      ThenLaws(Some(sofar), None, None);
      return true;
    }

    method WalkProperties(defs: Defs, node: Schema, path: string, seen: set<string>) returns (ok: bool)
      modifies this
      ensures ok == WalkFields(defs, node, 0, seen).Some?
      ensures ok ==> found == old(found) + Emit(path, WalkFields(defs, node, 0, seen).value)
      decreases defs.Keys - seen, node, 0
    {
      ghost var due := Due(path, WalkFields(defs, node, 0, seen));
      ghost var sofar: seq<Emitted> := [];
      ThenLaws(due, None, None);
      for i := 0 to |node.properties|
        invariant found == old(found) + sofar
        invariant due == Then(Some(sofar), Due(path, WalkFields(defs, node, i, seen)))
      {
        var p := node.properties[i];
        var below := if path != "" then path + "." + p.name else p.name;
        ghost var head := Due(below, Contract.Walk(defs, p.spec, seen));
        FieldStep(defs, node, i, path, seen, sofar, below);
        var went := Walk(defs, p.spec, below, seen);
        if !went { return false; }
        Regroup(old(found), sofar, head.value);
        sofar := sofar + head.value;
      }
      ThenLaws(Some(sofar), None, None);
      return true;
    }
  }

  method CollectConstraints(schema: Schema, defs: Defs) returns (found: Option<seq<Emitted>>)
    ensures found == if Walk(defs, schema, {}).None? then None else Some(Emit("", Walk(defs, schema, {}).value))
  {
    var c := new Collector();
    var ok := c.Walk(defs, schema, "", {});
    if ok { assert [] + Emit("", Walk(defs, schema, {}).value) == Emit("", Walk(defs, schema, {}).value); }
    return if ok then Some(c.found) else None;
  }
}
