/**
 The constraint collector of `codegen/generate.py`: a walk over a JSON Schema
 whose `$ref`s may form cycles, what its output means, and when it is exact.
 The fragment is JSON Schema 2020-12: `$ref` (Core section 8.2.3.1), `anyOf`
 (Core section 10.2.1.2) and `enum` (Validation section 6.1.2).
 */
module Contract {
  import opened Wrappers
  import opened Json

  datatype Types = Untyped | One(name: string) | Several(names: seq<string>)

  /** One schema object. `ref` is the name after the last slash; `properties` keeps declaration order. */
  datatype Schema = Schema(
    ref: Option<string>, anyOf: Choice, values: Option<seq<string>>, types: Types,
    items: Option<Schema>, properties: seq<Property>, constant: Option<Json>, oneOfOrAllOf: bool, u64Decimal: bool)

  datatype Property = Property(name: string, spec: Schema)

  datatype Choice = NoChoice | AnyOf(branches: seq<Schema>)

  type Defs = map<string, Schema>

  predicate IsNull(s: Schema) {
    s.types == One("null")
  }

  datatype Step = Field(name: string) | Items

  /** An enum-constrained field: where it is, below the node it was found from, and what it may hold. */
  datatype Constraint = Constraint(path: seq<Step>, values: seq<string>)

  function Under(step: Step, found: seq<Constraint>): seq<Constraint> {
    if found == [] then [] else [found[0].(path := [step] + found[0].path)] + Under(step, found[1..])
  }

  function Both(a: Option<seq<Constraint>>, b: Option<seq<Constraint>>): Option<seq<Constraint>> {
    if a.None? || b.None? then None else Some(a.value + b.value)
  }

  function Below(step: Step, found: Option<seq<Constraint>>): Option<seq<Constraint>> {
    if found.None? then None else Some(Under(step, found.value))
  }

  /** `walk`, with paths relative to `node`. None is the KeyError of a `$ref` to a definition that is not there.
      It ends on every schema: following a reference uses up a name, everything else goes into the node. */
  function Walk(defs: Defs, node: Schema, seen: set<string>): Option<seq<Constraint>>
    decreases defs.Keys - seen, node, 2, 0
  {
    if node.ref.Some? then
      var name := node.ref.value;
      if name in seen then Some([])
      else if name !in defs then None
      else
        assert name in defs.Keys - seen && name !in defs.Keys - (seen + {name});
        Walk(defs, defs[name], seen + {name})
    else if node.anyOf.AnyOf? then WalkBranches(defs, node, 0, seen)
    else if node.values.Some? && node.values.value != [] && node.types == One("string") then
      Some([Constraint([], node.values.value)])
    else if node.types == One("array") && node.items.Some? then Below(Items, Walk(defs, node.items.value, seen))
    else WalkFields(defs, node, 0, seen)
  }

  function WalkBranches(defs: Defs, node: Schema, i: nat, seen: set<string>): Option<seq<Constraint>>
    requires node.anyOf.AnyOf? && i <= |node.anyOf.branches|
    decreases defs.Keys - seen, node, 1, |node.anyOf.branches| - i
  {
    if i == |node.anyOf.branches| then Some([])
    else
      var item := node.anyOf.branches[i];
      Both(if IsNull(item) then Some([]) else Walk(defs, item, seen), WalkBranches(defs, node, i + 1, seen))
  }

  function WalkFields(defs: Defs, node: Schema, i: nat, seen: set<string>): Option<seq<Constraint>>
    requires i <= |node.properties|
    decreases defs.Keys - seen, node, 1, |node.properties| - i
  {
    if i == |node.properties| then Some([])
    else
      var p := node.properties[i];
      Both(Below(Field(p.name), Walk(defs, p.spec, seen)), WalkFields(defs, node, i + 1, seen))
  }

  // ---- What a constraint says of a document ----

  /** The values a path leads to; absent fields and values of another shape lead nowhere. */
  function Select(doc: Json, path: seq<Step>): seq<Json>
    decreases |path|, 0, 0
  {
    if path == [] then [doc]
    else match path[0]
      case Field(name) => if doc.Obj? && name in doc.members then Select(doc.members[name], path[1..]) else []
      case Items => if doc.Arr? then SelectEach(doc.items, path) else []
  }

  function SelectEach(items: seq<Json>, path: seq<Step>): seq<Json>
    requires path != []
    decreases |path| - 1, 1, |items|
  {
    if items == [] then [] else Select(items[0], path[1..]) + SelectEach(items[1..], path)
  }

  ghost predicate Satisfies(doc: Json, c: Constraint) {
    forall v <- Select(doc, c.path) :: v.Str? ==> v.s in c.values
  }

  ghost predicate SatisfiesAll(doc: Json, found: seq<Constraint>) {
    forall c <- found :: Satisfies(doc, c)
  }

  // ---- What a schema says of a document ----

  predicate TypeAdmits(name: string, doc: Json) {
    match name
    case "null" => doc.Null?
    case "boolean" => doc.Bool?
    case "number" => doc.Num?
    case "integer" => doc.Num? && doc.n.Floor as real == doc.n
    case "string" => doc.Str?
    case "array" => doc.Arr?
    case "object" => doc.Obj?
    case _ => false
  }

  predicate TypesAdmit(types: Types, doc: Json) {
    match types
    case Untyped => true
    case One(name) => TypeAdmits(name, doc)
    case Several(names) => exists name <- names :: TypeAdmits(name, doc)
  }

  /** `doc` is not refuted by `node` within `depth` references. Every keyword of a node applies. */
  ghost predicate Valid(depth: nat, defs: Defs, node: Schema, doc: Json)
    decreases depth, node
  {
    && (node.ref.Some? ==> node.ref.value in defs && (depth == 0 || Valid(depth - 1, defs, defs[node.ref.value], doc)))
    && (node.anyOf.AnyOf? ==>
          exists i | 0 <= i < |node.anyOf.branches| :: Valid(depth, defs, node.anyOf.branches[i], doc))
    && (node.values.Some? ==> doc.Str? && doc.s in node.values.value)
    && (node.constant.Some? ==> doc == node.constant.value)
    && TypesAdmit(node.types, doc)
    && (node.items.Some? && doc.Arr? ==>
          forall k | 0 <= k < |doc.items| :: Valid(depth, defs, node.items.value, doc.items[k]))
    && (doc.Obj? ==> forall i | 0 <= i < |node.properties| ::
          node.properties[i].name in doc.members ==>
            Valid(depth, defs, node.properties[i].spec, doc.members[node.properties[i].name]))
  }

  /** The enum part alone: everything but string enums is taken to hold, and null meets only a null branch. */
  ghost predicate EnumsHold(depth: nat, defs: Defs, node: Schema, doc: Json)
    decreases depth, node
  {
    && (node.ref.Some? ==>
          node.ref.value in defs && (depth == 0 || EnumsHold(depth - 1, defs, defs[node.ref.value], doc)))
    && (node.anyOf.AnyOf? ==> exists i | 0 <= i < |node.anyOf.branches| ::
          if IsNull(node.anyOf.branches[i]) then doc.Null? else EnumsHold(depth, defs, node.anyOf.branches[i], doc))
    && (node.values.Some? && node.types == One("string") && doc.Str? ==> doc.s in node.values.value)
    && (node.items.Some? && doc.Arr? ==>
          forall k | 0 <= k < |doc.items| :: EnumsHold(depth, defs, node.items.value, doc.items[k]))
    && (doc.Obj? ==> forall i | 0 <= i < |node.properties| ::
          node.properties[i].name in doc.members ==>
            EnumsHold(depth, defs, node.properties[i].spec, doc.members[node.properties[i].name]))
  }

  /** The enum part really is a part. */
  lemma {:induction false} ValidImpliesEnums(depth: nat, defs: Defs, node: Schema, doc: Json)
    requires Valid(depth, defs, node, doc)
    ensures EnumsHold(depth, defs, node, doc)
    decreases depth, node
  {
    if node.ref.Some? && depth > 0 {
      ValidImpliesEnums(depth - 1, defs, defs[node.ref.value], doc);
    }
    if node.anyOf.AnyOf? {
      var i :| 0 <= i < |node.anyOf.branches| && Valid(depth, defs, node.anyOf.branches[i], doc);
      if !IsNull(node.anyOf.branches[i]) {
        ValidImpliesEnums(depth, defs, node.anyOf.branches[i], doc);
      }
    }
    if node.items.Some? && doc.Arr? {
      forall k | 0 <= k < |doc.items| ensures EnumsHold(depth, defs, node.items.value, doc.items[k]) {
        ValidImpliesEnums(depth, defs, node.items.value, doc.items[k]);
      }
    }
    if doc.Obj? {
      forall i | 0 <= i < |node.properties| && node.properties[i].name in doc.members
        ensures EnumsHold(depth, defs, node.properties[i].spec, doc.members[node.properties[i].name])
      {
        ValidImpliesEnums(depth, defs, node.properties[i].spec, doc.members[node.properties[i].name]);
      }
    }
  }

  // ---- The list, constraint by constraint ----

  function NonNull(branches: seq<Schema>): nat {
    if branches == [] then 0 else (if IsNull(branches[0]) then 0 else 1) + NonNull(branches[1..])
  }

  lemma {:induction false} UnderMembers(step: Step, found: seq<Constraint>)
    ensures forall c <- Under(step, found) ::
              c.path != [] && c.path[0] == step && Constraint(c.path[1..], c.values) in found
    ensures forall c <- found :: Constraint([step] + c.path, c.values) in Under(step, found)
    ensures Under(step, found) == [] <==> found == []
  {
    if found != [] {
      UnderMembers(step, found[1..]);
      assert found == [found[0]] + found[1..];
      assert ([step] + found[0].path)[1..] == found[0].path;
    }
  }

  lemma FieldSatisfies(doc: Json, name: string, found: seq<Constraint>)
    ensures SatisfiesAll(doc, Under(Field(name), found)) <==>
            (doc.Obj? && name in doc.members ==> SatisfiesAll(doc.members[name], found))
  {
    UnderMembers(Field(name), found);
    forall c | c in found
      ensures Select(doc, [Field(name)] + c.path) ==
              if doc.Obj? && name in doc.members then Select(doc.members[name], c.path) else []
    {
      assert ([Field(name)] + c.path)[1..] == c.path;
    }
    if SatisfiesAll(doc, Under(Field(name), found)) && doc.Obj? && name in doc.members {
      forall c | c in found ensures Satisfies(doc.members[name], c) {
        assert Satisfies(doc, Constraint([Field(name)] + c.path, c.values));
      }
    }
    if doc.Obj? && name in doc.members ==> SatisfiesAll(doc.members[name], found) {
      forall c | c in Under(Field(name), found) ensures Satisfies(doc, c) {
        assert c.path == [Field(name)] + c.path[1..];
        if doc.Obj? && name in doc.members { assert Satisfies(doc.members[name], Constraint(c.path[1..], c.values)); }
      }
    }
  }

  lemma {:induction false} SelectEachMembers(items: seq<Json>, path: seq<Step>, v: Json)
    requires path != []
    ensures v in SelectEach(items, path) <==> exists k | 0 <= k < |items| :: v in Select(items[k], path[1..])
    decreases |items|
  {
    if items != [] {
      SelectEachMembers(items[1..], path, v);
      assert forall k | 0 <= k < |items| - 1 :: items[1..][k] == items[k + 1];
      if v in SelectEach(items[1..], path) {
        var k :| 0 <= k < |items[1..]| && v in Select(items[1..][k], path[1..]);
        assert v in Select(items[k + 1], path[1..]);
      }
    }
  }

  lemma ItemsSatisfyOne(doc: Json, c: Constraint)
    ensures Satisfies(doc, Constraint([Items] + c.path, c.values)) <==>
            (doc.Arr? ==> forall k | 0 <= k < |doc.items| :: Satisfies(doc.items[k], c))
  {
    var path := [Items] + c.path;
    assert path[1..] == c.path;
    if doc.Arr? {
      forall v
        ensures v in Select(doc, path) <==> exists k | 0 <= k < |doc.items| :: v in Select(doc.items[k], c.path)
      {
        SelectEachMembers(doc.items, path, v);
      }
    }
  }

  lemma ItemsSatisfy(doc: Json, found: seq<Constraint>)
    ensures SatisfiesAll(doc, Under(Items, found)) <==>
            (doc.Arr? ==> forall k | 0 <= k < |doc.items| :: SatisfiesAll(doc.items[k], found))
  {
    UnderMembers(Items, found);
    forall c: Constraint ensures Satisfies(doc, Constraint([Items] + c.path, c.values)) <==>
                     (doc.Arr? ==> forall k | 0 <= k < |doc.items| :: Satisfies(doc.items[k], c)) {
      ItemsSatisfyOne(doc, c);
    }
    forall c | c in Under(Items, found)
      ensures c == Constraint([Items] + Constraint(c.path[1..], c.values).path, c.values)
    {
      assert c.path == [Items] + c.path[1..];
    }
  }

  lemma NullSatisfies(found: seq<Constraint>)
    ensures SatisfiesAll(Null, found)
  {
  }
}
