/** Which JSON a Rust type of the binding stands for, and that every valid document has a value of its type. */
module ContractValues {
  import opened Wrappers
  import opened Json
  import opened Contract
  import opened ContractTypes

  ghost predicate ValidFor(defs: Defs, s: Schema, doc: Json) {
    forall depth: nat :: Valid(depth, defs, s, doc)
  }

  /** `doc` is the JSON of some value of type `t`, as serde reads and writes it; a named type stands for what its
      definition admits. */
  ghost predicate Fits(t: RustType, defs: Defs, doc: Json)
    decreases t
  {
    match t
    case U64 => doc.Str?
    case Text => doc.Str?
    case Int64 => doc.Num? && doc.n.Floor as real == doc.n
    case Float64 => doc.Num?
    case Boolean => doc.Bool?
    case ContextValue => true
    case Named(name) => name in defs && ValidFor(defs, defs[name], doc)
    case Optional(inner) => doc.Null? || Fits(inner, defs, doc)
    case Vec(element) => doc.Arr? && forall k | 0 <= k < |doc.items| :: Fits(element, defs, doc.items[k])
  }

  // ---- What the generator takes for granted ----

  /** The three things it knows by name or by mark: a u64 is written as a text, `EpochMillis` is an integer, and
      `NullableString` is a text or null. */
  ghost predicate NamedAsMeant(defs: Defs) {
    && (forall name <- defs | defs[name].u64Decimal :: defs[name].types == One("string"))
    && ("EpochMillis" in defs ==> defs["EpochMillis"].types == One("integer"))
    && ("NullableString" in defs ==> defs["NullableString"].types == Several(["string", "null"]))
  }

  /** Along the way the type is read off: a u64 is written as a text, and a constant is a text. */
  predicate WrittenAsMeant(s: Schema)
    decreases s
  {
    && (s.u64Decimal ==> s.types == One("string"))
    && (s.constant.Some? ==> s.constant.value.Str?)
    && (Nullable(s) ==> WrittenAsMeant(TheOther(s)))
    && (s.items.Some? ==> WrittenAsMeant(s.items.value))
  }

  // ---- Valid documents fit ----

  lemma {:induction false} NonNullKept(branches: seq<Schema>, i: nat)
    requires i < |branches| && !IsNull(branches[i])
    ensures branches[i] in NonNullOf(branches)
  {
    if i > 0 { NonNullKept(branches[1..], i - 1); }
  }

  /** What is valid for a nullable schema is null, or valid for what the schema wraps. */
  lemma NullOrTheOther(defs: Defs, s: Schema, doc: Json)
    requires Nullable(s) && ValidFor(defs, s, doc) && !doc.Null?
    ensures ValidFor(defs, TheOther(s), doc)
  {
    forall depth: nat ensures Valid(depth, defs, TheOther(s), doc) {
      assert Valid(depth, defs, s, doc);
      var i :| 0 <= i < |s.anyOf.branches| && Valid(depth, defs, s.anyOf.branches[i], doc);
      NonNullKept(s.anyOf.branches, i);
    }
  }

  lemma ReferenceValid(defs: Defs, s: Schema, doc: Json)
    requires s.ref.Some? && ValidFor(defs, s, doc)
    ensures s.ref.value in defs && ValidFor(defs, defs[s.ref.value], doc)
  {
    assert Valid(0, defs, s, doc);
    forall depth: nat ensures Valid(depth, defs, defs[s.ref.value], doc) {
      assert Valid(depth + 1, defs, s, doc);
    }
  }

  lemma ReferenceFits(s: Schema, defs: Defs, doc: Json)
    requires s.ref.Some? && !s.u64Decimal && NamedAsMeant(defs) && ValidFor(defs, s, doc)
    ensures RustTypeOf(s, defs).Some? && Fits(RustTypeOf(s, defs).value, defs, doc)
  {
    ReferenceValid(defs, s, doc);
    assert Valid(0, defs, defs[s.ref.value], doc);
    if s.ref.value == "NullableString" { TextOrNull(doc); }
  }

  lemma TextOrNull(doc: Json)
    requires TypesAdmit(Several(["string", "null"]), doc)
    ensures doc.Str? || doc.Null?
  {
    var names := ["string", "null"];
    assert names[0] == "string" && names[1] == "null";
  }

  lemma {:induction false} WithoutKeeps(names: seq<string>, drop: string, name: string)
    ensures name in Without(names, drop) <==> name in names && name != drop
  {
    if names != [] {
      WithoutKeeps(names[1..], drop, name);
      assert names == [names[0]] + names[1..];
    }
  }

  /** Every valid document is the JSON of a value of the type generated for its schema. */
  lemma {:induction false} ValidDocumentsFit(s: Schema, defs: Defs, doc: Json)
    requires NamedAsMeant(defs) && WrittenAsMeant(s) && ValidFor(defs, s, doc) && RustTypeOf(s, defs).Some?
    ensures Fits(RustTypeOf(s, defs).value, defs, doc)
    decreases s, 1, 0
  {
    assert Valid(0, defs, s, doc);
    if s.u64Decimal {
    } else if s.ref.Some? {
      ReferenceFits(s, defs, doc);
    } else if s.anyOf.AnyOf? {
      if Nullable(s) && !doc.Null? {
        NullOrTheOther(defs, s, doc);
        ValidDocumentsFit(TheOther(s), defs, doc);
      }
    } else if s.constant.None? {
      match s.types
      case Several(_) => ListedTypesFit(s, defs, doc);
      case One(name) => SingleTypeFits(name, s, defs, doc);
      case Untyped =>
    }
  }

  lemma {:induction false} ListedTypesFit(s: Schema, defs: Defs, doc: Json)
    requires NamedAsMeant(defs) && WrittenAsMeant(s) && ValidFor(defs, s, doc) && RustTypeOf(s, defs).Some?
    requires !s.u64Decimal && s.ref.None? && s.anyOf.NoChoice? && s.constant.None? && s.types.Several?
    ensures Fits(RustTypeOf(s, defs).value, defs, doc)
    decreases s, 0, 1
  {
    assert Valid(0, defs, s, doc);
    var names := s.types.names;
    var kept := Without(names, "null");
    if |kept| == 1 && |names| == 2 {
      var name := NullOrKept(names, doc);
      if name != "null" { SingleTypeFits(name, s, defs, doc); }
    }
  }

  lemma NullOrKept(names: seq<string>, doc: Json) returns (name: string)
    requires TypesAdmit(Several(names), doc) && |Without(names, "null")| == 1
    ensures TypeAdmits(name, doc) && (name != "null" ==> Without(names, "null") == [name])
  {
    name :| name in names && TypeAdmits(name, doc);
    WithoutKeeps(names, "null", name);
  }

  lemma {:induction false} SingleTypeFits(name: string, s: Schema, defs: Defs, doc: Json)
    requires NamedAsMeant(defs) && WrittenAsMeant(s) && ValidFor(defs, s, doc)
    requires TypeAdmits(name, doc) && OfType(name, s, defs).Some?
    ensures Fits(OfType(name, s, defs).value, defs, doc)
    decreases s, 0, 0
  {
    if name == "array" && s.items.Some? {
      forall k | 0 <= k < |doc.items| ensures Fits(RustTypeOf(s.items.value, defs).value, defs, doc.items[k]) {
        forall depth: nat ensures Valid(depth, defs, s.items.value, doc.items[k]) {
          assert Valid(depth, defs, s, doc);
        }
        ValidDocumentsFit(s.items.value, defs, doc.items[k]);
      }
    }
  }

  /** Every valid member of an object fits the type of its field, and a member that may be absent has a type that can.
      */
  lemma ValidFieldsFit(s: Schema, required: bool, defs: Defs, doc: Json)
    requires NamedAsMeant(defs) && WrittenAsMeant(s) && FieldType(s, required, defs).Some?
    ensures ValidFor(defs, s, doc) ==> Fits(FieldType(s, required, defs).value, defs, doc)
    ensures !required ==>
              FieldType(s, required, defs).value.Optional? && Fits(FieldType(s, required, defs).value, defs, Null)
  {
    if ValidFor(defs, s, doc) { ValidDocumentsFit(s, defs, doc); }
  }

  // ---- And the types are no wider than they have to be ----

  /** A schema that says its type and nothing else that the generator asks about. */
  predicate Plain(s: Schema) {
    !s.u64Decimal && s.ref.None? && s.anyOf.NoChoice? && s.values.None? && s.constant.None?
  }

  /** The type of a single kind of value holds that kind and no other; that of an array holds arrays of what its items'
      type holds. */
  lemma PlainTypesAreExact(s: Schema, defs: Defs, doc: Json)
    requires Plain(s) && RustTypeOf(s, defs).Some?
    ensures s.types.One? && s.types.name in {"string", "boolean", "integer", "number"} ==>
              (Fits(RustTypeOf(s, defs).value, defs, doc) <==> TypeAdmits(s.types.name, doc))
    ensures s.types == One("array") && s.items.Some? ==>
              (Fits(RustTypeOf(s, defs).value, defs, doc) <==>
                 doc.Arr? && forall k | 0 <= k < |doc.items| ::
                   RustTypeOf(s.items.value, defs).Some?
                     && Fits(RustTypeOf(s.items.value, defs).value, defs, doc.items[k]))
    ensures s.types == One("array") && s.items.None? ==> (Fits(RustTypeOf(s, defs).value, defs, doc) <==> doc.Arr?)
  {
  }

  lemma OptFits(t: RustType, defs: Defs, doc: Json)
    ensures Fits(Opt(t), defs, doc) <==> doc.Null? || Fits(t, defs, doc)
  {
  }

  /** `anyOf: [x, null]` or `anyOf: [null, x]`. */
  predicate OrNull(s: Schema, x: Schema) {
    && s.anyOf.AnyOf? && |s.anyOf.branches| == 2 && x.types != One("null")
    && ((s.anyOf.branches[0] == x && s.anyOf.branches[1].types == One("null"))
        || (s.anyOf.branches[1] == x && s.anyOf.branches[0].types == One("null")))
  }

  lemma OrNullIsNullable(s: Schema, x: Schema)
    requires OrNull(s, x)
    ensures Nullable(s) && TheOther(s) == x
  {
    var branches := s.anyOf.branches;
    assert NonNullOf(branches[1..][1..]) == [];
    assert NonNullOf(branches[1..]) == if IsNull(branches[1]) then [] else [branches[1]];
  }

  lemma NullableIsOrNull(s: Schema)
    requires Nullable(s)
    ensures OrNull(s, TheOther(s))
  {
    var branches := s.anyOf.branches;
    assert NonNullOf(branches[1..][1..]) == [];
    assert NonNullOf(branches[1..]) == if IsNull(branches[1]) then [] else [branches[1]];
  }

  /** A choice is typed as what it wraps or null, in either order, and any other choice as anything at all. */
  lemma ChoiceAddsNull(s: Schema, x: Schema, defs: Defs, doc: Json)
    requires !s.u64Decimal && s.ref.None? && s.anyOf.AnyOf? && RustTypeOf(s, defs).Some?
    ensures OrNull(s, x) ==>
              RustTypeOf(x, defs).Some?
              && (Fits(RustTypeOf(s, defs).value, defs, doc) <==>
                    doc.Null? || Fits(RustTypeOf(x, defs).value, defs, doc))
    ensures (forall other :: !OrNull(s, other)) ==> RustTypeOf(s, defs) == Some(ContextValue)
  {
    if Nullable(s) { NullableIsOrNull(s); }
    if OrNull(s, x) {
      OrNullIsNullable(s, x);
      OptFits(RustTypeOf(x, defs).value, defs, doc);
    }
  }

  /** A list of a type and null, and a field that is not required, add null to what the type holds and nothing else. */
  lemma NullableAddsNull(s: Schema, defs: Defs, doc: Json)
    requires RustTypeOf(s, defs).Some?
    ensures forall name | Plain(s) && (s.types == Several([name, "null"]) || s.types == Several(["null", name]))
                          && name in {"string", "boolean", "integer", "number"} ::
              Fits(RustTypeOf(s, defs).value, defs, doc) <==> doc.Null? || TypeAdmits(name, doc)
    ensures Fits(FieldType(s, false, defs).value, defs, doc) <==>
              doc.Null? || Fits(RustTypeOf(s, defs).value, defs, doc)
    ensures FieldType(s, true, defs) == RustTypeOf(s, defs)
  {
    OptFits(RustTypeOf(s, defs).value, defs, doc);
    forall name | Plain(s) && (s.types == Several([name, "null"]) || s.types == Several(["null", name]))
                  && name in {"string", "boolean", "integer", "number"}
      ensures Fits(RustTypeOf(s, defs).value, defs, doc) <==> doc.Null? || TypeAdmits(name, doc)
    {
      ListedTypeFits(s, defs, name, doc);
    }
  }

  lemma ListedTypeFits(s: Schema, defs: Defs, name: string, doc: Json)
    requires Plain(s) && (s.types == Several([name, "null"]) || s.types == Several(["null", name]))
    requires name in {"string", "boolean", "integer", "number"}
    ensures RustTypeOf(s, defs).Some?
    ensures Fits(RustTypeOf(s, defs).value, defs, doc) <==> doc.Null? || TypeAdmits(name, doc)
  {
    var names := s.types.names;
    var kept := Without(names, "null");
    assert names[1..][1..] == [] && Without(names[1..][1..], "null") == [];
    assert Without(names[1..], "null") == if names[1] == "null" then [] else [names[1]];
    assert kept == [name];
    assert RustTypeOf(s, defs) == OptOf(OfType(name, s, defs));
    OptFits(OfType(name, s, defs).value, defs, doc);
  }

  /** A definition that is a text and says nothing that would need a type of its own. */
  predicate JustAText(s: Schema) {
    s.types == One("string") && s.values.None? && s.constant.None? && s.anyOf.NoChoice? && !s.oneOfOrAllOf
  }

  /** What a reference is typed as: a u64 if the definition is marked, and otherwise a text, an optional text or an
      integer exactly where the definition is that; any other definition by its name. */
  lemma ReferencesAreTypedByDefinition(s: Schema, defs: Defs)
    requires s.ref.Some? && s.ref.value in defs && !s.u64Decimal
    ensures var name, t := s.ref.value, RustTypeOf(s, defs).value;
            && (t == U64 <==> defs[name].u64Decimal)
            && (t.Named? ==> t.name == name && name != "EpochMillis" && name != "NullableString"
                             && !JustAText(defs[name]))
            && (t.Named? || t == U64 || t == Text || t == Int64 || t == Optional(Text))
            && (t == Int64 ==> name == "EpochMillis") && (t == Optional(Text) ==> name == "NullableString")
            && (t == Text ==> defs[name].types == One("string"))
  {
  }
}
