/** The Rust binding of `codegen/generate.py`: field types, and which fields get the u64 serializer. */
module ContractTypes {
  import opened Wrappers
  import opened Contract

  datatype RustType =
    | U64 | Text | Int64 | Float64 | Boolean | ContextValue
    | Named(name: string) | Optional(inner: RustType) | Vec(element: RustType)

  predicate IsStringScalar(s: Schema) {
    s.types == One("string") && s.values.None? && s.constant.None? && s.anyOf.NoChoice? && !s.oneOfOrAllOf
  }

  function NonNullOf(branches: seq<Schema>): seq<Schema> {
    if branches == [] then [] else (if IsNull(branches[0]) then [] else [branches[0]]) + NonNullOf(branches[1..])
  }

  lemma {:induction false} NonNullIsBranch(branches: seq<Schema>, s: Schema)
    ensures s in NonNullOf(branches) ==> s in branches
  {
    if branches != [] {
      NonNullIsBranch(branches[1..], s);
      assert branches == [branches[0]] + branches[1..];
    }
  }

  /** `anyOf: [X, null]` in either order: the spelling of a nullable field. */
  predicate Nullable(s: Schema) {
    s.anyOf.AnyOf? && |s.anyOf.branches| == 2 && |NonNullOf(s.anyOf.branches)| == 1
  }

  function TheOther(s: Schema): (item: Schema)
    requires Nullable(s)
    ensures item < s
  {
    var item := NonNullOf(s.anyOf.branches)[0];
    NonNullIsBranch(s.anyOf.branches, item);
    item
  }

  function Without(names: seq<string>, drop: string): seq<string> {
    if names == [] then [] else (if names[0] == drop then [] else [names[0]]) + Without(names[1..], drop)
  }

  /** What the generator writes for a type that may be absent: never an option of an option. */
  function Opt(t: RustType): RustType {
    if t.Optional? then t else Optional(t)
  }

  function OptOf(t: Option<RustType>): Option<RustType> {
    if t.None? then None else Some(Opt(t.value))
  }

  /** `rust_type`; None is the KeyError of a missing definition. */
  function RustTypeOf(s: Schema, defs: Defs): Option<RustType>
    decreases s, 1
  {
    if s.u64Decimal then Some(U64)
    else if s.ref.Some? then
      var name := s.ref.value;
      if name !in defs then None
      else if defs[name].u64Decimal then Some(U64)
      else if name == "NullableString" then Some(Optional(Text))
      else if IsStringScalar(defs[name]) then Some(Text)
      else if name == "EpochMillis" then Some(Int64)
      else Some(Named(name))
    else if s.anyOf.AnyOf? then
      if Nullable(s) then OptOf(RustTypeOf(TheOther(s), defs)) else Some(ContextValue)
    else if s.values.Some? && s.values.value != [] && s.types == One("string") then Some(Text)
    else if s.constant.Some? then Some(Text)
    else match s.types
      case Several(names) =>
        var kept := Without(names, "null");
        if |kept| == 1 && |names| == 2 then OptOf(OfType(kept[0], s, defs)) else Some(ContextValue)
      case One(name) => OfType(name, s, defs)
      case Untyped => Some(ContextValue)
  }

  /** The answer for a single type name; the call with `type` replaced comes back here directly,
      because none of the earlier questions looks at `type` alone. */
  function OfType(name: string, s: Schema, defs: Defs): Option<RustType>
    decreases s, 0
  {
    match name
    case "string" => Some(Text)
    case "boolean" => Some(Boolean)
    case "integer" => Some(Int64)
    case "number" => Some(Float64)
    case "object" => Some(ContextValue)
    case "array" =>
      if s.items.None? then Some(Vec(ContextValue))
      else
        var element := RustTypeOf(s.items.value, defs);
        if element.None? then None else Some(Vec(element.value))
    case _ => Some(ContextValue)
  }

  predicate NoNestedOption(t: RustType) {
    match t
    case Optional(inner) => !inner.Optional? && NoNestedOption(inner)
    case Vec(element) => NoNestedOption(element)
    case _ => true
  }

  lemma OptKeeps(t: RustType)
    requires NoNestedOption(t)
    ensures NoNestedOption(Opt(t)) && Opt(Opt(t)) == Opt(t)
  {
  }

  /** The type of a struct field: optional unless required. */
  function FieldType(s: Schema, required: bool, defs: Defs): Option<RustType> {
    var t := RustTypeOf(s, defs);
    if required then t else OptOf(t)
  }

  lemma {:induction false} NeverNestsOptions(s: Schema, defs: Defs)
    requires RustTypeOf(s, defs).Some?
    ensures NoNestedOption(RustTypeOf(s, defs).value)
    ensures forall required :: FieldType(s, required, defs).Some? && NoNestedOption(FieldType(s, required, defs).value)
    decreases s, 1
  {
    if !s.u64Decimal && s.ref.None? {
      if s.anyOf.AnyOf? {
        if Nullable(s) { NeverNestsOptions(TheOther(s), defs); }
      } else if s.constant.None? {
        match s.types {
          case Several(names) =>
            var kept := Without(names, "null");
            if |kept| == 1 && |names| == 2 && OfType(kept[0], s, defs).Some? { OfTypeNeverNests(kept[0], s, defs); }
          case One(name) =>
            if OfType(name, s, defs).Some? { OfTypeNeverNests(name, s, defs); }
          case Untyped =>
        }
      }
    }
    OptKeeps(RustTypeOf(s, defs).value);
  }

  lemma {:induction false} OfTypeNeverNests(name: string, s: Schema, defs: Defs)
    requires OfType(name, s, defs).Some?
    ensures NoNestedOption(OfType(name, s, defs).value) && !OfType(name, s, defs).value.Optional?
    decreases s, 0
  {
    if name == "array" && s.items.Some? { NeverNestsOptions(s.items.value, defs); }
  }

  // ---- The wire type ----

  /** `resolve`: one step. */
  function Resolve(s: Schema, defs: Defs): Schema
    requires s.ref.Some? ==> s.ref.value in defs
  {
    if s.ref.Some? then defs[s.ref.value] else s
  }

  /** The definition a chain of nullable wrappers ends in, if it ends in one. */
  function Lead(s: Schema): Option<string>
    decreases s
  {
    if s.ref.Some? then s.ref else if Nullable(s) then Lead(TheOther(s)) else None
  }

  /** Every reference on the way exists, and nullable definitions do not chase each other in a circle. */
  predicate Wired(defs: Defs, rank: map<string, nat>) {
    rank.Keys == defs.Keys &&
    forall name <- defs :: Nullable(defs[name]) ==>
      var next := Lead(TheOther(defs[name]));
      next.Some? ==> next.value in defs && rank[next.value] < rank[name]
  }

  predicate Leads(s: Schema, defs: Defs) {
    Lead(s).Some? ==> Lead(s).value in defs
  }

  function Rank(s: Schema, defs: Defs, rank: map<string, nat>): nat
    requires Wired(defs, rank) && Leads(s, defs)
  {
    if Lead(s).Some? then rank[Lead(s).value] + 1 else 0
  }

  /** `resolve_wire`: through references and nullable wrappers to the schema that carries the wire type. */
  function ResolveWire(s: Schema, defs: Defs, ghost rank: map<string, nat>): Schema
    requires Wired(defs, rank) && Leads(s, defs)
    decreases Rank(s, defs, rank), s
  {
    var resolved := Resolve(s, defs);
    if Nullable(resolved) then ResolveWire(TheOther(resolved), defs, rank) else resolved
  }

  predicate CarriesU64(t: RustType) {
    t == U64 || t == Optional(U64)
  }

  /** The marker on a nullable definition, and the marker its wrapper leads to, say the same. */
  predicate DefinitionAgrees(name: string, defs: Defs, ghost rank: map<string, nat>)
    requires Wired(defs, rank) && name in defs
  {
    Nullable(defs[name]) ==> (defs[name].u64Decimal <==> ResolveWire(TheOther(defs[name]), defs, rank).u64Decimal)
  }

  /** Wherever the type looks for the marker, and wherever the serializer does, they find the same. For a field that is
      a reference this is `DefinitionAgrees`; inside a nullable wrapper a marked item has to lead to a marker as
      well. */
  predicate MarksAgree(s: Schema, defs: Defs, ghost rank: map<string, nat>)
    requires Wired(defs, rank) && Leads(s, defs)
    decreases s
  {
    s.u64Decimal ||
    if s.ref.Some? then DefinitionAgrees(s.ref.value, defs, rank)
    else Nullable(s) ==>
      var item := TheOther(s);
      if item.u64Decimal then ResolveWire(item, defs, rank).u64Decimal else MarksAgree(item, defs, rank)
  }

  ghost predicate TypeIsMarked(s: Schema, defs: Defs, rank: map<string, nat>)
    requires Wired(defs, rank) && Leads(s, defs) && RustTypeOf(s, defs).Some?
  {
    CarriesU64(RustTypeOf(s, defs).value) <==> s.u64Decimal || ResolveWire(s, defs, rank).u64Decimal
  }

  /** A type is a u64 just when its wire marker says so, if and only if the marks agree. */
  lemma {:induction false} WireMatchesType(s: Schema, defs: Defs, rank: map<string, nat>)
    requires Wired(defs, rank) && Leads(s, defs) && RustTypeOf(s, defs).Some?
    ensures TypeIsMarked(s, defs, rank) <==> MarksAgree(s, defs, rank)
    decreases s
  {
    if !s.u64Decimal {
      if s.ref.Some? {
        ReferenceMatches(s, defs, rank);
      } else if Nullable(s) {
        var item := TheOther(s);
        assert ResolveWire(s, defs, rank) == ResolveWire(item, defs, rank);
        if !item.u64Decimal { WireMatchesType(item, defs, rank); }
      } else if s.anyOf.NoChoice? {
        PlainIsNotU64(s, defs);
      }
    }
  }

  lemma ReferenceMatches(s: Schema, defs: Defs, rank: map<string, nat>)
    requires Wired(defs, rank) && s.ref.Some? && s.ref.value in defs && !s.u64Decimal
    ensures CarriesU64(RustTypeOf(s, defs).value) <==> defs[s.ref.value].u64Decimal
    ensures ResolveWire(s, defs, rank) ==
            if Nullable(defs[s.ref.value]) then ResolveWire(TheOther(defs[s.ref.value]), defs, rank)
            else defs[s.ref.value]
  {
  }

  lemma PlainIsNotU64(s: Schema, defs: Defs)
    requires !s.u64Decimal && s.ref.None? && s.anyOf.NoChoice? && RustTypeOf(s, defs).Some?
    ensures !CarriesU64(RustTypeOf(s, defs).value)
  {
    if s.types.One? { NotU64(s.types.name, s, defs); }
    if s.types.Several? {
      var kept := Without(s.types.names, "null");
      if |kept| == 1 { NotU64(kept[0], s, defs); }
    }
  }

  lemma NotU64(name: string, s: Schema, defs: Defs)
    ensures OfType(name, s, defs).Some? ==> !OfType(name, s, defs).value.U64? && !OfType(name, s, defs).value.Optional?
  {
  }

  datatype Serializer = Plain | U64Decimal | OptU64Decimal

  /** The `with = …` attribute the struct loop of `emit_rust` gives a field. */
  function SerializerOf(s: Schema, required: bool, defs: Defs, ghost rank: map<string, nat>): Serializer
    requires Wired(defs, rank) && Leads(s, defs) && FieldType(s, required, defs).Some?
  {
    if s.u64Decimal || ResolveWire(s, defs, rank).u64Decimal then
      if FieldType(s, required, defs).value.Optional? then OptU64Decimal else U64Decimal
    else Plain
  }

  /** The serializer of a field is the one its type needs. */
  ghost predicate SerializedByType(s: Schema, required: bool, defs: Defs, rank: map<string, nat>)
    requires Wired(defs, rank) && Leads(s, defs) && FieldType(s, required, defs).Some?
  {
    && (SerializerOf(s, required, defs, rank) == U64Decimal <==> FieldType(s, required, defs) == Some(U64))
    && (SerializerOf(s, required, defs, rank) == OptU64Decimal <==> FieldType(s, required, defs) == Some(Optional(U64)))
  }

  /** A field is written as a decimal string exactly when its Rust type is a u64, optional or not, if and only if the
      marks on the way agree. */
  lemma SerializerFollowsType(s: Schema, required: bool, defs: Defs, rank: map<string, nat>)
    requires Wired(defs, rank) && Leads(s, defs) && FieldType(s, required, defs).Some?
    ensures SerializedByType(s, required, defs, rank) <==> MarksAgree(s, defs, rank)
  {
    WireMatchesType(s, defs, rank);
    NeverNestsOptions(s, defs);
  }

  /** For a field that is a reference the definition alone decides. */
  lemma ReferencedSerializerFollowsType(s: Schema, required: bool, defs: Defs, rank: map<string, nat>)
    requires Wired(defs, rank) && s.ref.Some? && s.ref.value in defs && !s.u64Decimal
    requires FieldType(s, required, defs).Some?
    ensures SerializedByType(s, required, defs, rank) <==> DefinitionAgrees(s.ref.value, defs, rank)
  {
    SerializerFollowsType(s, required, defs, rank);
  }

  /** A definition that only wraps a u64 breaks it: the field is no u64, and still gets a serializer for numbers. And
      one that is marked around something that is not: the field is a u64, and is written as a bare number. */
  lemma NullableU64DefinitionIsMistyped(s: Schema, required: bool, defs: Defs, rank: map<string, nat>)
    requires Wired(defs, rank) && s.ref.Some? && s.ref.value in defs && !s.u64Decimal
    requires FieldType(s, required, defs).Some? && !DefinitionAgrees(s.ref.value, defs, rank)
    ensures CarriesU64(FieldType(s, required, defs).value) <==> defs[s.ref.value].u64Decimal
    ensures SerializerOf(s, required, defs, rank) == Plain <==> defs[s.ref.value].u64Decimal
  {
    ReferenceMatches(s, defs, rank);
  }
}
