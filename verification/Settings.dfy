/**
 The settings document codec of `lib/tokens.ts`: form values written to dotted
 paths of a nested document and read back.

 JavaScript's `Number(...)` and `String(...)` are parameters, held only to what
 they do on numbers and on strings.
 */
module Settings {
  import opened Wrappers
  import opened Json
  import opened Texts

  datatype Kind = Text | Secret | Number | Boolean | List

  datatype SettingsField = SettingsField(path: string, kind: Kind)

  type Document = map<string, Json>

  /** A form's values; a path that is not there is `undefined`. */
  type Values = map<string, Json>

  /** `number` is None where JavaScript's answer is not finite; None as its argument is `undefined`. */
  datatype Coercions = Coercions(number: Option<Json> -> Option<real>, text: Json -> string)

  ghost predicate Sane(c: Coercions) {
    (forall n :: c.number(Some(Num(n))) == Some(n)) && (forall s :: c.text(Str(s)) == s)
  }

  // ---- Splitting, trimming, joining ----

  function SplitOn(s: string, at: set<char>): (parts: seq<string>)
    ensures parts != []
  {
    if s == "" then [""]
    else
      var rest := SplitOn(s[1..], at);
      if s[0] in at then [""] + rest else [[s[0]] + rest[0]] + rest[1..]
  }

  function Keys(path: string): (keys: seq<string>)
    ensures keys != []
  {
    SplitOn(path, {'.'})
  }

  function TrimmedItems(parts: seq<string>): seq<string> {
    if parts == [] then []
    else (if Trim(parts[0]) == "" then [] else [Trim(parts[0])]) + TrimmedItems(parts[1..])
  }

  const LIST_BREAKS: set<char> := {'\n', ','}

  /** One entry per line or per comma, trimmed, empty ones dropped. */
  function ListItems(s: string): seq<string> {
    TrimmedItems(SplitOn(s, LIST_BREAKS))
  }

  function Strs(items: seq<string>): seq<Json> {
    if items == [] then [] else [Str(items[0])] + Strs(items[1..])
  }

  function ElementText(j: Json, c: Coercions): string {
    if j.Null? then "" else c.text(j)
  }

  /** `stored.join("\n")`. */
  function JoinLines(items: seq<Json>, c: Coercions): string {
    if items == [] then ""
    else if |items| == 1 then ElementText(items[0], c)
    else ElementText(items[0], c) + "\n" + JoinLines(items[1..], c)
  }

  // ---- Coercion ----

  /** `value ?? ""`. */
  function OrEmpty(value: Option<Json>): Json {
    if value.None? || value.value.Null? then Str("") else value.value
  }

  function Coerce(kind: Kind, value: Option<Json>, c: Coercions): Json {
    match kind
    case Number => Num(c.number(value).GetOr(0.0))
    case Boolean => Bool(value == Some(Bool(true)))
    case List => Arr(Strs(ListItems(c.text(OrEmpty(value)))))
    case Text => OrEmpty(value)
    case Secret => OrEmpty(value)
  }

  /** An empty or missing secret is left out of the request. */
  predicate Skipped(kind: Kind, value: Option<Json>) {
    kind.Secret? && (value.None? || value == Some(Str("")))
  }

  /** What one field contributes: nothing, or one coerced value. */
  function Entry(kind: Kind, value: Option<Json>, c: Coercions): Option<Json> {
    if Skipped(kind, value) then None else Some(Coerce(kind, value, c))
  }

  function Lookup(values: Values, path: string): Option<Json> {
    if path in values then Some(values[path]) else None
  }

  // ---- The document ----

  /** `writeSettingValue`: objects are created on the way where there is no object yet. A property set on an
      array does not show in JSON. */
  function Write(doc: Document, keys: seq<string>, value: Json): Document
    requires keys != []
    decreases |keys|
  {
    var key := keys[0];
    if |keys| == 1 then doc[key := value]
    else if key in doc && doc[key].Arr? then doc
    else
      var child := if key in doc && doc[key].Obj? then doc[key].members else map[];
      doc[key := Obj(Write(child, keys[1..], value))]
  }

  function ReadFrom(source: Json, keys: seq<string>): Option<Json>
    decreases |keys|
  {
    if keys == [] then Some(source)
    else if source.Obj? && keys[0] in source.members then ReadFrom(source.members[keys[0]], keys[1..])
    else None
  }

  /** `readSettingValue`. */
  function Read(doc: Document, keys: seq<string>): Option<Json> {
    ReadFrom(Obj(doc), keys)
  }

  function DocumentOf(fields: seq<SettingsField>, values: Values, c: Coercions): Document {
    if fields == [] then map[]
    else
      var doc := DocumentOf(fields[..|fields| - 1], values, c);
      var field := fields[|fields| - 1];
      var entry := Entry(field.kind, Lookup(values, field.path), c);
      if entry.None? then doc else Write(doc, Keys(field.path), entry.value)
  }

  /** What the form shows for a stored value: a list becomes one line per entry. */
  function Shown(stored: Option<Json>, c: Coercions): Option<Json> {
    if stored.Some? && stored.value.Arr? then Some(Str(JoinLines(stored.value.items, c))) else stored
  }

  function FormValues(initial: Document, fields: seq<SettingsField>, c: Coercions): Values {
    if fields == [] then map[]
    else
      var values := FormValues(initial, fields[..|fields| - 1], c);
      var field := fields[|fields| - 1];
      var shown := Shown(Read(initial, Keys(field.path)), c);
      if shown.None? then values - {field.path} else values[field.path := shown.value]
  }

  /** No field lives inside another, and none is listed twice. */
  ghost predicate PrefixFree(fields: seq<SettingsField>) {
    forall i, j | 0 <= i < |fields| && 0 <= j < |fields| && i != j :: !(Keys(fields[i].path) <= Keys(fields[j].path))
  }
}
