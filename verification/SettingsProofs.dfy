/** What a saved document holds, and when saving what was loaded changes nothing. */
module SettingsProofs {
  import opened Wrappers
  import opened Json
  import opened Texts
  import opened Settings

  // ---- Writes and reads ----

  /** No array stands in the way of `keys`. */
  ghost predicate Clear(doc: Document, keys: seq<string>) {
    forall n | 0 < n < |keys| :: var at := Read(doc, keys[..n]); at.Some? ==> !at.value.Arr?
  }

  lemma ClearBelow(doc: Document, keys: seq<string>)
    requires |keys| > 1 && Clear(doc, keys)
    ensures keys[0] in doc ==> !doc[keys[0]].Arr?
    ensures keys[0] in doc && doc[keys[0]].Obj? ==> Clear(doc[keys[0]].members, keys[1..])
    ensures Clear(map[], keys[1..])
  {
    assert keys[..1] == [keys[0]];
    if keys[0] in doc {
      assert ReadFrom(doc[keys[0]], []) == Some(doc[keys[0]]);
      assert [keys[0]][1..] == [];
      assert Read(doc, keys[..1]) == Some(doc[keys[0]]);
      if doc[keys[0]].Obj? {
        forall n | 0 < n < |keys[1..]|
          ensures var at := Read(doc[keys[0]].members, keys[1..][..n]); at.Some? ==> !at.value.Arr?
        {
          assert keys[..n + 1][1..] == keys[1..][..n];
          assert Read(doc, keys[..n + 1]) == ReadFrom(doc[keys[0]], keys[1..][..n]);
        }
      }
    }
  }

  /** A write is seen at its own path and everywhere inside the value. */
  lemma {:induction false} ReadsOwnWrite(doc: Document, keys: seq<string>, value: Json, below: seq<string>)
    requires keys != [] && Clear(doc, keys)
    ensures Read(Write(doc, keys, value), keys + below) == ReadFrom(value, below)
    decreases |keys|
  {
    assert (keys + below)[0] == keys[0] && (keys + below)[1..] == keys[1..] + below;
    if |keys| == 1 {
      assert keys[1..] + below == below;
    } else {
      ClearBelow(doc, keys);
      var child := if keys[0] in doc && doc[keys[0]].Obj? then doc[keys[0]].members else map[];
      ReadsOwnWrite(child, keys[1..], value, below);
    }
  }

  /** A write is not seen anywhere else: not beside its path, and above it only as an object. */
  lemma {:induction false} OtherReadsUnmoved(doc: Document, keys: seq<string>, value: Json, other: seq<string>)
    requires keys != [] && Clear(doc, keys) && !(keys <= other)
    ensures !(other <= keys) ==> Read(Write(doc, keys, value), other) == Read(doc, other)
    ensures other <= keys ==>
              Read(Write(doc, keys, value), other).Some? && Read(Write(doc, keys, value), other).value.Obj?
    decreases |keys|
  {
    if other != [] {
      if other[0] == keys[0] && |keys| > 1 {
        ClearBelow(doc, keys);
        var child := if keys[0] in doc && doc[keys[0]].Obj? then doc[keys[0]].members else map[];
        assert keys == [keys[0]] + keys[1..] && other == [other[0]] + other[1..];
        OtherReadsUnmoved(child, keys[1..], value, other[1..]);
        if !(other <= keys) && !(keys[0] in doc && doc[keys[0]].Obj?) {
          assert other[1..] != [] by { assert [keys[0]] <= keys; }
          assert Read(map[], other[1..]).None?;
          if keys[0] in doc {
            assert ReadFrom(doc[keys[0]], other[1..]).None?;
          }
          assert Read(doc, other).None?;
        }
      }
    }
  }

  /** A write that would have to go through an array leaves the document as it is. */
  lemma {:induction false} WriteBehindAnArrayIsLost(doc: Document, keys: seq<string>, n: nat, value: Json)
    requires 0 < n < |keys| && Read(doc, keys[..n]).Some? && Read(doc, keys[..n]).value.Arr?
    ensures Write(doc, keys, value) == doc
    decreases n
  {
    var key := keys[0];
    assert keys[..n][0] == key && keys[..n][1..] == keys[1..][..n - 1];
    assert Read(doc, keys[..n]) == ReadFrom(doc[key], keys[1..][..n - 1]);
    if n > 1 {
      assert doc[key].Obj?;
      WriteBehindAnArrayIsLost(doc[key].members, keys[1..], n - 1, value);
    }
  }

  // ---- What the document holds ----

  function Contribution(fields: seq<SettingsField>, i: nat, values: Values, c: Coercions): Option<Json>
    requires i < |fields|
  {
    Entry(fields[i].kind, Lookup(values, fields[i].path), c)
  }

  /** `q` is at or inside a field that was written. */
  ghost predicate Covered(fields: seq<SettingsField>, values: Values, c: Coercions, q: seq<string>) {
    exists i | 0 <= i < |fields| :: Contribution(fields, i, values, c).Some? && Keys(fields[i].path) <= q
  }

  /** `q` is above a field that was written. */
  ghost predicate Above(fields: seq<SettingsField>, values: Values, c: Coercions, q: seq<string>) {
    exists i | 0 <= i < |fields| :: Contribution(fields, i, values, c).Some? && q <= Keys(fields[i].path)
  }

  /** Nothing is found outside the written fields but the objects that lead to them. */
  ghost predicate NothingElse(fields: seq<SettingsField>, values: Values, c: Coercions, doc: Document) {
    forall q | q != [] && Read(doc, q).Some? ::
      Covered(fields, values, c, q) || (Above(fields, values, c, q) && Read(doc, q).value.Obj?)
  }

  ghost predicate ReadsBack(fields: seq<SettingsField>, values: Values, c: Coercions, doc: Document) {
    forall i | 0 <= i < |fields| :: Read(doc, Keys(fields[i].path)) == Contribution(fields, i, values, c)
  }

  lemma FreshPath(less: seq<SettingsField>, field: SettingsField, values: Values, c: Coercions, doc: Document)
    requires PrefixFree(less + [field]) && NothingElse(less, values, c, doc)
    ensures Clear(doc, Keys(field.path)) && Read(doc, Keys(field.path)).None?
  {
    var fields, n := less + [field], |less|;
    var keys := Keys(field.path);
    assert fields[n] == field;
    forall i | 0 <= i < n ensures !(Keys(less[i].path) <= keys) && !(keys <= Keys(less[i].path)) {
      assert fields[i] == less[i];
      assert !(Keys(fields[i].path) <= Keys(fields[n].path)) && !(Keys(fields[n].path) <= Keys(fields[i].path));
    }
    forall m | 0 < m < |keys| ensures var at := Read(doc, keys[..m]); at.Some? ==> !at.value.Arr? {
      var q := keys[..m];
      assert q <= keys;
      if Read(doc, q).Some? && Covered(less, values, c, q) {
        var i :| 0 <= i < |less| && Keys(less[i].path) <= q;
        PrefixThrough(Keys(less[i].path), q, keys);
      }
    }
  }

  lemma PrefixThrough(a: seq<string>, b: seq<string>, c: seq<string>)
    requires a <= b && b <= c
    ensures a <= c
  {
  }

  lemma FieldAdded(less: seq<SettingsField>, field: SettingsField, values: Values, c: Coercions, doc: Document,
                   q: seq<string>)
    ensures Covered(less, values, c, q) ==> Covered(less + [field], values, c, q)
    ensures Above(less, values, c, q) ==> Above(less + [field], values, c, q)
    ensures var entry := Entry(field.kind, Lookup(values, field.path), c);
            entry.Some? && Keys(field.path) <= q ==> Covered(less + [field], values, c, q)
    ensures var entry := Entry(field.kind, Lookup(values, field.path), c);
            entry.Some? && q <= Keys(field.path) ==> Above(less + [field], values, c, q)
  {
    var fields := less + [field];
    assert forall i | 0 <= i < |less| ::
             fields[i] == less[i] && Contribution(fields, i, values, c) == Contribution(less, i, values, c);
    assert fields[|less|] == field;
    assert Contribution(fields, |less|, values, c) == Entry(field.kind, Lookup(values, field.path), c);
  }

  lemma WriteKeepsExact(less: seq<SettingsField>, field: SettingsField, values: Values, c: Coercions, doc: Document,
                        value: Json)
    requires PrefixFree(less + [field]) && NothingElse(less, values, c, doc) && ReadsBack(less, values, c, doc)
    requires Entry(field.kind, Lookup(values, field.path), c) == Some(value)
    ensures NothingElse(less + [field], values, c, Write(doc, Keys(field.path), value))
    ensures ReadsBack(less + [field], values, c, Write(doc, Keys(field.path), value))
  {
    var fields, keys := less + [field], Keys(field.path);
    var doc' := Write(doc, keys, value);
    FreshPath(less, field, values, c, doc);
    assert keys + [] == keys;
    ReadsOwnWrite(doc, keys, value, []);
    assert fields[|less|] == field;
    forall i | 0 <= i < |less| ensures Read(doc', Keys(fields[i].path)) == Contribution(fields, i, values, c) {
      assert fields[i] == less[i] && Contribution(less, i, values, c) == Contribution(fields, i, values, c);
      assert !(Keys(fields[i].path) <= Keys(fields[|less|].path))
             && !(Keys(fields[|less|].path) <= Keys(fields[i].path));
      OtherReadsUnmoved(doc, keys, value, Keys(fields[i].path));
    }
    forall q | q != [] && Read(doc', q).Some?
      ensures Covered(fields, values, c, q) || (Above(fields, values, c, q) && Read(doc', q).value.Obj?)
    {
      FieldAdded(less, field, values, c, doc, q);
      if !(keys <= q) { OtherReadsUnmoved(doc, keys, value, q); }
    }
  }

  /** Every field reads back exactly what it contributed, a skipped one as undefined,
      and nothing else is in the document but the objects on the way. */
  lemma {:induction false} DocumentHoldsExactlyItsFields(fields: seq<SettingsField>, values: Values, c: Coercions)
    requires PrefixFree(fields)
    ensures ReadsBack(fields, values, c, DocumentOf(fields, values, c))
    ensures NothingElse(fields, values, c, DocumentOf(fields, values, c))
    decreases |fields|
  {
    if fields == [] {
      forall q | q != [] ensures Read(map[], q).None? {}
    } else {
      var n := |fields| - 1;
      var less, field := fields[..n], fields[n];
      assert fields == less + [field];
      assert PrefixFree(less);
      var doc := DocumentOf(less, values, c);
      DocumentHoldsExactlyItsFields(less, values, c);
      var entry := Entry(field.kind, Lookup(values, field.path), c);
      if entry.Some? {
        WriteKeepsExact(less, field, values, c, doc, entry.value);
      } else {
        FreshPath(less, field, values, c, doc);
        assert forall i | 0 <= i < n :: Contribution(less, i, values, c) == Contribution(fields, i, values, c);
        forall q | q != [] && Read(doc, q).Some?
          ensures Covered(fields, values, c, q) || (Above(fields, values, c, q) && Read(doc, q).value.Obj?)
        {
          FieldAdded(less, field, values, c, doc, q);
        }
      }
    }
  }

  // ---- The form a document gives back ----

  lemma {:induction false} FormShowsEachField(initial: Document, fields: seq<SettingsField>, c: Coercions, i: nat)
    requires i < |fields|
    requires forall j, k | 0 <= j < k < |fields| :: fields[j].path != fields[k].path
    ensures Lookup(FormValues(initial, fields, c), fields[i].path) == Shown(Read(initial, Keys(fields[i].path)), c)
    decreases |fields|
  {
    var n := |fields| - 1;
    var less := fields[..n];
    if i < n {
      FormShowsEachField(initial, less, c, i);
      assert fields[i].path != fields[n].path;
    }
  }

  lemma DistinctPaths(fields: seq<SettingsField>)
    requires PrefixFree(fields)
    ensures forall j, k | 0 <= j < k < |fields| :: fields[j].path != fields[k].path
  {
    forall j, k | 0 <= j < k < |fields| ensures fields[j].path != fields[k].path {
      assert !(Keys(fields[j].path) <= Keys(fields[k].path));
    }
  }

  // ---- Lists ----

  /** An entry that splitting and trimming leave alone. */
  ghost predicate CleanItem(s: string) {
    s != "" && Trim(s) == s && Unbroken(s, LIST_BREAKS)
  }

  ghost predicate Unbroken(s: string, at: set<char>) {
    forall ch <- s :: ch !in at
  }

  lemma {:induction false} SplitParts(s: string, at: set<char>)
    ensures forall p <- SplitOn(s, at) :: Unbroken(p, at)
  {
    if s != "" {
      SplitParts(s[1..], at);
      var rest := SplitOn(s[1..], at);
      assert rest[0] in rest;
      forall p | p in SplitOn(s, at) ensures Unbroken(p, at) {
        if s[0] in at {
          assert p == "" || p in rest;
        } else {
          assert p == [s[0]] + rest[0] || p in rest[1..];
        }
      }
    }
  }

  function Dotted(keys: seq<string>): string {
    if keys == [] then "" else if |keys| == 1 then keys[0] else keys[0] + "." + Dotted(keys[1..])
  }

  lemma DottedHead(head: string, front: string, rest: seq<string>)
    ensures Dotted([head + front] + rest) == head + Dotted([front] + rest)
  {
    assert ([head + front] + rest)[1..] == rest && ([front] + rest)[1..] == rest;
    if rest != [] {
      assert head + front + "." + Dotted(rest) == head + (front + "." + Dotted(rest));
    }
  }

  /** The keys of a path are what stands between its dots. */
  lemma {:induction false} KeysAreBetweenDots(path: string)
    ensures Dotted(Keys(path)) == path && forall key <- Keys(path) :: '.' !in key
  {
    SplitParts(path, {'.'});
    if path != "" {
      KeysAreBetweenDots(path[1..]);
      var rest := Keys(path[1..]);
      assert [path[0]] + path[1..] == path;
      if path[0] == '.' {
        assert ([""] + rest)[1..] == rest;
      } else {
        assert [rest[0]] + rest[1..] == rest;
        DottedHead([path[0]], rest[0], rest[1..]);
      }
    }
  }

  lemma {:induction false} TrimmedAreClean(parts: seq<string>)
    requires forall p <- parts :: Unbroken(p, LIST_BREAKS)
    ensures forall item <- TrimmedItems(parts) :: CleanItem(item)
  {
    if parts != [] {
      TrimmedAreClean(parts[1..]);
      TrimIsIdempotent(parts[0]);
      assert parts[0] in parts;
    }
  }

  lemma ListItemsAreClean(s: string)
    ensures forall item <- ListItems(s) :: CleanItem(item)
  {
    SplitParts(s, LIST_BREAKS);
    TrimmedAreClean(SplitOn(s, LIST_BREAKS));
  }

  lemma {:induction false} SplitUnbroken(s: string, at: set<char>)
    requires Unbroken(s, at)
    ensures SplitOn(s, at) == [s]
  {
    if s != "" {
      SplitUnbroken(s[1..], at);
      assert [s[0]] + s[1..] == s;
    }
  }

  lemma {:induction false} SplitAtBreak(s: string, b: char, rest: string, at: set<char>)
    requires Unbroken(s, at) && b in at
    ensures SplitOn(s + [b] + rest, at) == [s] + SplitOn(rest, at)
  {
    var whole := s + [b] + rest;
    if s == "" {
      assert whole[1..] == rest;
    } else {
      SplitAtBreak(s[1..], b, rest, at);
      assert whole[1..] == s[1..] + [b] + rest;
      assert [s[0]] + s[1..] == s;
    }
  }

  /** A list joined line by line splits into the same list. */
  lemma {:induction false} JoinedListSplitsBack(items: seq<string>, c: Coercions)
    requires Sane(c) && forall item <- items :: CleanItem(item)
    ensures ListItems(JoinLines(Strs(items), c)) == items
  {
    if items == [] {
      assert SplitOn("", LIST_BREAKS) == [""];
      assert TrimmedItems([""]) == [];
    } else {
      var head := items[0];
      assert head in items;
      if |items| == 1 {
        SplitUnbroken(head, LIST_BREAKS);
        assert TrimmedItems([head]) == [head];
        assert items == [head];
      } else {
        JoinedListSplitsBack(items[1..], c);
        var rest := JoinLines(Strs(items[1..]), c);
        assert Strs(items)[1..] == Strs(items[1..]) && Strs(items)[0] == Str(head);
        assert JoinLines(Strs(items), c) == head + "\n" + rest;
        SplitAtBreak(head, '\n', rest, LIST_BREAKS);
        var parts := [head] + SplitOn(rest, LIST_BREAKS);
        assert parts[1..] == SplitOn(rest, LIST_BREAKS);
        assert items == [head] + items[1..];
      }
    }
  }

  /** The texts of a stored list; what is null has none. */
  function StoredTexts(items: seq<Json>): seq<string> {
    if items == [] then []
    else if items[0].Str? then [items[0].s] + StoredTexts(items[1..])
    else StoredTexts(items[1..])
  }

  /** A stored list shown line by line splits into its texts; a null among them is an empty line, and is dropped. */
  lemma {:induction false} StoredListSplitsBack(items: seq<Json>, c: Coercions)
    requires Sane(c) && forall item <- items :: item.Null? || (item.Str? && CleanItem(item.s))
    ensures ListItems(JoinLines(items, c)) == StoredTexts(items)
  {
    if items == [] {
      assert SplitOn("", LIST_BREAKS) == [""];
      assert TrimmedItems([""]) == [];
    } else {
      assert items[0] in items;
      var line := if items[0].Null? then "" else items[0].s;
      assert Trim(line) == line && Unbroken(line, LIST_BREAKS);
      if |items| == 1 {
        SplitUnbroken(line, LIST_BREAKS);
        assert TrimmedItems([line][1..]) == [];
        assert StoredTexts(items[1..]) == [];
      } else {
        assert forall item <- items[1..] :: item in items;
        StoredListSplitsBack(items[1..], c);
        var rest := JoinLines(items[1..], c);
        assert JoinLines(items, c) == line + "\n" + rest;
        SplitAtBreak(line, '\n', rest, LIST_BREAKS);
        assert ([line] + SplitOn(rest, LIST_BREAKS))[1..] == SplitOn(rest, LIST_BREAKS);
      }
    }
  }

  // ---- What was typed is what is saved ----

  /** One entry of a list box, with the blanks around it; the item may be missing. */
  datatype Typed = Typed(before: string, item: string, after: string)

  ghost predicate TypedRight(t: Typed) {
    && Blank(t.before) && Blank(t.after) && Unbroken(t.before, LIST_BREAKS) && Unbroken(t.after, LIST_BREAKS)
    && (t.item == "" || (Trim(t.item) == t.item && Unbroken(t.item, {'\n', ','})))
  }

  /** The text of a list box: the entries, each behind the break typed before it. */
  function TextOf(typed: seq<Typed>, breaks: seq<char>): string
    requires |breaks| == |typed|
  {
    if typed == [] then ""
    else
      var t := typed[0];
      var front := t.before + t.item + t.after;
      if |typed| == 1 then front else front + [breaks[1]] + TextOf(typed[1..], breaks[1..])
  }

  /** The items that are there, in order. */
  function ItemsOf(typed: seq<Typed>): seq<string> {
    if typed == [] then []
    else if typed[0].item == "" then ItemsOf(typed[1..])
    else [typed[0].item] + ItemsOf(typed[1..])
  }

  lemma EntryTrims(t: Typed)
    requires TypedRight(t)
    ensures Trim(t.before + t.item + t.after) == t.item && Unbroken(t.before + t.item + t.after, LIST_BREAKS)
  {
    TrimIgnoresSurroundings(t.before, t.item, t.after);
  }

  /** However newlines, commas and blanks are mixed, a list box holds its items. */
  lemma {:induction false} ListBoxHoldsItsItems(typed: seq<Typed>, breaks: seq<char>)
    requires |breaks| == |typed| && forall b <- breaks :: b == '\n' || b == ','
    requires forall t <- typed :: TypedRight(t)
    ensures ListItems(TextOf(typed, breaks)) == ItemsOf(typed)
    decreases |typed|
  {
    if typed == [] {
      assert SplitOn("", LIST_BREAKS) == [""];
      assert TrimmedItems([""]) == [];
    } else {
      var t := typed[0];
      assert t in typed;
      var front := t.before + t.item + t.after;
      EntryTrims(t);
      if |typed| == 1 {
        SplitUnbroken(front, LIST_BREAKS);
        assert TrimmedItems([front][1..]) == [];
        assert ItemsOf(typed[1..]) == [];
      } else {
        assert forall b <- breaks[1..] :: b in breaks;
        ListBoxHoldsItsItems(typed[1..], breaks[1..]);
        var rest := TextOf(typed[1..], breaks[1..]);
        assert breaks[1] in breaks;
        SplitAtBreak(front, breaks[1], rest, LIST_BREAKS);
        assert ([front] + SplitOn(rest, LIST_BREAKS))[1..] == SplitOn(rest, LIST_BREAKS);
      }
    }
  }

  lemma {:induction false} StrsAre(items: seq<string>)
    ensures |Strs(items)| == |items| && forall k | 0 <= k < |items| :: Strs(items)[k] == Str(items[k])
  {
    if items != [] { StrsAre(items[1..]); }
  }

  /** `read` is what a box of this kind was given: the number, or 0 where there is none; whether it was switched on; the
      text, or none; and of a secret that was not typed nothing at all. */
  ghost predicate SaysAsGiven(kind: Kind, given: Option<Json>, read: Option<Json>, c: Coercions) {
    match kind
    case Number =>
      && (forall n :: given == Some(Num(n)) ==> read == Some(Num(n)))
      && (forall n :: c.number(given) == Some(n) ==> read == Some(Num(n)))
      && (c.number(given).None? ==> read == Some(Num(0.0)))
    case Boolean => read == if given == Some(Bool(true)) then Some(Bool(true)) else Some(Bool(false))
    case Text => read == if given == None || given == Some(Null) then Some(Str("")) else given
    case Secret =>
      read == if given == None || given == Some(Str("")) then None
              else if given == Some(Null) then Some(Str("")) else given
    case List =>
      && read.Some? && read.value.Arr? && (given == None || given == Some(Null) ==> read.value.items == [])
      && forall item <- read.value.items :: item.Str? && CleanItem(item.s)
  }

  /** Every field of a saved document says what its box was given. */
  lemma SavedSaysWhatWasGiven(fields: seq<SettingsField>, values: Values, c: Coercions, i: nat)
    requires PrefixFree(fields) && Sane(c) && i < |fields|
    ensures SaysAsGiven(fields[i].kind, Lookup(values, fields[i].path),
                        Read(DocumentOf(fields, values, c), Keys(fields[i].path)), c)
  {
    DocumentHoldsExactlyItsFields(fields, values, c);
    var given := Lookup(values, fields[i].path);
    assert Read(DocumentOf(fields, values, c), Keys(fields[i].path)) == Contribution(fields, i, values, c);
    if fields[i].kind.List? { ListSays(given, c); }
  }

  lemma ListSays(given: Option<Json>, c: Coercions)
    requires Sane(c)
    ensures SaysAsGiven(List, given, Entry(List, given, c), c)
  {
    var items := ListItems(c.text(OrEmpty(given)));
    ListItemsAreClean(c.text(OrEmpty(given)));
    StrsAre(items);
    forall item | item in Strs(items) ensures item.Str? && CleanItem(item.s) {
      var k :| 0 <= k < |Strs(items)| && Strs(items)[k] == item;
      assert items[k] in items;
    }
    if given == None || given == Some(Null) {
      assert SplitOn("", LIST_BREAKS) == [""];
      assert TrimmedItems([""]) == [];
    }
  }

  /** A list field holds the items typed into its box, in order and nothing else. */
  lemma SavedListHoldsItsItems(fields: seq<SettingsField>, values: Values, c: Coercions, i: nat,
                               typed: seq<Typed>, breaks: seq<char>)
    requires PrefixFree(fields) && Sane(c) && i < |fields| && fields[i].kind.List?
    requires |breaks| == |typed| && forall b <- breaks :: b == '\n' || b == ','
    requires forall t <- typed :: TypedRight(t)
    requires Lookup(values, fields[i].path) == Some(Str(TextOf(typed, breaks)))
    ensures var read, items := Read(DocumentOf(fields, values, c), Keys(fields[i].path)), ItemsOf(typed);
            && read.Some? && read.value.Arr? && |read.value.items| == |items|
            && forall k | 0 <= k < |items| :: read.value.items[k] == Str(items[k])
  {
    DocumentHoldsExactlyItsFields(fields, values, c);
    assert Read(DocumentOf(fields, values, c), Keys(fields[i].path)) == Contribution(fields, i, values, c);
    ListBoxHoldsItsItems(typed, breaks);
    StrsAre(ItemsOf(typed));
  }

  // ---- Save, reload, save ----

  /** What a field contributes the second time, from what it contributed the first. */
  function Again(kind: Kind, entry: Option<Json>, c: Coercions): Option<Json> {
    Entry(kind, Shown(entry, c), c)
  }

  /** The two shapes a text box cannot carry through a reload: an array, and a secret that is null. */
  predicate Carried(kind: Kind, value: Option<Json>) {
    match kind
    case Text => value.None? || !value.value.Arr?
    case Secret => value.None? || (!value.value.Arr? && !value.value.Null?)
    case _ => true
  }

  lemma FieldIsStable(kind: Kind, value: Option<Json>, c: Coercions)
    requires Sane(c)
    ensures Again(kind, Entry(kind, value, c), c) == Entry(kind, value, c) <==> Carried(kind, value)
  {
    if kind.List? {
      var items := ListItems(c.text(OrEmpty(value)));
      ListItemsAreClean(c.text(OrEmpty(value)));
      JoinedListSplitsBack(items, c);
    }
  }

  lemma {:induction false} DocumentFollowsEntries(fields: seq<SettingsField>, v: Values, w: Values, c: Coercions)
    requires forall i | 0 <= i < |fields| :: Contribution(fields, i, v, c) == Contribution(fields, i, w, c)
    ensures DocumentOf(fields, v, c) == DocumentOf(fields, w, c)
    decreases |fields|
  {
    if fields != [] {
      var n := |fields| - 1;
      var less := fields[..n];
      forall i | 0 <= i < n ensures Contribution(less, i, v, c) == Contribution(less, i, w, c) {
        assert Contribution(fields, i, v, c) == Contribution(fields, i, w, c);
      }
      assert Contribution(fields, n, v, c) == Contribution(fields, n, w, c);
      DocumentFollowsEntries(less, v, w, c);
    }
  }

  /** Saving what was loaded from a save changes nothing, for exactly the forms in which no text or secret
      holds an array and no secret is null. */
  lemma SaveReloadSaveIsAFixpoint(fields: seq<SettingsField>, values: Values, c: Coercions)
    requires PrefixFree(fields) && Sane(c)
    ensures var saved := DocumentOf(fields, values, c);
            DocumentOf(fields, FormValues(saved, fields, c), c) == saved
            <==> forall f <- fields :: Carried(f.kind, Lookup(values, f.path))
  {
    var saved := DocumentOf(fields, values, c);
    var again := FormValues(saved, fields, c);
    DocumentHoldsExactlyItsFields(fields, values, c);
    DocumentHoldsExactlyItsFields(fields, again, c);
    DistinctPaths(fields);
    forall i | 0 <= i < |fields|
      ensures Contribution(fields, i, again, c) == Contribution(fields, i, values, c)
              <==> Carried(fields[i].kind, Lookup(values, fields[i].path))
    {
      FormShowsEachField(saved, fields, c, i);
      assert Read(saved, Keys(fields[i].path)) == Contribution(fields, i, values, c);
      FieldIsStable(fields[i].kind, Lookup(values, fields[i].path), c);
    }
    if forall f <- fields :: Carried(f.kind, Lookup(values, f.path)) {
      DocumentFollowsEntries(fields, again, values, c);
    }
    if DocumentOf(fields, again, c) == saved {
      forall i | 0 <= i < |fields| ensures Carried(fields[i].kind, Lookup(values, fields[i].path)) {
        assert Read(saved, Keys(fields[i].path)) == Contribution(fields, i, again, c);
      }
    }
  }

  // ---- Secrets ----

  const REDACTED_SECRET: string := "••••••••"

  /** What the gateway hands out for a secret: the marker, an empty string, or nothing. */
  predicate Redacted(stored: Option<Json>) {
    stored.None? || stored == Some(Str("")) || stored == Some(Str(REDACTED_SECRET))
  }

  /** An untouched save puts no secret in the document but the marker. */
  lemma UntouchedSaveLeaksNothing(initial: Document, fields: seq<SettingsField>, c: Coercions, i: nat)
    requires PrefixFree(fields) && i < |fields| && fields[i].kind.Secret?
    requires Redacted(Read(initial, Keys(fields[i].path)))
    ensures var saved := DocumentOf(fields, FormValues(initial, fields, c), c);
            Read(saved, Keys(fields[i].path)) ==
            if Read(initial, Keys(fields[i].path)) == Some(Str(REDACTED_SECRET)) then Some(Str(REDACTED_SECRET))
            else None
  {
    DocumentHoldsExactlyItsFields(fields, FormValues(initial, fields, c), c);
    DistinctPaths(fields);
    FormShowsEachField(initial, fields, c, i);
  }
}
