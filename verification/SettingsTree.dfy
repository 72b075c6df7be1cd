/** The document as the console builds it: nested objects, written in place. */
module SettingsTree {
  import opened Wrappers
  import opened Json
  import opened Settings

  datatype Slot = Leaf(value: Json) | Sub(node: Node)

  /** One JavaScript object of the document under construction. */
  class Node {
    var slots: map<string, Slot>
    ghost var Repr: set<Node>

    ghost predicate Valid()
      reads this, Repr
      decreases Repr
    {
      && this in Repr
      && (forall k <- slots | slots[k].Sub? ::
            slots[k].node in Repr && slots[k].node.Repr <= Repr - {this} && slots[k].node.Valid())
      && (forall k, k' | k in slots && k' in slots && k != k' && slots[k].Sub? && slots[k'].Sub? ::
            slots[k].node.Repr !! slots[k'].node.Repr)
    }

    ghost function Value(): Document
      requires Valid()
      reads this, Repr
      decreases Repr
    {
      map k | k in slots :: if slots[k].Leaf? then slots[k].value else Obj(slots[k].node.Value())
    }

    constructor (members: Document)
      ensures Valid() && fresh(Repr) && Repr == {this} && Value() == members
    {
      slots := map k | k in members :: Leaf(members[k]);
      Repr := {this};
    }

    /** `cursor[key] = value` at the end of the path. */
    method Put(key: string, value: Json)
      requires Valid()
      modifies this`slots
      ensures Valid() && Value() == old(Value())[key := value]
    {
      ghost var was := Value();
      slots := slots[key := Leaf(value)];
      OneEntryChanged(Value(), was, key, value);
    }

    /** `cursor[key] = {}`, where no object is. */
    method PutObject(key: string, members: Document) returns (child: Node)
      requires Valid()
      modifies this
      ensures Valid() && fresh(Repr - old(Repr))
      ensures key in slots && slots[key] == Sub(child) && child.Value() == members
      ensures Value() == old(Value())[key := Obj(members)]
    {
      ghost var before, was := slots, Value();
      child := new Node(members);
      slots := slots[key := Sub(child)];
      Repr := Repr + child.Repr;
      assert forall k <- before | before[k].Sub? :: before[k].node.Valid() && before[k].node.Repr !! child.Repr;
      OneEntryChanged(Value(), was, key, Obj(members));
    }

    /** Everything of this node but the object at `key` is in order, and holds what `was` says. */
    ghost predicate InOrderBut(key: string, child: Node, was: Document)
      reads this, Repr, child, child.Repr
    {
      && this in Repr && this !in child.Repr && key in slots && slots[key] == Sub(child)
      && slots.Keys == was.Keys
      && (forall k <- slots | k != key && slots[k].Leaf? :: slots[k].value == was[k])
      && (forall k <- slots | k != key && slots[k].Sub? ::
            slots[k].node in Repr && slots[k].node.Repr <= Repr - {this} && slots[k].node.Repr !! child.Repr
            && slots[k].node.Valid() && Obj(slots[k].node.Value()) == was[k])
      && (forall k, k' | k in slots && k' in slots && k != k' && k != key && k' != key && slots[k].Sub?
          && slots[k'].Sub? ::
            slots[k].node.Repr !! slots[k'].node.Repr)
    }

    lemma SetApart(key: string, child: Node)
      requires Valid() && key in slots && slots[key] == Sub(child)
      ensures InOrderBut(key, child, Value())
    {
    }

    ghost method Adopt(key: string, child: Node, was: Document)
      requires InOrderBut(key, child, was) && child.Valid()
      modifies this`Repr
      ensures Repr == old(Repr) + child.Repr
      ensures Valid() && Value() == was[key := Obj(child.Value())]
    {
      Repr := Repr + child.Repr;
      OneEntryChanged(Value(), was, key, Obj(child.Value()));
    }

    /** The rest of the path is written inside the object at `key`; its siblings stay as they are. */
    method WriteBelow(key: string, child: Node, keys: seq<string>, value: Json)
      requires Valid() && key in slots && slots[key] == Sub(child) && keys != []
      modifies child.Repr
      ensures InOrderBut(key, child, old(Value())) && child.Valid() && fresh(child.Repr - old(child.Repr))
      ensures child.Value() == Settings.Write(old(child.Value()), keys, value)
      decreases |keys|, 2
    {
      SetApart(key, child);
      child.Write(keys, value);
    }

    method WriteInside(key: string, child: Node, keys: seq<string>, value: Json)
      requires Valid() && key in slots && slots[key] == Sub(child) && keys != []
      modifies Repr
      ensures Valid() && fresh(Repr - old(Repr))
      ensures Value() == old(Value())[key := Obj(Settings.Write(old(child.Value()), keys, value))]
      decreases |keys|, 3
    {
      ghost var was := Value();
      WriteBelow(key, child, keys, value);
      Adopt(key, child, was);
    }

    static lemma OneEntryChanged(now: Document, was: Document, key: string, value: Json)
      requires now.Keys == was.Keys + {key} && now[key] == value
      requires forall k <- now | k != key :: now[k] == was[k]
      ensures now == was[key := value]
    {
    }

    method WriteInNew(key: string, members: Document, keys: seq<string>, value: Json)
      requires Valid() && keys != []
      modifies Repr
      ensures Valid() && fresh(Repr - old(Repr))
      ensures Value() == old(Value())[key := Obj(Settings.Write(members, keys, value))]
      decreases |keys|, 4
    {
      ghost var was := Value();
      var child := PutObject(key, members);
      WriteInside(key, child, keys, value);
      assert was[key := Obj(members)][key := Obj(Settings.Write(members, keys, value))]
          == was[key := Obj(Settings.Write(members, keys, value))];
    }

    /** `writeSettingValue`, with the node as its cursor. */
    method Write(keys: seq<string>, value: Json)
      requires Valid() && keys != []
      modifies Repr
      ensures Valid() && fresh(Repr - old(Repr))
      ensures Value() == Settings.Write(old(Value()), keys, value)
      decreases |keys|, 1
    {
      var key := keys[0];
      ghost var was := Value();
      if |keys| == 1 {
        Put(key, value);
      } else if key in slots && slots[key].Sub? {
        assert was[key] == Obj(slots[key].node.Value());
        WriteInside(key, slots[key].node, keys[1..], value);
      } else if key in slots && slots[key].value.Arr? {
        assert was[key].Arr?;
      } else {
        assert key in slots ==> was[key] == slots[key].value;
        var members := if key in slots && slots[key].value.Obj? then slots[key].value.members else map[];
        WriteInNew(key, members, keys[1..], value);
      }
    }
  }

  /** `settingsDocument`. */
  method SettingsDocument(fields: seq<SettingsField>, values: Values, c: Coercions) returns (document: Node)
    ensures document.Valid() && fresh(document.Repr)
    ensures document.Value() == DocumentOf(fields, values, c)
  {
    document := new Node(map[]);
    for n := 0 to |fields|
      invariant document.Valid() && fresh(document.Repr)
      invariant document.Value() == DocumentOf(fields[..n], values, c)
    {
      var field := fields[n];
      assert fields[..n + 1][..n] == fields[..n];
      var value := Lookup(values, field.path);
      if field.kind.Secret? && (value.None? || value == Some(Str(""))) { continue; }
      document.Write(Keys(field.path), Coerce(field.kind, value, c));
    }
    assert fields[..|fields|] == fields;
  }

  /** `readSettingValue`: the cursor is undefined as soon as it leaves the objects. */
  method ReadSettingValue(source: Document, path: string) returns (cursor: Option<Json>)
    ensures cursor == Read(source, Keys(path))
  {
    cursor := Some(Obj(source));
    var keys := Keys(path);
    for n := 0 to |keys|
      invariant cursor.Some? && ReadFrom(cursor.value, keys[n..]) == Read(source, keys)
    {
      assert keys[n..][1..] == keys[n + 1..];
      if !cursor.value.Obj? || keys[n] !in cursor.value.members { return None; }
      cursor := Some(cursor.value.members[keys[n]]);
    }
  }
}
