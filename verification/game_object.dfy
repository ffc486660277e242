/** A game object: a name and a store of properties, each kept as its own
    `Property` object under its name. Every operation is proved to change
    the store exactly as the matching `PropertyStore` function says, and
    `ReceiveMessage` exactly as `Dispatcher.Dispatch` says. */
module GameObjects {
  import opened Properties
  import M = Messaging
  import S = PropertyStore
  import D = Dispatcher

  class GameObject {
    var name: string
    var properties: map<string, Property>

    /** Every stored object carries the name it is stored under. Two
        different names therefore never share one object. */
    ghost predicate Valid()
      reads this, properties.Values
    {
      forall k :: k in properties ==> properties[k].name == k
    }

    /** The store as a value: each name with its property's kind and value. */
    ghost function Contents(): S.Store
      reads this, properties.Values
    {
      map k | k in properties :: S.Entry(properties[k].kind, properties[k].value)
    }

    /** A new object with the given name and no properties. */
    constructor (name: string)
      ensures Valid() && this.name == name
      ensures properties == map[] && Contents() == map[]
    {
      this.name := name;
      properties := map[];
    }

    /** A new object seeded with a list of properties, added in list order. */
    constructor WithProperties(name: string, propList: seq<Property>)
      requires S.DistinctNames(DataOf(propList))
      ensures Valid() && this.name == name
      ensures Contents() == S.AddMany(map[], DataOf(propList)).after
      ensures forall k :: k in properties ==> fresh(properties[k])
    {
      this.name := name;
      properties := map[];
      new;
      var _ := AddManyProperty(propList);
    }

    function DoesPropertyExist(propName: string): (b: bool)
      reads this, properties.Values
      ensures b <==> propName in Contents()
    {
      propName in properties
    }

    function GetPropertyCount(): (n: nat)
      reads this, properties.Values
      ensures n == |Contents()|
    {
      assert Contents().Keys == properties.Keys;
      |properties|
    }

    /** The current map of stored objects. */
    function GetAllProperties(): (all: map<string, Property>)
      reads this, properties.Values
      requires Valid()
      ensures all.Keys == Contents().Keys
      ensures forall k :: k in all ==>
        all[k].name == k && S.Entry(all[k].kind, all[k].value) == Contents()[k]
    {
      properties
    }

    /** Stores a copy of `property` unless its name is already taken. The
        stored object is freshly allocated, so it is never the caller's
        object; objects already stored stay where they are. */
    method AddProperty(property: Property) returns (ok: bool)
      requires Valid()
      modifies this`properties
      ensures Valid()
      ensures S.Step(ok, Contents()) == S.Add(old(Contents()), property.Data())
      ensures forall k :: k in old(properties) ==> k in properties && properties[k] == old(properties[k])
      ensures ok ==> property.name in properties && fresh(properties[property.name])
      ensures forall k :: k in properties && k !in old(properties) ==> fresh(properties[k])
    {
      var present := DoesPropertyExist(property.name);
      if present {
        return false;
      }
      var copy := property.CloneProperty();
      properties := properties[property.name := copy];
      ok := true;
      assert Contents() == old(Contents())[property.name := S.EntryOf(property.Data())];
    }

    /** Adds each listed property in list order and reports each one's own
        outcome under its name; nothing is rolled back. */
    method AddManyProperty(propList: seq<Property>) returns (results: map<string, bool>)
      requires Valid()
      requires S.DistinctNames(DataOf(propList))
      modifies this`properties
      ensures Valid()
      ensures S.Batch(results, Contents()) == S.AddMany(old(Contents()), DataOf(propList))
      ensures forall k :: k in old(properties) ==> k in properties && properties[k] == old(properties[k])
      ensures forall k :: k in properties && k !in old(properties) ==> fresh(properties[k])
    {
      ghost var items := DataOf(propList);
      results := map[];
      var i := 0;
      while i < |propList|
        invariant 0 <= i <= |propList|
        invariant Valid()
        invariant DataOf(propList) == items
        invariant S.DistinctNames(items[..i])
        invariant S.Batch(results, Contents()) == S.AddMany(old(Contents()), items[..i])
        invariant forall k :: k in old(properties) ==> k in properties && properties[k] == old(properties[k])
        invariant forall k :: k in properties && k !in old(properties) ==> fresh(properties[k])
      {
        var ok := AddProperty(propList[i]);
        results := results[propList[i].name := ok];
        assert items[..i + 1][..i] == items[..i];
        i := i + 1;
      }
      assert items[..i] == items;
    }

    /** Removes each listed name in list order and reports each one's own
        outcome under its name; nothing is rolled back. */
    method RemoveManyProperty(propList: seq<string>) returns (results: map<string, bool>)
      requires Valid()
      requires S.Distinct(propList)
      modifies this`properties
      ensures Valid()
      ensures S.Batch(results, Contents()) == S.RemoveMany(old(Contents()), propList)
      ensures forall k :: k in properties ==> k in old(properties) && properties[k] == old(properties[k])
    {
      results := map[];
      var i := 0;
      while i < |propList|
        invariant 0 <= i <= |propList|
        invariant Valid()
        invariant S.Distinct(propList[..i])
        invariant S.Batch(results, Contents()) == S.RemoveMany(old(Contents()), propList[..i])
        invariant forall k :: k in properties ==> k in old(properties) && properties[k] == old(properties[k])
      {
        var ok := RemoveProperty(propList[i]);
        results := results[propList[i] := ok];
        assert propList[..i + 1][..i] == propList[..i];
        i := i + 1;
      }
      assert propList[..i] == propList;
    }

    /** Deletes the named property if there is one. */
    method RemoveProperty(propName: string) returns (ok: bool)
      requires Valid()
      modifies this`properties
      ensures Valid()
      ensures S.Step(ok, Contents()) == S.Remove(old(Contents()), propName)
      ensures forall k :: k in properties ==> k in old(properties) && properties[k] == old(properties[k])
    {
      var present := DoesPropertyExist(propName);
      if !present {
        return false;
      }
      properties := properties - {propName};
      ok := true;
      assert Contents() == old(Contents()) - {propName};
    }

    /** The stored object under `propName`, or a new Error-kind sentinel
        carrying the requested name when there is none. Nothing changes. */
    method GetProperty(propName: string) returns (p: Property)
      requires Valid()
      ensures p.Data() == S.Get(Contents(), propName)
      ensures propName in properties ==> p == properties[propName]
      ensures propName !in properties ==> fresh(p)
    {
      var present := DoesPropertyExist(propName);
      if !present {
        p := new Property(Error, propName, S.Missing);
        return;
      }
      p := properties[propName];
    }

    /** Overwrites the kind and value of the stored object under `propName`,
        in place, if there is one; never creates an entry. */
    method SetProperty(propName: string, propValue: string, propType: PropertyType) returns (ok: bool)
      requires Valid()
      modifies properties.Values
      ensures Valid()
      ensures S.Step(ok, Contents()) == S.Set(old(Contents()), propName, propValue, propType)
    {
      var present := DoesPropertyExist(propName);
      if !present {
        return false;
      }
      var target := properties[propName];
      target.value := propValue;
      target.kind := propType;
      ok := true;
      forall k | k in properties && k != propName
        ensures properties[k] != target
      {
        assert old(properties[k].name) != old(target.name);
      }
      assert Contents() == old(Contents())[propName := S.Entry(propType, propValue)];
    }

    /** Answers one message. The existence check and the inbound type switch
        come first; then the action decides which store operation, if any,
        runs. The answer names this object as its source. */
    method ReceiveMessage(newMessage: M.Message) returns (r: M.Response)
      requires Valid()
      modifies this`properties, properties.Values
      ensures Valid()
      ensures D.Reply(r, Contents()) == D.Dispatch(old(Contents()), name, newMessage)
      ensures forall k :: k in properties ==>
        fresh(properties[k]) || (k in old(properties) && properties[k] == old(properties[k]))
    {
      var present := DoesPropertyExist(newMessage.property);
      var messageType := D.Inbound(newMessage.propType);
      match newMessage.action
      case Add =>
        if present {
          r := M.Response(false, newMessage.property, D.AlreadyExists, M.Error, name);
        } else {
          var p := new Property(messageType, newMessage.property, newMessage.value);
          var ok := AddProperty(p);
          r := M.Response(ok, newMessage.property, newMessage.value, newMessage.propType, name);
        }
      case Get =>
        if !present {
          r := M.Response(false, newMessage.property, D.DoesNotExist, M.Error, name);
        } else {
          var p := GetProperty(newMessage.property);
          r := M.Response(true, p.name, p.value, D.ConvertPropertyType(p.kind), name);
        }
      case Set =>
        if !present {
          r := M.Response(false, newMessage.property, D.DoesNotExist, M.Error, name);
        } else {
          var ok := SetProperty(newMessage.property, newMessage.value, messageType);
          r := M.Response(ok, newMessage.property, newMessage.value, newMessage.propType, name);
        }
      case Remove =>
        if !present {
          r := M.Response(false, newMessage.property, D.DoesNotExist, M.Error, name);
        } else {
          var ok := RemoveProperty(newMessage.property);
          r := M.Response(ok, newMessage.property, "none", M.Bool, name);
        }
      case Unknown =>
        r := M.Response(false, "Error", "Error", M.Error, name);
    }

    /** A new object with the same name and the same name-to-(kind, value)
        entries, every one of them held in a freshly allocated property, so
        the clone shares no property object with the original. */
    method CloneGameObject() returns (g: GameObject)
      requires Valid()
      ensures fresh(g) && g.Valid()
      ensures g.name == name && g.Contents() == Contents()
      ensures forall k :: k in g.properties ==> fresh(g.properties[k])
    {
      ghost var source := Contents();
      g := new GameObject(name);
      var pending := properties.Keys;
      while pending != {}
        invariant pending <= properties.Keys && source == Contents()
        invariant fresh(g) && g.Valid() && g.name == name
        invariant forall k :: k in g.properties ==> fresh(g.properties[k])
        invariant g.Contents() == source - pending
        decreases pending
      {
        var k :| k in pending;
        ghost var copied := g.Contents();
        var _ := g.AddProperty(properties[k]);
        assert g.Contents() == copied[k := source[k]];
        pending := pending - {k};
      }
      assert g.Contents() == source;
    }
  }

  /** Changing the caller's property after adding it does not reach the
      store: the store holds its own copy. */
  method ChangeAfterAdd(g: GameObject, p: Property, value: string) returns (ok: bool)
    requires g.Valid() && p.name !in g.Contents()
    modifies g`properties, p
    ensures ok && g.Valid()
    ensures p.value == value
    ensures g.Contents() == old(g.Contents())[old(p.name) := S.Entry(old(p.kind), old(p.value))]
  {
    ok := g.AddProperty(p);
    assert p !in g.properties.Values;
    p.value := value;
  }

  /** Changing a property of a clone leaves the original object's store as
      it was. */
  method SetOnClone(g: GameObject, propName: string, value: string, kind: PropertyType)
    returns (c: GameObject)
    requires g.Valid()
    ensures fresh(c) && c.Valid()
    ensures g.Contents() == old(g.Contents())
    ensures c.Contents() == S.Set(g.Contents(), propName, value, kind).after
  {
    c := g.CloneGameObject();
    var _ := c.SetProperty(propName, value, kind);
  }

  /** A remove followed by a set on a clone leaves the original object's
      store as it was: the clone keeps holding only its own objects. */
  method RemoveThenSetOnClone(g: GameObject, gone: string, propName: string, value: string,
                              kind: PropertyType)
    returns (c: GameObject)
    requires g.Valid()
    ensures fresh(c) && c.Valid()
    ensures g.Contents() == old(g.Contents())
    ensures c.Contents() ==
      S.Set(S.Remove(g.Contents(), gone).after, propName, value, kind).after
  {
    c := g.CloneGameObject();
    var _ := c.RemoveProperty(gone);
    var _ := c.SetProperty(propName, value, kind);
  }

  /** A message to a clone leaves the original object's store as it was. */
  method MessageToClone(g: GameObject, m: M.Message) returns (c: GameObject, r: M.Response)
    requires g.Valid()
    ensures fresh(c) && c.Valid()
    ensures g.Contents() == old(g.Contents())
    ensures D.Reply(r, c.Contents()) == D.Dispatch(g.Contents(), g.name, m)
  {
    c := g.CloneGameObject();
    r := c.ReceiveMessage(m);
  }
}
