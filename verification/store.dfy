/** The property store of one game object, as a value: a map from property
    name to the property's kind and value. Each operation returns its
    boolean outcome together with the store it leaves behind; the
    `GameObject` class is proved to change its state exactly as these
    functions say. */
module PropertyStore {
  import opened Properties

  /** What the store keeps for one name. */
  datatype Entry = Entry(kind: PropertyType, value: string)

  type Store = map<string, Entry>

  /** The outcome of one store operation and the store afterwards. */
  datatype Step = Step(ok: bool, after: Store)

  /** The outcome of a batch operation: one result per listed name, and
      the store afterwards. */
  datatype Batch = Batch(results: map<string, bool>, after: Store)

  const Missing: string := "Property does not exist"

  function EntryOf(p: PropertyData): (e: Entry)
  {
    Entry(p.kind, p.value)
  }

  /** Adding succeeds exactly when the name is absent; then the store gains
      that one entry and nothing else changes. */
  function Add(s: Store, p: PropertyData): (r: Step)
    ensures r.ok <==> p.name !in s
    ensures r.ok ==> p.name in r.after && r.after[p.name] == EntryOf(p)
    ensures r.ok ==> r.after.Keys == s.Keys + {p.name}
    ensures r.ok ==> forall n :: n in s ==> r.after[n] == s[n]
    ensures !r.ok ==> r.after == s
  {
    if p.name in s then Step(false, s) else Step(true, s[p.name := EntryOf(p)])
  }

  /** Removing succeeds exactly when the name is present; then only that
      entry disappears. */
  function Remove(s: Store, name: string): (r: Step)
    ensures r.ok <==> name in s
    ensures r.ok ==> name !in r.after && r.after.Keys == s.Keys - {name}
    ensures forall n :: n in r.after ==> n in s && r.after[n] == s[n]
    ensures !r.ok ==> r.after == s
  {
    if name !in s then Step(false, s) else Step(true, s - {name})
  }

  /** Setting succeeds exactly when the name is present; then that entry
      gets the new kind and value and every other entry is unchanged. No
      entry is ever created. */
  function Set(s: Store, name: string, value: string, kind: PropertyType): (r: Step)
    ensures r.ok <==> name in s
    ensures r.after.Keys == s.Keys
    ensures r.ok ==> r.after[name] == Entry(kind, value)
    ensures forall n :: n in s && n != name ==> r.after[n] == s[n]
    ensures !r.ok ==> r.after == s
  {
    if name !in s then Step(false, s) else Step(true, s[name := Entry(kind, value)])
  }

  /** A successful add grows the count by one; a failed one leaves it. */
  lemma AddCount(s: Store, p: PropertyData)
    ensures |Add(s, p).after| == if p.name in s then |s| else |s| + 1
  {
  }

  /** A successful remove shrinks the count by one; a failed one leaves it. */
  lemma RemoveCount(s: Store, name: string)
    ensures |Remove(s, name).after| == if name in s then |s| - 1 else |s|
  {
  }

  /** Reading a name: the stored kind and value under that name, or, when
      the name is absent, an Error-kind sentinel carrying the name. */
  function Get(s: Store, name: string): (p: PropertyData)
    ensures p.name == name
    ensures name in s ==> EntryOf(p) == s[name]
    ensures name !in s ==> p.kind == Error && p.value == Missing
  {
    if name !in s then PropertyData(Error, name, Missing)
    else PropertyData(s[name].kind, name, s[name].value)
  }

  /** No name occurs twice in the list. */
  predicate DistinctNames(items: seq<PropertyData>)
  {
    forall i, j :: 0 <= i < j < |items| ==> items[i].name != items[j].name
  }

  predicate Distinct(names: seq<string>)
  {
    forall i, j :: 0 <= i < j < |names| ==> names[i] != names[j]
  }

  /** The names of a list of properties, as a set. */
  function NamesOf(items: seq<PropertyData>): (ns: set<string>)
  {
    set i | 0 <= i < |items| :: items[i].name
  }

  /** The names of a list, as a set. */
  function Listed(names: seq<string>): (ns: set<string>)
  {
    set i | 0 <= i < |names| :: names[i]
  }

  /** Adding a list one item after another, in list order, recording each
      item's own outcome under its name. Defined on the prefix so that the
      last item is added last. */
  function AddMany(s: Store, items: seq<PropertyData>): (b: Batch)
    requires DistinctNames(items)
  {
    if items == [] then Batch(map[], s)
    else
      var prefix := AddMany(s, items[..|items| - 1]);
      var last := items[|items| - 1];
      var step := Add(prefix.after, last);
      Batch(prefix.results[last.name := step.ok], step.after)
  }

  /** Removing a list of names one after another, in list order. */
  function RemoveMany(s: Store, names: seq<string>): (b: Batch)
    requires Distinct(names)
  {
    if names == [] then Batch(map[], s)
    else
      var prefix := RemoveMany(s, names[..|names| - 1]);
      var last := names[|names| - 1];
      var step := Remove(prefix.after, last);
      Batch(prefix.results[last := step.ok], step.after)
  }

  /** The name set of a list grows by the last item's name. */
  lemma NamesOfSnoc(items: seq<PropertyData>)
    requires items != []
    ensures NamesOf(items) == NamesOf(items[..|items| - 1]) + {items[|items| - 1].name}
  {
    var init := items[..|items| - 1];
    forall n | n in NamesOf(items) ensures n in NamesOf(init) + {items[|items| - 1].name} {
      var i :| 0 <= i < |items| && items[i].name == n;
      if i < |items| - 1 { assert init[i] == items[i]; }
    }
    forall n | n in NamesOf(init) ensures n in NamesOf(items) {
      var i :| 0 <= i < |init| && init[i].name == n;
      assert items[i] == init[i];
    }
  }

  /** The last item of a distinct list does not share its name with any
      earlier item. */
  lemma LastNameIsNew(items: seq<PropertyData>)
    requires items != [] && DistinctNames(items)
    ensures DistinctNames(items[..|items| - 1])
    ensures items[|items| - 1].name !in NamesOf(items[..|items| - 1])
  {
  }

  /** The names a batch add reports on, and the names it leaves stored. */
  lemma {:induction false} AddManyKeys(s: Store, items: seq<PropertyData>)
    requires DistinctNames(items)
    ensures AddMany(s, items).results.Keys == NamesOf(items)
    ensures AddMany(s, items).after.Keys == s.Keys + NamesOf(items)
  {
    if items != [] {
      LastNameIsNew(items);
      AddManyKeys(s, items[..|items| - 1]);
      NamesOfSnoc(items);
    }
  }

  /** An entry already in the store survives a batch add unchanged. */
  lemma {:induction false} AddManyKeeps(s: Store, items: seq<PropertyData>, n: string)
    requires DistinctNames(items) && n in s
    ensures n in AddMany(s, items).after && AddMany(s, items).after[n] == s[n]
  {
    if items != [] {
      AddManyKeeps(s, items[..|items| - 1], n);
    }
  }

  /** A listed item whose name was absent is stored with its own kind and
      value. */
  lemma {:induction false} AddManyStores(s: Store, items: seq<PropertyData>, i: nat)
    requires DistinctNames(items) && i < |items| && items[i].name !in s
    ensures items[i].name in AddMany(s, items).after
    ensures AddMany(s, items).after[items[i].name] == EntryOf(items[i])
  {
    var init := items[..|items| - 1];
    var last := items[|items| - 1];
    LastNameIsNew(items);
    AddManyKeys(s, init);
    if i < |items| - 1 {
      assert init[i] == items[i];
      AddManyStores(s, init, i);
    }
  }

  /** A listed name is reported as added exactly when it was absent before
      the batch. */
  lemma {:induction false} AddManyResult(s: Store, items: seq<PropertyData>, i: nat)
    requires DistinctNames(items) && i < |items|
    ensures items[i].name in AddMany(s, items).results
    ensures AddMany(s, items).results[items[i].name] == (items[i].name !in s)
  {
    var init := items[..|items| - 1];
    var last := items[|items| - 1];
    LastNameIsNew(items);
    AddManyKeys(s, init);
    if i < |items| - 1 {
      assert init[i] == items[i];
      AddManyResult(s, init, i);
    }
  }

  /** A batch add reports, for every listed name, whether that name was
      absent beforehand; the store ends up with exactly the entries it had
      plus the listed items whose names were fresh. */
  lemma AddManyEffect(s: Store, items: seq<PropertyData>)
    requires DistinctNames(items)
    ensures AddMany(s, items).results.Keys == NamesOf(items)
    ensures forall i :: 0 <= i < |items| ==>
      AddMany(s, items).results[items[i].name] == (items[i].name !in s)
    ensures AddMany(s, items).after.Keys == s.Keys + NamesOf(items)
    ensures forall n :: n in s ==> AddMany(s, items).after[n] == s[n]
    ensures forall i :: 0 <= i < |items| && items[i].name !in s ==>
      AddMany(s, items).after[items[i].name] == EntryOf(items[i])
  {
    AddManyKeys(s, items);
    forall i | 0 <= i < |items|
      ensures AddMany(s, items).results[items[i].name] == (items[i].name !in s)
    {
      AddManyResult(s, items, i);
    }
    forall n | n in s ensures AddMany(s, items).after[n] == s[n] {
      AddManyKeeps(s, items, n);
    }
    forall i | 0 <= i < |items| && items[i].name !in s
      ensures AddMany(s, items).after[items[i].name] == EntryOf(items[i])
    {
      AddManyStores(s, items, i);
    }
  }

  lemma ListedSnoc(names: seq<string>)
    requires names != []
    ensures Listed(names) == Listed(names[..|names| - 1]) + {names[|names| - 1]}
  {
    var init := names[..|names| - 1];
    forall n | n in Listed(names) ensures n in Listed(init) + {names[|names| - 1]} {
      var i :| 0 <= i < |names| && names[i] == n;
      if i < |names| - 1 { assert init[i] == names[i]; }
    }
    forall n | n in Listed(init) ensures n in Listed(names) {
      var i :| 0 <= i < |init| && init[i] == n;
      assert names[i] == init[i];
    }
  }

  /** The names a batch remove reports on, and the names it leaves stored. */
  lemma {:induction false} RemoveManyKeys(s: Store, names: seq<string>)
    requires Distinct(names)
    ensures RemoveMany(s, names).results.Keys == Listed(names)
    ensures RemoveMany(s, names).after.Keys == s.Keys - Listed(names)
  {
    if names != [] {
      assert Distinct(names[..|names| - 1]);
      RemoveManyKeys(s, names[..|names| - 1]);
      ListedSnoc(names);
    }
  }

  /** Whatever survives a batch remove keeps its kind and value. */
  lemma {:induction false} RemoveManyKeeps(s: Store, names: seq<string>, n: string)
    requires Distinct(names) && n in RemoveMany(s, names).after
    ensures n in s && RemoveMany(s, names).after[n] == s[n]
  {
    if names != [] {
      assert Distinct(names[..|names| - 1]);
      RemoveManyKeeps(s, names[..|names| - 1], n);
    }
  }

  /** A listed name is reported as removed exactly when it was present
      before the batch. */
  lemma {:induction false} RemoveManyResult(s: Store, names: seq<string>, i: nat)
    requires Distinct(names) && i < |names|
    ensures names[i] in RemoveMany(s, names).results
    ensures RemoveMany(s, names).results[names[i]] == (names[i] in s)
  {
    var init := names[..|names| - 1];
    assert Distinct(init);
    RemoveManyKeys(s, init);
    if i < |names| - 1 {
      assert init[i] == names[i];
      RemoveManyResult(s, init, i);
    } else {
      assert names[i] !in Listed(init);
    }
  }

  /** A batch remove reports, for every listed name, whether it was present
      beforehand; the store ends up with exactly the entries it had minus the
      listed names, the remaining entries unchanged. */
  lemma RemoveManyEffect(s: Store, names: seq<string>)
    requires Distinct(names)
    ensures RemoveMany(s, names).results.Keys == Listed(names)
    ensures forall i :: 0 <= i < |names| ==> RemoveMany(s, names).results[names[i]] == (names[i] in s)
    ensures RemoveMany(s, names).after.Keys == s.Keys - Listed(names)
    ensures forall n :: n in RemoveMany(s, names).after ==> RemoveMany(s, names).after[n] == s[n]
  {
    RemoveManyKeys(s, names);
    forall i | 0 <= i < |names| ensures RemoveMany(s, names).results[names[i]] == (names[i] in s) {
      RemoveManyResult(s, names, i);
    }
    forall n | n in RemoveMany(s, names).after ensures RemoveMany(s, names).after[n] == s[n] {
      RemoveManyKeeps(s, names, n);
    }
  }

  /** Adding a name twice: the first add succeeds, the second fails and the
      store keeps the first value. */
  lemma AddTwiceKeepsFirst(s: Store, first: PropertyData, second: PropertyData)
    requires first.name !in s && second.name == first.name
    ensures Add(s, first).ok && !Add(Add(s, first).after, second).ok
    ensures Get(Add(Add(s, first).after, second).after, first.name) == first
  {
  }

  /** A batch add of one name already in the store and one fresh name gives
      exactly one failure and one success, and only the fresh name is added. */
  lemma AddManyDuplicateAndFresh(s: Store, dup: PropertyData, novel: PropertyData)
    requires dup.name in s && novel.name !in s
    ensures DistinctNames([dup, novel])
    ensures AddMany(s, [dup, novel]).results == map[dup.name := false, novel.name := true]
    ensures AddMany(s, [dup, novel]).after == s[novel.name := EntryOf(novel)]
  {
    var items := [dup, novel];
    AddManyEffect(s, items);
    var b := AddMany(s, items);
    assert NamesOf(items) == {dup.name, novel.name} by {
      assert items[0].name == dup.name && items[1].name == novel.name;
    }
    assert b.results[items[0].name] == false && b.results[items[1].name] == true;
    assert b.after.Keys == s.Keys + {novel.name};
  }
}
