# GameObjectLib property store and message dispatcher, in Dafny

This project models the core of GameObjectLib: a game object, a named entity that
holds a set of typed, text-valued properties and answers messages that add,
read, update and remove them.

- `messaging.dfy` (module `Messaging`) holds the record shapes of the protocol.
  These are the wire type tag `PropType`, the action `MessageAction`, the inbound
  `Message` and the outbound `Response`.
- `property.dfy` (module `Properties`) holds the property kind `PropertyType` and
  the class `Property`. Its three mutable fields are `kind` (the source's `Type`),
  `value` and `name`. The file also has both constructors and `CloneProperty`.
- `store.dfy` (module `PropertyStore`) treats the store as a value: a map from
  name to `Entry(kind, value)`. `Add`, `Remove` and `Set` are functions that
  return the outcome and the store afterwards. `Get` returns the property data
  read under a name, or the Error-kind sentinel. The batch operations `AddMany` and
  `RemoveMany` have lemmas about what they report and what they leave stored.
- `dispatcher.dfy` (module `Dispatcher`) holds the inbound type switch
  `Inbound`, the outbound `ConvertPropertyType`, and `Dispatch`. `Dispatch` is the
  response to one message and the store it leaves, as a function of the store
  and the message.
- `game_object.dfy` (module `GameObjects`) holds the class `GameObject`. It has
  a `name` and a field `properties: map<string, Property>` of real objects, so
  `SetProperty` updates the stored object in place, as the source does.
  `Valid()` says every stored object carries the name it is stored under.
  `Contents()` gives the store as a `PropertyStore` value. Every method is
  proved to change `Contents()` exactly as the matching store function says.
  `ReceiveMessage` is proved to behave exactly as `Dispatcher.Dispatch` says.

Two behaviours of the code are kept as written:

- The inbound type switch has no `Error` case. Its default, set before the
  switch, is `String` (GameObjectLib/GameObject.cs:103-115). So an Add or a Set
  that declares `Error` stores a `String`-kind property, while the response
  still echoes `Error`. `Dispatcher.AddThenGet` shows the effect: reading the
  property back reports `String`.
- The fallback answer for an action outside the four named ones is
  `(false, "Error", "Error", Error, name)` (GameObjectLib/GameObject.cs:137).
  `MessageAction.Unknown` stands for such a value, which a C# enumeration
  can hold.

## Model

| member | source | states |
|---|---|---|
| `Properties.Property.constructor` | GameObjectLib/Property.cs:8-13 | the new property holds exactly the given kind, name and value |
| `Properties.Property.Named` | GameObjectLib/Property.cs:15-20 | the new property holds the given kind and name, and the empty string as its value |
| `Properties.Property.CloneProperty` | GameObjectLib/Property.cs:26-29 | the result is a freshly allocated object (never the receiver) with the receiver's kind, name and value; the receiver is not modified |
| `Properties.CloneThenChange` | GameObjectLib/Property.cs:22-29 | assigning the kind and value of a clone leaves the original's three fields as they were |
| `PropertyStore.Add` | GameObjectLib/GameObject.cs:40-48 | succeeds exactly when the name is absent; on success the store gains that one entry with the given kind and value and keeps every other entry; on failure the store is unchanged |
| `PropertyStore.AddCount` | GameObjectLib/GameObject.cs:40-48 | a successful add raises the property count by one; a refused one leaves it |
| `PropertyStore.Remove` | GameObjectLib/GameObject.cs:63-72 | succeeds exactly when the name is present; then only that name disappears and the rest keep their entries; on failure the store is unchanged |
| `PropertyStore.RemoveCount` | GameObjectLib/GameObject.cs:63-72 | a successful remove lowers the property count by one; a refused one leaves it |
| `PropertyStore.Set` | GameObjectLib/GameObject.cs:87-98 | succeeds exactly when the name is present; the set of names never changes; on success only that entry gets the new kind and value |
| `PropertyStore.Get` | GameObjectLib/GameObject.cs:74-85 | the result always carries the requested name; for a present name it has the stored kind and value; for an absent one it is the Error-kind sentinel with value "Property does not exist" |
| `PropertyStore.AddManyKeys` | GameObjectLib/GameObject.cs:51-55 | a batch add reports on exactly the listed names and leaves exactly the old names plus the listed ones stored |
| `PropertyStore.AddManyKeeps` | GameObjectLib/GameObject.cs:51-55 | an entry present before a batch add keeps its kind and value |
| `PropertyStore.AddManyStores` | GameObjectLib/GameObject.cs:51-55 | a listed item whose name was absent ends up stored with its own kind and value |
| `PropertyStore.AddManyResult` | GameObjectLib/GameObject.cs:51-55 | each listed name is reported true exactly when it was absent before the batch |
| `PropertyStore.AddManyEffect` | GameObjectLib/GameObject.cs:51-55 | for a list with distinct names, adding in list order without rollback gives each name its own outcome (true exactly when fresh); the store ends with exactly the old entries plus the fresh items |
| `PropertyStore.AddManyDuplicateAndFresh` | GameObjectLib/GameObject.cs:51-55 | a batch of one taken name and one fresh name reports one false and one true, and only the fresh name is added |
| `PropertyStore.RemoveManyKeys` | GameObjectLib/GameObject.cs:57-61 | a batch remove reports on exactly the listed names and leaves exactly the old names minus the listed ones |
| `PropertyStore.RemoveManyKeeps` | GameObjectLib/GameObject.cs:57-61 | whatever survives a batch remove keeps its kind and value |
| `PropertyStore.RemoveManyResult` | GameObjectLib/GameObject.cs:57-61 | each listed name is reported true exactly when it was present before the batch |
| `PropertyStore.RemoveManyEffect` | GameObjectLib/GameObject.cs:57-61 | for distinct names, removing in list order gives each name its own outcome (true exactly when present); the store ends with exactly the old entries minus the listed names |
| `PropertyStore.AddTwiceKeepsFirst` | GameObjectLib/GameObject.cs:40-48 | adding the same name twice succeeds, then fails, and the store keeps the first kind and value |
| `Dispatcher.Inbound` | GameObjectLib/GameObject.cs:103-115 | Bool, Number and String map to the same-named kind, and these read back unchanged through `ConvertPropertyType`; Error falls to the String kind; the result is never the Error kind |
| `Dispatcher.ConvertPropertyType` | GameObjectLib/GameObject.cs:140-159 | the result is the Error tag exactly for the Error kind |
| `Dispatcher.ConvertThenInbound` | GameObjectLib/GameObject.cs:140-159 | every non-Error kind survives conversion to the wire tag and back |
| `Dispatcher.ConvertIsInjective` | GameObjectLib/GameObject.cs:140-159 | two kinds with the same wire tag are the same kind (the conversion is one-to-one) |
| `Dispatcher.Dispatch` | GameObjectLib/GameObject.cs:100-138 | the response always names this object as its source. Failures and Gets never change the store. Add succeeds exactly when the name is absent; Get, Set and Remove succeed exactly when it is present. Each failure gives its exact error tuple. Add and Set echo name, value and declared type and store the inbound kind. Get returns the stored value and converted kind. Remove answers (true, name, "none", Bool) and drops only that name. An unknown action answers (false, "Error", "Error", Error) |
| `Dispatcher.AddThenGet` | GameObjectLib/GameObject.cs:119-129 | an Add message for a fresh name followed by a Get for it returns the sent value and the sent type, except that a declared Error reads back as String |
| `Dispatcher.SecondAddRefused` | GameObjectLib/GameObject.cs:119-120 | a second Add for the same name answers (false, name, "Property name already exists", Error) and the first value stays |
| `Dispatcher.SetOverwritesOnlyItsEntry` | GameObjectLib/GameObject.cs:131-132 | a Set on a present name stores the sent value under the inbound kind, keeps the set of names and leaves every other entry unchanged |
| `GameObjects.GameObject.constructor` | GameObjectLib/GameObject.cs:20-23 | the new object has the given name and no properties |
| `GameObjects.GameObject.WithProperties` | GameObjectLib/GameObject.cs:25-29 | the new object has the given name and holds what a batch add of the list into an empty store leaves, in fresh property objects |
| `GameObjects.GameObject.DoesPropertyExist` | GameObjectLib/GameObject.cs:34-37 | true exactly when the name is in the store |
| `GameObjects.GameObject.GetPropertyCount` | GameObjectLib/GameObject.cs:191-194 | the number of names in the store |
| `GameObjects.GameObject.GetAllProperties` | GameObjectLib/GameObject.cs:176-179 | the current map of stored objects: the same names as the store, each object carrying its own name and the stored kind and value |
| `GameObjects.GameObject.AddProperty` | GameObjectLib/GameObject.cs:40-49 | outcome and new store are those of `PropertyStore.Add`; the stored object is freshly allocated (a copy, not the caller's object); objects already stored stay |
| `GameObjects.GameObject.AddManyProperty` | GameObjectLib/GameObject.cs:51-55 | results and new store are those of `PropertyStore.AddMany` on the list's field values |
| `GameObjects.GameObject.RemoveManyProperty` | GameObjectLib/GameObject.cs:57-61 | results and new store are those of `PropertyStore.RemoveMany`; every surviving name still holds the same object as before |
| `GameObjects.GameObject.RemoveProperty` | GameObjectLib/GameObject.cs:63-72 | outcome and new store are those of `PropertyStore.Remove`; every surviving name still holds the same object as before |
| `GameObjects.GameObject.GetProperty` | GameObjectLib/GameObject.cs:74-85 | the result's fields are those of `PropertyStore.Get`; a present name gives the stored object itself, an absent one a fresh sentinel; nothing is modified |
| `GameObjects.GameObject.SetProperty` | GameObjectLib/GameObject.cs:87-98 | outcome and new store are those of `PropertyStore.Set`, done by assigning the stored object's kind and value in place |
| `GameObjects.GameObject.ReceiveMessage` | GameObjectLib/GameObject.cs:100-138 | response and new store are exactly those of `Dispatcher.Dispatch` with this object's name as source; every stored object afterwards is either the object stored under that name before or freshly allocated |
| `GameObjects.GameObject.CloneGameObject` | GameObjectLib/GameObject.cs:161-167 | the clone is a fresh object with the same name and the same name-to-(kind, value) entries, all held in freshly allocated properties |
| `GameObjects.ChangeAfterAdd` | GameObjectLib/GameObject.cs:40-48 | after a successful add the caller's property really changes, yet the stored entry keeps the kind and value it was added with |
| `GameObjects.SetOnClone` | GameObjectLib/GameObject.cs:161-167 | setting a property on a clone leaves the original's store unchanged |
| `GameObjects.RemoveThenSetOnClone` | GameObjectLib/GameObject.cs:161-167 | a remove and then a set on a clone give the clone the store those two operations describe, and leave the original's store unchanged |
| `GameObjects.MessageToClone` | GameObjectLib/GameObject.cs:161-167 | a message to a clone is answered as `Dispatcher.Dispatch` says for the original's store, and leaves the original's store unchanged |

## Left out

- Image handling (`EditorImage`, `Image`, `SetImage`, `IsImageSet` and the image branch of `CloneGameObject`) is not modelled. It wraps `BinaryImage` and `System.Drawing.Image`, and BinaryImageLib is not part of this model.
- Aliasing through `GetProperty` and `GetAllProperties` is not followed. Both hand out the stored objects, and the model says so. But a caller who then changes such an object's `name` breaks `Valid()`, and the model proves nothing after that.
- `GameObjects.GameObject.GetAllProperties` returns the map as a value, a snapshot. The source returns its dictionary itself (GameObjectLib/GameObject.cs:178), so a caller who adds to or removes from the result changes the store. The model does not capture that.
- Null arguments are not modelled: `string`, `Property` and `Message` are non-null types here. In the source, a null name reaches `ContainsKey` and throws (GameObjectLib/GameObject.cs:36, and through `newMessage.Property` at :102). `AddProperty(null)` throws at :42, and `ToDictionary` throws on a null key.
- `AddManyProperty`, `RemoveManyProperty` and `WithProperties` throw in the source when the list repeats a name, because `ToDictionary` refuses duplicate keys. The model requires distinct names instead of modelling the exception and the partial effect before it.
- Wire tags outside the four `PropType` members are not modelled. `PropertyType` is a closed datatype here, so the fallback at GameObjectLib/GameObject.cs:158 is dead.
- The `Messaging` library is not part of this model. Only the fields that the dispatcher reads and writes are modelled. The defaults that its three-argument `Message` constructor supplies for value and type are unknown, so callers give all five fields.
- `GameObjects.GameObject.CloneGameObject` copies the entries in an arbitrary order, not in dictionary enumeration order. The resulting store is the same either way.
- The `[Serializable]` attributes, any transport of messages and concurrent use are not modelled. The source has no locking.
