# DataStorageAttribute — a Dafny model of the field-persistence registry

DataStorageAttribute is a Unity add-on. Fields of `MonoBehaviour`
subclasses that carry the `[DataStorage]` attribute are saved and restored
automatically.

A `DataStorageController` scans the assembly for `MonoBehaviour` subclasses.
For every component the scene search (`FindObjectsOfType`) returns, that is,
every component not destroyed and on an active game object, it builds a
registry:
- one `DataSet` per component,
- one `DataField` per marked field, inherited fields included,
- each field with a save key.

The registry is sorted by component name. It is loaded on `Awake` and saved
on quit, through the default key/value store or through user-supplied
saver and loader events.

## How the model is built

Each core source file is one Dafny module.

| module | models | form |
|---|---|---|
| `Attributes` (attribute.dfy) | `DataStorageAttribute` | value |
| `Reflection` (reflection.dfy) | the type table: base types, declared fields, markers | value |
| `Engine` (engine.dfy) | the scene: components, parents, liveness, field values | value, `Scene` class for field values |
| `TypeExtender` (type_extender.dfy) | `TypeExtender` | pure functions and lemmas |
| `GameObjectExtender` (game_object_extender.dfy) | `GameObjectExtender.GetFullName` | method with its loop |
| `ObjectExtender` (object_extender.dfy) | the string part of `ObjectExtender.GetMyName` | functions |
| `DataFields` (data_field.dfy) | `DataField` | class with `const` members |
| `DataSets` (data_set.dfy) | `DataSet` | class whose `fields` list is updated in place |
| `DataStorages` (data_storage.dfy) | `DataStorage` | class: `data`, saver/loader, save and load loops |
| `DataCreators` (data_creator.dfy) | `DataCreator` | methods mutating the storage's sets, with a function specification |
| `Ordering` (ordering.dfy) | `OrderBy` used by `SortData` | functions: stable insertion sort |
| `Controllers` (controller.dfy) | `DataStorageController` | class with `Awake`, `Initialize`, `Save`, `Load`, `OnApplicationQuit` |
| `XmlStore` (xml_store.dfy) | the default key/value store | a map from (type, key) to value |
| `Scenario` (scenario.dfy) | the `TestClass`/`TestClass2` example scene | constants and lemmas |

### Representation

- **Types** are indices into a `Hierarchy`, a sequence of `TypeInfo`. A base type always has a smaller index, so the hierarchy is acyclic and walks up it terminate.
- **Components** are indices into `World.objects`. A null or destroyed component is `None`, an unknown index, or a component whose `alive` is false (`Engine.IsNull`). A component is found by the scene search when it is not destroyed and its game object is `active` (`Engine.Findable`): a component on an inactive game object is not null, so its sets still load and save, but `Initialize` does not visit it.
- **Field values** of the scene live in the mutable `Scene` object.
- **The store** is a mutable `Storage` object over a map.

### Specifications

Each method that mutates sets is tied to a function over views:
- `GroupView` is a set's component, key and field records.
- `HarvestOne`, `HarvestComponents`, `HarvestType` and `HarvestAll` say what `CreateDataSet`, `Create` and the `Initialize` loop compute.
- `Rebuilt(w)` is the registry `Initialize` produces: the harvest over the `MonoBehaviour` subclasses, sorted by component name.
- `SaveAll` and `LoadAll` are the `Save` and `Load` walks over the (set, field) pairs, in `ForEach` order.

The properties are proved about these functions, so they hold for the methods too:
- one set per component;
- no duplicate field names;
- every marked field of every assignable type is registered, and every registered set and field comes from such a type;
- sorting is a stable permutation;
- loading what was just saved changes nothing.

## Model

| member | source | states |
|---|---|---|
| Attributes.WithKey | Assets/Attributes/DataStorage/Scripts/DataStorageAttribute.cs:24-27 | The key is the given string; a null key becomes "", so the key is empty exactly when none or "" was given |
| Attributes.Default | Assets/Attributes/DataStorage/Scripts/DataStorageAttribute.cs:18 | The parameterless attribute has key "" and equals the one built from a null key |
| TypeExtender.Chain | Assets/Attributes/Common/Scripts/TypeExtender.cs:48 | The walk `bt = self; bt = bt.BaseType` visits the type, then each base in turn: strictly decreasing, linked by `baseType`, ending at a root |
| TypeExtender.IsInheritingMeansStrictAncestor | Assets/Attributes/Common/Scripts/TypeExtender.cs:9-20 | `IsInheriting(t, b)` holds exactly when `b` is in `t`'s chain after `t` itself (the walk starts at the base type) |
| TypeExtender.NeverInheritsItself | Assets/Attributes/Common/Scripts/TypeExtender.cs:9-20 | No type inherits from itself |
| TypeExtender.GetFieldInfos | Assets/Attributes/Common/Scripts/TypeExtender.cs:22-39 | A null type yields nothing; otherwise a handle is yielded exactly when it is a field the type declares that carries the attribute |
| TypeExtender.MarkedAmongKeepsOrder | Assets/Attributes/Common/Scripts/TypeExtender.cs:29-38 | Yielded handles keep declaration order |
| TypeExtender.GetField | Assets/Attributes/Common/Scripts/TypeExtender.cs:50 | A declared-only lookup finds a field of that type with that name, and finds none only when the type declares no field of that name |
| TypeExtender.GetFieldInfoInParents | Assets/Attributes/Common/Scripts/TypeExtender.cs:41-59 | A null type or an empty key gives null; a found handle has the asked name and belongs to a known type |
| TypeExtender.FindInChainSound | Assets/Attributes/Common/Scripts/TypeExtender.cs:48-56 | A found handle is the declaration of the nearest type in the chain that declares the name; no earlier type declares it |
| TypeExtender.FindInChainNone | Assets/Attributes/Common/Scripts/TypeExtender.cs:48-58 | The walk finds nothing exactly when no type of the chain declares the name |
| TypeExtender.FoundInParentsIsInherited | Assets/Attributes/Common/Scripts/TypeExtender.cs:48-56 | A found handle is declared by the type itself or by one of its ancestors |
| TypeExtender.GetTypeFromString | Assets/Attributes/Common/Scripts/TypeExtender.cs:67-72 | An empty name gives null; a found type has exactly that full name; null for a non-empty name means no known type has it |
| GameObjectExtender.GetFullName | Assets/Attributes/Common/Scripts/GameObjectExtender.cs:7-18 | The loop's result is the parents' names, root first, joined by the conjunction; "" with no parents, the own name alone without ancestors |
| GameObjectExtender.OwnNameIsLastSegment | Assets/Attributes/Common/Scripts/GameObjectExtender.cs:7-18 | The object's own name is the last segment, after the parent's full name and the conjunction |
| GameObjectExtender.JoinLength | Assets/Attributes/Common/Scripts/GameObjectExtender.cs:7-18 | The full name's length is the names' total length plus one conjunction between each pair of names |
| ObjectExtender.TrimStart | Assets/Attributes/Common/Scripts/ObjectExtender.cs:15 | The trim keeps a suffix; every removed character is in the set (white space for an empty set); the kept part does not start with a removable character |
| ObjectExtender.GetMyName | Assets/Attributes/Common/Scripts/ObjectExtender.cs:13-16 | Fails exactly for a type without a namespace; the label ends in "." + member; its stem is the full name with a leading run of namespace characters cut off |
| ObjectExtender.EmptyNamespaceKeepsName | Assets/Attributes/Common/Scripts/ObjectExtender.cs:15 | An empty namespace keeps the full name whole, unless it starts with white space; a defensive case, since .NET gives a type outside every namespace a null namespace |
| ObjectExtender.NamespaceLettersTrimAway | Assets/Attributes/Common/Scripts/ObjectExtender.cs:15 | A type name spelled only with characters of its dotted namespace is trimmed away entirely |
| ObjectExtender.CharacterSetTrimOverTrims | Assets/Attributes/Common/Scripts/ObjectExtender.cs:15 | The example namespace's type `Example` gets the label ".i", where the prefix rule gives "Example.i" |
| ObjectExtender.GetMyNameByPrefix | Assets/Attributes/Common/Scripts/ObjectExtender.cs:13-16 | The corrected label removes the namespace and its dot as a prefix: its stem is the full name after `ns + "."` when it starts so, otherwise the whole full name; fails exactly without a namespace; ends in "." + member |
| ObjectExtender.PrefixRuleKeepsTypeName | Assets/Attributes/Common/Scripts/ObjectExtender.cs:13-16 | With the prefix rule a type `N` in namespace `ns` is always labelled `N.member` |
| DataFields.TypeNameOf | Assets/Attributes/DataStorage/Scripts/Components/DataField.cs:77 | The type name is "" for a null handle, otherwise the full name of the field's type |
| DataFields.NewRecord | Assets/Attributes/DataStorage/Scripts/Components/DataField.cs:71-79 | A new field keeps name, key and handle, takes the type name from the handle and caches the type that name resolves to |
| DataFields.DataField.Empty | Assets/Attributes/DataStorage/Scripts/Components/DataField.cs:63 | Empty name and key, no handle, no type |
| DataFields.DataField.constructor | Assets/Attributes/DataStorage/Scripts/Components/DataField.cs:71-79 | The field is the record `NewRecord` describes, and its cached type is known |
| DataFields.DataField.WithType | Assets/Attributes/DataStorage/Scripts/Components/DataField.cs:88-96 | Name, key and handle verbatim; the cache is the given type; the type name is its full name, "" for none |
| DataFields.DataField.Restored | Assets/Attributes/DataStorage/Scripts/Components/DataField.cs:43-57 | A deserialised field has only its serialised members: name, type name and key; handle and cache are null |
| DataFields.DataField.FieldType | Assets/Attributes/DataStorage/Scripts/Components/DataField.cs:38-41 | A cached type is returned as is; otherwise the type named by the type name, none for an empty name |
| DataFields.DataField.GetValue | Assets/Attributes/DataStorage/Scripts/Components/DataField.cs:103-111 | Null for a null component or a missing handle, otherwise the component's current value of that field |
| DataFields.DataField.SetValue | Assets/Attributes/DataStorage/Scripts/Components/DataField.cs:119-136 | Succeeds exactly for a live component, a handle and a value the field accepts; on success only that slot changes and reads back the value; on failure nothing changes |
| DataSets.AddRecord | Assets/Attributes/DataStorage/Scripts/Components/DataSet.cs:71-84 | The list grows by one exactly when the name is new, with the new record last; the old records stay in place; distinct names stay distinct |
| DataSets.AddRecordNames | Assets/Attributes/DataStorage/Scripts/Components/DataSet.cs:71-84 | After `AddField` the names held are the old names plus the added one |
| DataSets.FullName | Assets/Attributes/DataStorage/Scripts/Components/DataSet.cs:91-102 | "" for a null component, otherwise "company:product:scene", the conjunction, then the object's path from the root joined by "/" |
| DataSets.SaveKeyFor | Assets/Attributes/DataStorage/Scripts/Components/DataSet.cs:110-116 | A generated save key is never empty |
| DataSets.SaveKeysDifferByField | Assets/Attributes/DataStorage/Scripts/Components/DataSet.cs:110-116 | Two fields of one component with different names get different generated keys |
| DataSets.SaveKeysDifferByType | Assets/Attributes/DataStorage/Scripts/Components/DataSet.cs:110-116 | Components at the same path but of differently named types get different keys for the same field name |
| DataSets.DataSet.Empty | Assets/Attributes/DataStorage/Scripts/Components/DataSet.cs:45 | No component, empty key, no fields |
| DataSets.DataSet.constructor | Assets/Attributes/DataStorage/Scripts/Components/DataSet.cs:51-62 | No fields; a null component leaves the set unowned with key ""; otherwise it keeps the component and its type's full name |
| DataSets.DataSet.AddField | Assets/Attributes/DataStorage/Scripts/Components/DataSet.cs:71-84 | A name already held returns the first field of that name (`FirstOrDefault`) and changes nothing; otherwise a fresh field is appended and returned |
| DataSets.DataSet.GetFullName | Assets/Attributes/DataStorage/Scripts/Components/DataSet.cs:91-102 | "" for an unowned set, otherwise the component's full name |
| DataSets.DataSet.GenerateSaveKey | Assets/Attributes/DataStorage/Scripts/Components/DataSet.cs:110-116 | The key is the one `SaveKeyFor` describes: full name, conjunction, type name, ".", field name |
| DataStorages.PairsAt | Assets/Attributes/DataStorage/Scripts/Components/DataStorage.cs:55-64 | `ForEach` visits field j of set i at a fixed position: sets in order, fields in order within a set |
| DataStorages.Resolve | Assets/Attributes/DataStorage/Scripts/Components/DataStorage.cs:155-178 | Skips an empty name, an empty key or a null component; keeps an existing handle; re-binds a missing one to the nearest declaration of the name in the component's chain, and skips exactly when none exists |
| DataStorages.SaveAllLastWriter | Assets/Attributes/DataStorage/Scripts/Components/DataStorage.cs:77-87 | The store entry of a saved pair holds its value unless a later pair writes the same key |
| DataStorages.SaveAllUntouched | Assets/Attributes/DataStorage/Scripts/Components/DataStorage.cs:77-87 | Keys no valid pair maps to keep their entries |
| DataStorages.SavedIsCurrent | Assets/Attributes/DataStorage/Scripts/Components/DataStorage.cs:77-87 | When equal keys always name the same slot, the store holds each valid pair's current value |
| DataStorages.LoadAllUntouched | Assets/Attributes/DataStorage/Scripts/Components/DataStorage.cs:103-118 | Slots no valid pair maps to keep their values |
| DataStorages.LoadCurrentIsIdentity | Assets/Attributes/DataStorage/Scripts/Components/DataStorage.cs:103-118 | Loading from a store that already holds each pair's current value changes nothing |
| DataStorages.LoadAfterSave | Assets/Attributes/DataStorage/Scripts/Components/DataStorage.cs:69-119 | Round trip: loading right after saving leaves every field value as it was |
| DataStorages.DataStorage.constructor | Assets/Attributes/DataStorage/Scripts/Components/DataStorage.cs:36-49 | An empty registry with no custom saver or loader |
| DataStorages.DataStorage.InstallSaver | Assets/Attributes/DataStorage/Scripts/Components/DataStorage.cs:24-27 | A custom saver is set |
| DataStorages.DataStorage.InstallLoader | Assets/Attributes/DataStorage/Scripts/Components/DataStorage.cs:29-32 | A custom loader is set |
| DataStorages.DataStorage.CheckValidity | Assets/Attributes/DataStorage/Scripts/Components/DataStorage.cs:155-178 | Valid exactly when `Resolve` binds the pair; the field is replaced only when its handle was missing and one was found, keeping name, key and cached type |
| DataStorages.DataStorage.SaveField | Assets/Attributes/DataStorage/Scripts/Components/DataStorage.cs:79-86 | One pair of the save walk: a valid pair writes its current value under (field type, save key) |
| DataStorages.DataStorage.LoadField | Assets/Attributes/DataStorage/Scripts/Components/DataStorage.cs:105-117 | One pair of the load walk: a valid pair with a stored value sets that value into the component |
| DataStorages.DataStorage.SaveSet | Assets/Attributes/DataStorage/Scripts/Components/DataStorage.cs:59-62 | The save walk over one set's fields, in order |
| DataStorages.DataStorage.Save | Assets/Attributes/DataStorage/Scripts/Components/DataStorage.cs:69-90 | A custom saver gets the list and nothing else happens; otherwise every pair is saved in `ForEach` order and the store is persisted once |
| DataStorages.DataStorage.SaveSets | Assets/Attributes/DataStorage/Scripts/Components/DataStorage.cs:77-87 | The default save's walk stores every pair's value in `ForEach` order |
| DataStorages.DataStorage.LoadSet | Assets/Attributes/DataStorage/Scripts/Components/DataStorage.cs:59-62 | The load walk over one set's fields, in order |
| DataStorages.DataStorage.Load | Assets/Attributes/DataStorage/Scripts/Components/DataStorage.cs:95-119 | A custom loader gets the list and no field changes; otherwise every pair is loaded in `ForEach` order |
| DataStorages.DataStorage.LoadSets | Assets/Attributes/DataStorage/Scripts/Components/DataStorage.cs:103-118 | The default load's walk loads every pair's stored value in `ForEach` order |
| DataStorages.DataStorage.AddDataSet | Assets/Attributes/DataStorage/Scripts/Components/DataStorage.cs:125-131 | A null set is ignored; any other is appended |
| DataStorages.DataStorage.SortData | Assets/Attributes/DataStorage/Scripts/Components/DataStorage.cs:138-146 | A null selector leaves the list alone; otherwise the list becomes a sorted permutation of itself |
| Ordering.SortBy | Assets/Attributes/DataStorage/Scripts/Components/DataStorage.cs:145 | The result is a permutation of the input, sorted by the key |
| Ordering.SortByStable | Assets/Attributes/DataStorage/Scripts/Components/DataStorage.cs:145 | The sort is stable: elements with equal keys keep their relative order |
| Engine.FindObjectsOfType | Assets/Attributes/DataStorage/Scripts/Components/DataCreator.cs:46 | Exactly the findable components (not destroyed, game object active) of the type or a subtype, each once, in index order |
| DataCreators.KeyFor | Assets/Attributes/DataStorage/Scripts/Components/DataCreator.cs:79-81 | The attribute's key when it is not empty, otherwise the generated key; never empty |
| DataCreators.DefaultKeysDiffer | Assets/Attributes/DataStorage/Scripts/Components/DataCreator.cs:79-81 | Two differently named fields of one component without explicit keys get different keys |
| DataCreators.RecordFor | Assets/Attributes/DataStorage/Scripts/Components/DataCreator.cs:78-83 | The field added for a handle has the handle's name, the chosen key and the handle |
| DataCreators.MergeFieldsKeeps | Assets/Attributes/DataStorage/Scripts/Components/DataCreator.cs:74-84 | Adding the fields keeps the old records in place, keeps names distinct and types known, and adds exactly the new names |
| DataCreators.FirstOwner | Assets/Attributes/DataStorage/Scripts/Components/DataCreator.cs:71 | The first set whose component is the given one, or none when no set has it |
| DataCreators.HarvestOneKeeps | Assets/Attributes/DataStorage/Scripts/Components/DataCreator.cs:67-88 | One component's step: a new set exactly when no set owns it; afterwards it owns a set holding every field name; ownership stays unique and names distinct |
| DataCreators.HarvestComponentsKeeps | Assets/Attributes/DataStorage/Scripts/Components/DataCreator.cs:46-57 | After the components loop every visited component owns a set holding the type's field names; invariants kept |
| DataCreators.HarvestTypeKeeps | Assets/Attributes/DataStorage/Scripts/Components/DataCreator.cs:38-58 | No marked fields changes nothing; otherwise every findable component of the type owns a set holding the fields; invariants kept |
| DataCreators.FreshHarvest | Assets/Attributes/DataStorage/Scripts/Components/DataCreator.cs:38-58 | Without a storage each found component gets a new set of its own, in order |
| DataCreators.HarvestAllKeeps | Assets/Attributes/DataStorage/Scripts/DataStorageController.cs:170-176 | Harvesting type after type keeps ownership unique, names distinct and types known |
| DataCreators.HarvestAllSound | Assets/Attributes/DataStorage/Scripts/Components/DataCreator.cs:38-58 | From no sets, every set the harvest of a type list makes belongs to a findable instance of one of the types with marked fields, and holds only names of marked fields of the types its component is an instance of |
| DataCreators.GetFieldInfos | Assets/Attributes/DataStorage/Scripts/Components/DataCreator.cs:95-112 | The loop yields exactly `TypeExtender.GetFieldInfos` |
| DataCreators.MergeInto | Assets/Attributes/DataStorage/Scripts/Components/DataCreator.cs:74-84 | The loop over the fields adds them to the set as `MergeFields` says |
| DataCreators.MergeIntoOwner | Assets/Attributes/DataStorage/Scripts/Components/DataCreator.cs:71-84 | Updating the first owner is the harvest step for a component that already has a set |
| DataCreators.NewOwnedSet | Assets/Attributes/DataStorage/Scripts/Components/DataCreator.cs:72-84 | A fresh set for an unowned component is the harvest step's new set |
| DataCreators.CreateDataSet | Assets/Attributes/DataStorage/Scripts/Components/DataCreator.cs:67-88 | Null exactly when the component already owns a set (that set is updated); otherwise a fresh set owned by it; either way one harvest step |
| DataCreators.CreateStep | Assets/Attributes/DataStorage/Scripts/Components/DataCreator.cs:48-56 | One iteration of `Create`'s loop: the harvest step over the storage's sets followed by the sets yielded so far |
| DataCreators.CreateAll | Assets/Attributes/DataStorage/Scripts/Components/DataCreator.cs:46-57 | The loop over the found components: storage sets plus yielded sets equal the components harvest; the yielded sets are fresh and distinct |
| DataCreators.Create | Assets/Attributes/DataStorage/Scripts/Components/DataCreator.cs:38-58 | Storage sets plus yielded sets equal the type's harvest; nothing is yielded for a type without marked fields |
| Controllers.Candidates | Assets/Attributes/DataStorage/Scripts/DataStorageController.cs:169 | The assembly types kept are exactly those inheriting from `MonoBehaviour` |
| Controllers.RebuiltKeeps | Assets/Attributes/DataStorage/Scripts/DataStorageController.cs:165-185 | After `Initialize` no component owns two sets, no set holds a name twice, every cached type is known |
| Controllers.RebuiltCovers | Assets/Attributes/DataStorage/Scripts/DataStorageController.cs:169-178 | Every findable component assignable to a harvested type owns a set holding all of that type's marked fields |
| Controllers.RebuiltSound | Assets/Attributes/DataStorage/Scripts/DataStorageController.cs:169-178 | The converse: every set after a rebuild belongs to a findable component some assembly type was harvested for, and every field it holds is named after a marked field of such a type |
| Controllers.RebuiltMerges | Assets/Attributes/DataStorage/Scripts/Components/DataCreator.cs:69-72 | A component reached through two types (its own and a base) has one single set holding the fields of both |
| Controllers.DataStorageController.constructor | Assets/Attributes/DataStorage/Scripts/DataStorageController.cs:77-93 | Defaults: load on awake, save on quit, initialize in the editor but not at runtime; no listeners; an empty storage |
| Controllers.DataStorageController.Configured | Assets/Attributes/DataStorage/Scripts/DataStorageController.cs:73-103 | The inspector settings are taken as given |
| Controllers.DataStorageController.Instance | Assets/Attributes/DataStorage/Scripts/DataStorageController.cs:26-37 | A cached instance is returned unchanged; otherwise the found controller is cached and returned |
| Controllers.DataStorageController.InitializesOnAwake | Assets/Attributes/DataStorage/Scripts/DataStorageController.cs:122-129 | Awake rebuilds exactly in the editor with the editor flag, or at runtime with the runtime flag |
| Controllers.DataStorageController.HarvestInto | Assets/Attributes/DataStorage/Scripts/DataStorageController.cs:172-175 | Adding the sets `Create` yields for one type gives that type's harvest; sets stay distinct objects; every set in the list afterwards was there before or is new |
| Controllers.DataStorageController.HarvestAt | Assets/Attributes/DataStorage/Scripts/DataStorageController.cs:170-176 | One turn of the loop over the assembly's types extends the harvest by that type exactly when it is a `MonoBehaviour` subclass; sets stay distinct, old or new |
| Controllers.DataStorageController.AddAll | Assets/Attributes/DataStorage/Scripts/DataStorageController.cs:172-175 | The yielded sets are appended in order |
| Controllers.DataStorageController.HarvestTypes | Assets/Attributes/DataStorage/Scripts/DataStorageController.cs:169-176 | The loop over the assembly's types leaves the harvest over the `MonoBehaviour` subclasses, all sets fresh and distinct |
| Controllers.DataStorageController.SortByName | Assets/Attributes/DataStorage/Scripts/DataStorageController.cs:178 | The registry is sorted by component name, the same sets in new order |
| Controllers.DataStorageController.Initialize | Assets/Attributes/DataStorage/Scripts/DataStorageController.cs:165-185 | The registry is cleared and rebuilt: its views are `Rebuilt(w)`, all sets fresh and distinct, all cached types known |
| Controllers.DataStorageController.Save | Assets/Attributes/DataStorage/Scripts/DataStorageController.cs:148-151 | Delegates to the storage's save |
| Controllers.DataStorageController.Load | Assets/Attributes/DataStorage/Scripts/DataStorageController.cs:156-159 | Delegates to the storage's load |
| Controllers.DataStorageController.InstallListeners | Assets/Attributes/DataStorage/Scripts/DataStorageController.cs:113-120 | A custom saver or loader is installed exactly for an event with persistent listeners |
| Controllers.DataStorageController.InitializeOnAwake | Assets/Attributes/DataStorage/Scripts/DataStorageController.cs:122-129 | Rebuilds when `InitializesOnAwake` holds, otherwise leaves the registry alone |
| Controllers.DataStorageController.LoadOnAwake | Assets/Attributes/DataStorage/Scripts/DataStorageController.cs:131-134 | Loads exactly when `loadOnAwake` is set |
| Controllers.DataStorageController.Awake | Assets/Attributes/DataStorage/Scripts/DataStorageController.cs:109-135 | Caches itself, installs listeners, rebuilds as the flags ask, then loads from the rebuilt registry when asked |
| Controllers.DataStorageController.OnApplicationQuit | Assets/Attributes/DataStorage/Scripts/DataStorageController.cs:137-143 | Saves exactly when `saveOnQuit` is set; otherwise neither the store nor the saver log changes |
| Scenario.ExampleInherits | Assets/Attributes/DataStorage/Example/TestClass2.cs:12 | `TestClass` and `TestClass2` both inherit from `MonoBehaviour`, and `TestClass2` is assignable to `TestClass` |
| Scenario.TestClassHarvested | Assets/Attributes/DataStorage/Example/TestClass.cs:29-38 | `TestClass` has marked fields and is harvested for the `TestClass2` component |
| Scenario.TestClass2Harvested | Assets/Attributes/DataStorage/Example/TestClass2.cs:34-42 | `TestClass2` has marked fields and is harvested for its own component |
| Scenario.HoldsTestClassNames | Assets/Attributes/DataStorage/Example/TestClass.cs:29-38 | A set holding `TestClass`'s fields records intVariable, floatVariable, test and str |
| Scenario.HoldsTestClass2Names | Assets/Attributes/DataStorage/Example/TestClass2.cs:34-42 | A set holding `TestClass2`'s fields records intVariable2, doubleVariable, unityTypesTest and ignoreTest |
| Scenario.PlayerMerged | Assets/Attributes/DataStorage/Scripts/Components/DataCreator.cs:67-88 | In the example scene the `TestClass2` component ends with exactly one set, holding all eight marked fields of both classes |

## Left out

- I/O and engine calls are parameters of the model:
  - `Application.companyName`, `productName`, `isEditor` and the active scene's name are fields of `AppInfo`;
  - `GetComponentsInParent` gives `ComponentInfo.parents`;
  - `Assembly.GetTypes` gives `World.assemblyTypes`;
  - `FindObjectOfType` is the `found` argument of `Instance`.
- The XML format and file handling of the default store are not modelled. `XmlStorage.Storage` is a map from (type, key) to value with a persist counter.
- `Debug.Log` messages, and the editor-only `Undo`/`EditorUtility` calls in `Initialize`, have no effect on the model.
- The custom `Saver`/`Loader` callbacks and the `IOEvent` listeners they invoke are opaque user code. The model records that a callback is installed and logs the list each call receives. What a callback does is not modelled, and listeners are counted rather than invoked.
- `GetTypeFromString` beyond its empty-name guard is modelled as a search of the known type table by full name. The assembly loading it does is not modelled.
- The binding flags are fixed to the declared-only instance binding the controller uses. Other flag combinations are not modelled.
- `AttributeUsage` (`AllowMultiple = false`, `Inherited = true`) is reflected only in that a field carries at most one marker.
- Engine.FindObjectsOfType: Unity does not specify the order in which the scene search returns components. The model fixes it as the order of `World.objects`, so it is not an input. Sets made by `Initialize` are sorted by name afterwards; only the relative order of equally named components depends on it.
- `ObjectExtender.GetName`'s expression-tree inspection is not modelled. The member name is an input.
- Controllers.DataStorageController.SortByName: `OrderBy` on `Component.name` uses culture-sensitive string comparison. The model sorts by ordinal character order. In the source the selector throws for a set whose component is null or destroyed. That case cannot arise right after `Initialize`: every set it sorts was just made for a component the scene search returned (`Controllers.RebuiltSound`). The selector `ComponentName` still needs some value for an unowned set, and gives "".
- DataStorages.DataStorage.SortData: the selector is restricted to string-valued keys. The source accepts any comparable key type.
- DataCreators.Create: the source returns a lazy iterator that the controller consumes while it adds each yielded set. The model computes the yielded list first and then adds it. The two agree because a yielded set is fresh and owns a component no earlier set owns, so adding it cannot change a later `FirstOrDefault` lookup.
- DataCreators.Create: requires the storage's sets to be distinct objects. The source does not check this; every list the controller builds satisfies it.
- DataFields.DataField.FieldType: the getter also writes the resolved type back into the cache. Because the type table is fixed, recomputing gives the same type, so the write is not modelled.
- DataFields.DataField.SetValue: the value is never null in the model. `Load` never passes null, because it skips a null stored value. Setting null directly, which the source allows for reference-type fields, is not modelled.
- DataFields.DataField.GetValue: a handle whose declaring type the component does not have throws in the source. The model reads the slot instead.
- Controllers.DataStorageController.Instance: Unity's overloaded `== null` for a destroyed controller is not modelled. Only a reference that was never set counts as null.
- DataStorages.DataStorage.Save: requires every cached field type to be a known type. This well-formedness fact holds for every field the model's constructors make.
- Controllers.DataStorageController.Awake: requires every cached field type to be a known type, for the same reason.
- The example's field types (`float`, `Rect`, nested classes and so on) are all `System.Int32` in the scenario. Field types play no part in the harvest.

## Findings

| source | as written | input that shows it | evidently intended | confidence | as-written member | corrected member |
|---|---|---|---|---|---|---|
| Assets/Attributes/Common/Scripts/ObjectExtender.cs:15 | `FullName.TrimStart(Namespace.ToCharArray())` removes every leading character that occurs anywhere in the namespace | type `a3geek.Attributes.DataStorage.Examples.Example`: every letter of `Example` occurs in the namespace, so the label for member `i` is `.i` | remove the namespace and its dot as a prefix, giving `Example.i` | not executed | ObjectExtender.CharacterSetTrimOverTrims | ObjectExtender.GetMyNameByPrefix |
