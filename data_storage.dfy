/**
 * Model of DataStorage.cs: the registry of field groups and its bulk save
 * and load.
 *
 * `ForEach` visits every (set, field) pair, sets in list order and fields
 * in list order within a set; `Save` and `Load` are that walk with the
 * validity check in front of each pair. A custom `Saver` or `Loader`
 * replaces the walk entirely; it is modelled as a flag that says one is
 * installed and a log of the lists it was handed.
 */
module DataStorages {
  import opened Wrappers
  import opened Reflection
  import opened Engine
  import opened DataFields
  import opened DataSets
  import opened XmlStore
  import Ordering
  import TypeExtender

  /** One (set, field) pair of the walk: the set's component and the field. */
  datatype Pair = Pair(component: Option<ComponentId>, field: DataField)

  /** The pairs of one set, in field order. */
  function PairsOf(s: DataSet): (ps: seq<Pair>)
    reads s
    ensures |ps| == |s.fields| && forall j :: 0 <= j < |ps| ==> ps[j] == Pair(s.component, s.fields[j])
  {
    seq(|s.fields|, j requires 0 <= j < |s.fields| reads s => Pair(s.component, s.fields[j]))
  }

  /** The pairs `ForEach` visits. */
  function Pairs(sets: seq<DataSet>): (ps: seq<Pair>)
    reads sets
  {
    if sets == [] then [] else Pairs(sets[..|sets| - 1]) + PairsOf(sets[|sets| - 1])
  }

  /** The pairs of one more set follow the pairs of the sets before it. */
  lemma PairsSnoc(sets: seq<DataSet>, i: nat)
    requires i < |sets|
    ensures Pairs(sets[..i + 1]) == Pairs(sets[..i]) + PairsOf(sets[i])
  {
    assert sets[..i + 1][..i] == sets[..i];
  }

  /** How many pairs the first `i` sets contribute. */
  function Offset(sets: seq<DataSet>, i: nat): nat
    requires i <= |sets|
    reads sets
  {
    if i == 0 then 0 else Offset(sets, i - 1) + |sets[i - 1].fields|
  }

  /**
   * `ForEach` visits every pair exactly once: the `j`-th field of the `i`-th
   * set is visited at position `Offset(i) + j`, after the fields of every
   * earlier set and of every earlier field of its own set.
   */
  lemma {:induction false} PairsAt(sets: seq<DataSet>, i: nat, j: nat)
    requires i < |sets| && j < |sets[i].fields|
    ensures |Pairs(sets)| == Offset(sets, |sets|)
    ensures Offset(sets, i) + j < Offset(sets, i + 1) <= |Pairs(sets)|
    ensures Pairs(sets)[Offset(sets, i) + j] == Pair(sets[i].component, sets[i].fields[j])
    decreases |sets|
  {
    var n := |sets| - 1;
    var front := sets[..n];
    PairsLength(sets);
    PairsLength(front);
    OffsetSame(front, sets, n);
    OffsetMonotone(sets, i + 1, |sets|);
    assert Pairs(sets) == Pairs(front) + PairsOf(sets[n]);
    if i < n {
      PairsAt(front, i, j);
      OffsetSame(front, sets, i);
      assert front[i] == sets[i];
    }
  }

  lemma {:induction false} PairsLength(sets: seq<DataSet>)
    ensures |Pairs(sets)| == Offset(sets, |sets|)
    decreases |sets|
  {
    if sets != [] {
      var n := |sets| - 1;
      PairsLength(sets[..n]);
      OffsetSame(sets[..n], sets, n);
    }
  }

  /** Offsets only depend on the sets before them. */
  lemma {:induction false} OffsetSame(a: seq<DataSet>, b: seq<DataSet>, k: nat)
    requires k <= |a| && k <= |b| && a[..k] == b[..k]
    ensures Offset(a, k) == Offset(b, k)
  {
    if k > 0 {
      assert a[k - 1] == a[..k][k - 1] == b[..k][k - 1] == b[k - 1];
      assert a[..k - 1] == a[..k][..k - 1];
      assert b[..k - 1] == b[..k][..k - 1];
      OffsetSame(a, b, k - 1);
    }
  }

  lemma {:induction false} OffsetMonotone(sets: seq<DataSet>, i: nat, j: nat)
    requires i <= j <= |sets|
    ensures Offset(sets, i) <= Offset(sets, j)
    decreases j - i
  {
    if i < j {
      OffsetMonotone(sets, i, j - 1);
    }
  }

  /** What the validity check settles for a pair: the handle, the type and the key it is stored under. */
  datatype Binding = Binding(info: FieldInfo, fieldType: Option<TypeId>, saveKey: string)

  /** The pairs the validity check skips before looking for a handle: empty name, empty key or null component. */
  predicate Skipped(w: World, p: Pair) {
    p.field.variableName == "" || p.field.saveKey == "" || IsNull(w, p.component)
  }

  /**
   * `CheckValidity` as a value: skipped pairs have no binding; a field with
   * a handle keeps it; a field without one (as deserialised) is re-bound to
   * the nearest declaration of its name in the component's base chain, and
   * has no binding when no type in that chain declares the name.
   */
  function Resolve(w: World, p: Pair): (b: Option<Binding>)
    requires ValidWorld(w)
    ensures Skipped(w, p) ==> b.None?
    ensures !Skipped(w, p) && p.field.fieldInfo.Some? ==>
      b == Some(Binding(p.field.fieldInfo.value, p.field.FieldType(w.types), p.field.saveKey))
    ensures !Skipped(w, p) && p.field.fieldInfo.None? ==>
      var c := TypeExtender.Chain(w.types, w.objects[p.component.value].runtimeType);
      (b.None? <==> forall k :: 0 <= k < |c| ==> TypeExtender.GetField(w.types, c[k], p.field.variableName).None?)
    ensures b.Some? ==> !Skipped(w, p) && b.value.saveKey == p.field.saveKey && b.value.fieldType == p.field.FieldType(w.types)
    ensures b.Some? && p.field.fieldInfo.None? ==>
      && b.value.info.decl.name == p.field.variableName
      && ValidFieldInfo(w.types, b.value.info)
      && IsAssignable(w.types, w.objects[p.component.value].runtimeType, b.value.info.declaringType)
  {
    if Skipped(w, p) then None
    else if p.field.fieldInfo.Some? then
      Some(Binding(p.field.fieldInfo.value, p.field.FieldType(w.types), p.field.saveKey))
    else
      var t := w.objects[p.component.value].runtimeType;
      TypeExtender.FindInChainNone(w.types, t, p.field.variableName);
      TypeExtender.FoundInParentsIsInherited(w.types, t, p.field.variableName);
      match TypeExtender.GetFieldInfoInParents(w.types, Some(t), p.field.variableName)
      case None => None
      case Some(fi) => Some(Binding(fi, p.field.FieldType(w.types), p.field.saveKey))
  }

  /** The store entry a valid pair is saved to and loaded from. */
  function KeyOf(w: World, p: Pair): StoreKey
    requires ValidWorld(w) && Resolve(w, p).Some?
  {
    StoreKey(Resolve(w, p).value.fieldType, Resolve(w, p).value.saveKey)
  }

  /** The component field a valid pair reads and writes. */
  function SlotOf(w: World, p: Pair): Slot
    requires ValidWorld(w) && Resolve(w, p).Some?
  {
    Slot(p.component.value, Resolve(w, p).value.info)
  }

  /** One pair of the default save: a valid pair's current value (null included) replaces its entry. */
  function SaveStep(w: World, values: Values, e: Entries, p: Pair): Entries
    requires ValidWorld(w)
  {
    if Resolve(w, p).None? then e else e[KeyOf(w, p) := Read(values, SlotOf(w, p))]
  }

  /** The entries after the default save has walked `ps` in order. */
  function SaveAll(w: World, values: Values, e: Entries, ps: seq<Pair>): Entries
    requires ValidWorld(w)
  {
    if ps == [] then e else SaveStep(w, values, SaveAll(w, values, e, ps[..|ps| - 1]), ps[|ps| - 1])
  }

  /**
   * One pair of the default load: a valid pair whose entry holds a value
   * has it written into the component, if reflection accepts it; a null
   * entry, or a refused write, leaves the field as it was.
   */
  function LoadStep(w: World, e: Entries, values: Values, p: Pair): Values
    requires ValidWorld(w)
  {
    if Resolve(w, p).None? then values
    else match Lookup(e, KeyOf(w, p))
      case None => values
      case Some(v) =>
        if Accepts(w, Resolve(w, p).value.info, p.component.value, v) then values[SlotOf(w, p) := v] else values
  }

  /** The field values after the default load has walked `ps` in order. */
  function LoadAll(w: World, e: Entries, values: Values, ps: seq<Pair>): Values
    requires ValidWorld(w)
  {
    if ps == [] then values else LoadStep(w, e, LoadAll(w, e, values, ps[..|ps| - 1]), ps[|ps| - 1])
  }

  /** Entries no valid pair is saved to keep what they held. */
  lemma {:induction false} SaveAllUntouched(w: World, values: Values, e: Entries, ps: seq<Pair>, k: StoreKey)
    requires ValidWorld(w)
    requires forall i :: 0 <= i < |ps| && Resolve(w, ps[i]).Some? ==> KeyOf(w, ps[i]) != k
    ensures k in SaveAll(w, values, e, ps) <==> k in e
    ensures k in e ==> SaveAll(w, values, e, ps)[k] == e[k]
  {
    if ps != [] {
      var n := |ps| - 1;
      assert forall i :: 0 <= i < n ==> ps[..n][i] == ps[i];
      SaveAllUntouched(w, values, e, ps[..n], k);
    }
  }

  /** An entry holds the value of the last valid pair saved to it. */
  lemma {:induction false} SaveAllLastWriter(w: World, values: Values, e: Entries, ps: seq<Pair>, i: nat)
    requires ValidWorld(w) && i < |ps| && Resolve(w, ps[i]).Some?
    requires forall j :: i < j < |ps| && Resolve(w, ps[j]).Some? ==> KeyOf(w, ps[j]) != KeyOf(w, ps[i])
    ensures KeyOf(w, ps[i]) in SaveAll(w, values, e, ps)
    ensures SaveAll(w, values, e, ps)[KeyOf(w, ps[i])] == Read(values, SlotOf(w, ps[i]))
  {
    var n := |ps| - 1;
    if i < n {
      assert forall j :: 0 <= j < n ==> ps[..n][j] == ps[j];
      SaveAllLastWriter(w, values, e, ps[..n], i);
    }
  }

  /** Valid pairs that share an entry also share the field they stand for. */
  predicate KeysFunctional(w: World, ps: seq<Pair>)
    requires ValidWorld(w)
  {
    forall i, j ::
      (0 <= i < |ps| && 0 <= j < |ps| && Resolve(w, ps[i]).Some? && Resolve(w, ps[j]).Some? &&
       KeyOf(w, ps[i]) == KeyOf(w, ps[j])) ==> SlotOf(w, ps[i]) == SlotOf(w, ps[j])
  }

  /** Every value held by a field is one reflection would accept for it. */
  predicate ValuesFit(w: World, values: Values)
    requires ValidWorld(w)
  {
    forall s :: s in values ==> Accepts(w, s.field, s.component, values[s])
  }

  /** When keys are functional, the entry of every valid pair holds that pair's current value. */
  lemma {:induction false} SavedIsCurrent(w: World, values: Values, e: Entries, ps: seq<Pair>, i: nat)
    requires ValidWorld(w) && KeysFunctional(w, ps) && i < |ps| && Resolve(w, ps[i]).Some?
    ensures Lookup(SaveAll(w, values, e, ps), KeyOf(w, ps[i])) == Read(values, SlotOf(w, ps[i]))
  {
    var n := |ps| - 1;
    if !(Resolve(w, ps[n]).Some? && KeyOf(w, ps[n]) == KeyOf(w, ps[i])) {
      var front := ps[..n];
      assert forall j :: 0 <= j < n ==> front[j] == ps[j];
      SavedIsCurrent(w, values, e, front, i);
    }
  }

  /** Loading entries that hold the fields' current values changes nothing. */
  lemma {:induction false} LoadCurrentIsIdentity(w: World, e: Entries, values: Values, ps: seq<Pair>)
    requires ValidWorld(w) && ValuesFit(w, values)
    requires forall i :: 0 <= i < |ps| && Resolve(w, ps[i]).Some? ==>
      Lookup(e, KeyOf(w, ps[i])) == Read(values, SlotOf(w, ps[i]))
    ensures LoadAll(w, e, values, ps) == values
  {
    if ps != [] {
      var n := |ps| - 1;
      assert forall j :: 0 <= j < n ==> ps[..n][j] == ps[j];
      LoadCurrentIsIdentity(w, e, values, ps[..n]);
      var p := ps[n];
      if Resolve(w, p).Some? && Lookup(e, KeyOf(w, p)).Some? {
        var s := SlotOf(w, p);
        assert s in values && Lookup(e, KeyOf(w, p)).value == values[s];
        assert values[s := values[s]] == values;
      }
    }
  }

  /**
   * Round trip: loading right after the default save leaves every field as
   * the save found it, provided no two fields share an entry and every
   * field holds a value of its type.
   */
  lemma LoadAfterSave(w: World, values: Values, e: Entries, ps: seq<Pair>)
    requires ValidWorld(w) && KeysFunctional(w, ps) && ValuesFit(w, values)
    ensures LoadAll(w, SaveAll(w, values, e, ps), values, ps) == values
  {
    var saved := SaveAll(w, values, e, ps);
    forall i | 0 <= i < |ps| && Resolve(w, ps[i]).Some?
      ensures Lookup(saved, KeyOf(w, ps[i])) == Read(values, SlotOf(w, ps[i]))
    {
      SavedIsCurrent(w, values, e, ps, i);
    }
    LoadCurrentIsIdentity(w, saved, values, ps);
  }

  /** A field no valid pair stands for is never written by the load. */
  lemma {:induction false} LoadAllUntouched(w: World, e: Entries, values: Values, ps: seq<Pair>, s: Slot)
    requires ValidWorld(w)
    requires forall i :: 0 <= i < |ps| && Resolve(w, ps[i]).Some? ==> SlotOf(w, ps[i]) != s
    ensures Read(LoadAll(w, e, values, ps), s) == Read(values, s)
  {
    if ps != [] {
      var n := |ps| - 1;
      assert forall j :: 0 <= j < n ==> ps[..n][j] == ps[j];
      LoadAllUntouched(w, e, values, ps[..n], s);
    }
  }

  lemma SaveAllSnoc(w: World, values: Values, e: Entries, ps: seq<Pair>, p: Pair)
    requires ValidWorld(w)
    ensures SaveAll(w, values, e, ps + [p]) == SaveStep(w, values, SaveAll(w, values, e, ps), p)
  {
    assert (ps + [p])[..|ps|] == ps;
  }

  /** Saving `a` then `b` is saving `a + b`. */
  lemma {:induction false} SaveAllAppend(w: World, values: Values, e: Entries, a: seq<Pair>, b: seq<Pair>)
    requires ValidWorld(w)
    ensures SaveAll(w, values, e, a + b) == SaveAll(w, values, SaveAll(w, values, e, a), b)
    decreases |b|
  {
    if b == [] {
      assert a + b == a;
    } else {
      var n := |b| - 1;
      assert (a + b)[..|a + b| - 1] == a + b[..n];
      SaveAllAppend(w, values, e, a, b[..n]);
    }
  }

  /** Loading `a` then `b` is loading `a + b`. */
  lemma {:induction false} LoadAllAppend(w: World, e: Entries, values: Values, a: seq<Pair>, b: seq<Pair>)
    requires ValidWorld(w)
    ensures LoadAll(w, e, values, a + b) == LoadAll(w, e, LoadAll(w, e, values, a), b)
    decreases |b|
  {
    if b == [] {
      assert a + b == a;
    } else {
      var n := |b| - 1;
      assert (a + b)[..|a + b| - 1] == a + b[..n];
      LoadAllAppend(w, e, values, a, b[..n]);
    }
  }

  lemma LoadAllSnoc(w: World, e: Entries, values: Values, ps: seq<Pair>, p: Pair)
    requires ValidWorld(w)
    ensures LoadAll(w, e, values, ps + [p]) == LoadStep(w, e, LoadAll(w, e, values, ps), p)
  {
    assert (ps + [p])[..|ps|] == ps;
  }

  /**
   * The registry: the list of sets, whether a custom `Saver` or `Loader` is
   * installed, and the lists handed to them.
   */
  class DataStorage {
    var data: seq<DataSet>
    var saver: bool
    var loader: bool
    /** The list passed to the custom saver on each call. */
    var saverCalls: seq<seq<DataSet>>
    /** The list passed to the custom loader on each call. */
    var loaderCalls: seq<seq<DataSet>>

    constructor ()
      ensures data == [] && !saver && !loader && saverCalls == [] && loaderCalls == []
    {
      data := [];
      saver := false;
      loader := false;
      saverCalls := [];
      loaderCalls := [];
    }

    /** Every cached field type in the registry is a known type. */
    predicate FieldsWellTyped(h: Hierarchy)
      reads this, data
    {
      forall i, j :: 0 <= i < |data| && 0 <= j < |data[i].fields| ==> data[i].fields[j].WellTyped(h)
    }

    /** Assigning the `Saver` delegate. */
    method InstallSaver()
      modifies this`saver
      ensures saver
    {
      saver := true;
    }

    /** Assigning the `Loader` delegate. */
    method InstallLoader()
      modifies this`loader
      ensures loader
    {
      loader := true;
    }

    /**
     * `CheckValidity(data, ref field)`: whether the pair is usable, and the
     * field to use in its place. A re-bound field is a new field carrying
     * the handle found, the same name, key and type; the set keeps the old.
     */
    method CheckValidity(w: World, s: DataSet, field: DataField) returns (ok: bool, bound: DataField)
      requires ValidWorld(w) && field.WellTyped(w.types)
      ensures ok <==> Resolve(w, Pair(s.component, field)).Some?
      ensures ok ==> bound.fieldInfo.Some?
      ensures ok ==> Resolve(w, Pair(s.component, field)) == Some(Binding(bound.fieldInfo.value, bound.FieldType(w.types), bound.saveKey))
      ensures bound.variableName == field.variableName && bound.WellTyped(w.types)
      ensures !ok || field.fieldInfo.Some? ==> bound == field
    {
      if field.variableName == "" || field.saveKey == "" || IsNull(w, s.component) {
        return false, field;
      }
      if field.fieldInfo.None? {
        var t := w.objects[s.component.value].runtimeType;
        var fi := TypeExtender.GetFieldInfoInParents(w.types, Some(t), field.variableName);
        if fi.None? {
          return false, field;
        }
        bound := new DataField.WithType(w.types, field.variableName, field.saveKey, fi, field.FieldType(w.types));
        return true, bound;
      }
      return true, field;
    }

    /** The action the default save applies to one pair. */
    method SaveField(w: World, scene: Scene, store: Storage, s: DataSet, field: DataField)
      requires ValidWorld(w) && field.WellTyped(w.types)
      modifies store`entries
      ensures store.entries == SaveStep(w, scene.values, old(store.entries), Pair(s.component, field))
    {
      var ok, bound := CheckValidity(w, s, field);
      if ok {
        var value := bound.GetValue(w, scene.values, s.component);
        store.Set(bound.FieldType(w.types), bound.saveKey, value);
      }
    }

    /** The action the default load applies to one pair. */
    method LoadField(w: World, scene: Scene, store: Storage, s: DataSet, field: DataField)
      requires ValidWorld(w) && field.WellTyped(w.types)
      modifies scene
      ensures scene.values == LoadStep(w, store.entries, old(scene.values), Pair(s.component, field))
    {
      var ok, bound := CheckValidity(w, s, field);
      if ok {
        var value := Lookup(store.entries, StoreKey(bound.FieldType(w.types), bound.saveKey));
        if value.Some? {
          var _ := bound.SetValue(w, scene, s.component, value.value);
        }
      }
    }

    /** The default save's walk over the fields of one set. */
    method SaveSet(w: World, scene: Scene, store: Storage, s: DataSet)
      requires ValidWorld(w) && forall j :: 0 <= j < |s.fields| ==> s.fields[j].WellTyped(w.types)
      modifies store`entries
      ensures store.entries == SaveAll(w, scene.values, old(store.entries), PairsOf(s))
    {
      var j := 0;
      while j < |s.fields|
        invariant 0 <= j <= |s.fields|
        invariant store.entries == SaveAll(w, scene.values, old(store.entries), PairsOf(s)[..j])
      {
        SaveField(w, scene, store, s, s.fields[j]);
        assert PairsOf(s)[..j + 1] == PairsOf(s)[..j] + [Pair(s.component, s.fields[j])];
        SaveAllSnoc(w, scene.values, old(store.entries), PairsOf(s)[..j], Pair(s.component, s.fields[j]));
        j := j + 1;
      }
      assert PairsOf(s)[..|s.fields|] == PairsOf(s);
    }

    /**
     * `Save()`: with a custom saver, the list is handed to it and nothing
     * else happens; otherwise every valid pair's value is stored, in walk
     * order, and the store is written out once.
     */
    method Save(w: World, scene: Scene, store: Storage)
      requires ValidWorld(w) && FieldsWellTyped(w.types)
      modifies this`saverCalls, store
      ensures saver ==> saverCalls == old(saverCalls) + [data] && store.entries == old(store.entries) && store.persisted == old(store.persisted)
      ensures !saver ==> saverCalls == old(saverCalls) && store.persisted == old(store.persisted) + 1
      ensures !saver ==> store.entries == SaveAll(w, scene.values, old(store.entries), Pairs(data))
    {
      if saver {
        saverCalls := saverCalls + [data];
        return;
      }
      SaveSets(w, scene, store);
      store.Save();
    }

    /** The default save's walk over every set, in list order. */
    method SaveSets(w: World, scene: Scene, store: Storage)
      requires ValidWorld(w) && FieldsWellTyped(w.types)
      modifies store`entries
      ensures store.entries == SaveAll(w, scene.values, old(store.entries), Pairs(data))
    {
      var i := 0;
      while i < |data|
        invariant 0 <= i <= |data|
        invariant store.entries == SaveAll(w, scene.values, old(store.entries), Pairs(data[..i]))
      {
        SaveSet(w, scene, store, data[i]);
        SaveAllAppend(w, scene.values, old(store.entries), Pairs(data[..i]), PairsOf(data[i]));
        PairsSnoc(data, i);
        i := i + 1;
      }
      assert data[..|data|] == data;
    }

    /** The default load's walk over the fields of one set. */
    method LoadSet(w: World, scene: Scene, store: Storage, s: DataSet)
      requires ValidWorld(w) && forall j :: 0 <= j < |s.fields| ==> s.fields[j].WellTyped(w.types)
      modifies scene
      ensures scene.values == LoadAll(w, store.entries, old(scene.values), PairsOf(s))
    {
      var j := 0;
      while j < |s.fields|
        invariant 0 <= j <= |s.fields|
        invariant scene.values == LoadAll(w, store.entries, old(scene.values), PairsOf(s)[..j])
      {
        LoadField(w, scene, store, s, s.fields[j]);
        assert PairsOf(s)[..j + 1] == PairsOf(s)[..j] + [Pair(s.component, s.fields[j])];
        LoadAllSnoc(w, store.entries, old(scene.values), PairsOf(s)[..j], Pair(s.component, s.fields[j]));
        j := j + 1;
      }
      assert PairsOf(s)[..|s.fields|] == PairsOf(s);
    }

    /**
     * `Load()`: with a custom loader, the list is handed to it and nothing
     * else happens; otherwise every valid pair whose entry holds a value has
     * it written back into its component, in walk order.
     */
    method Load(w: World, scene: Scene, store: Storage)
      requires ValidWorld(w) && FieldsWellTyped(w.types)
      modifies this`loaderCalls, scene
      ensures loader ==> loaderCalls == old(loaderCalls) + [data] && scene.values == old(scene.values)
      ensures !loader ==> loaderCalls == old(loaderCalls)
      ensures !loader ==> scene.values == LoadAll(w, store.entries, old(scene.values), Pairs(data))
    {
      if loader {
        loaderCalls := loaderCalls + [data];
        return;
      }
      LoadSets(w, scene, store);
    }

    /** The default load's walk over every set, in list order. */
    method LoadSets(w: World, scene: Scene, store: Storage)
      requires ValidWorld(w) && FieldsWellTyped(w.types)
      modifies scene
      ensures scene.values == LoadAll(w, store.entries, old(scene.values), Pairs(data))
    {
      var i := 0;
      while i < |data|
        invariant 0 <= i <= |data|
        invariant scene.values == LoadAll(w, store.entries, old(scene.values), Pairs(data[..i]))
      {
        LoadSet(w, scene, store, data[i]);
        LoadAllAppend(w, store.entries, old(scene.values), Pairs(data[..i]), PairsOf(data[i]));
        PairsSnoc(data, i);
        i := i + 1;
      }
      assert data[..|data|] == data;
    }

    /** `AddDataSet(set)`: a null set is ignored, any other is appended. */
    method AddDataSet(s: DataSet?)
      modifies this`data
      ensures s == null ==> data == old(data)
      ensures s != null ==> data == old(data) + [s]
    {
      if s != null {
        data := data + [s];
      }
    }

    /**
     * `SortData(selector)`: a null selector leaves the list alone; otherwise
     * the list is stably sorted by the selector's key.
     */
    method SortData(selector: Option<DataSet -> string>)
      modifies this`data
      ensures selector.None? ==> data == old(data)
      ensures selector.Some? ==> data == Ordering.SortBy(old(data), selector.value)
      ensures multiset(data) == multiset(old(data))
      ensures selector.Some? ==> Ordering.SortedBy(data, selector.value)
    {
      if selector.Some? {
        data := Ordering.SortBy(data, selector.value);
      }
    }
  }
}
