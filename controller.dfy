/**
 * Model of DataStorageController.cs: the scene component that owns the
 * registry, rebuilds it from the marked fields of the running scene, and
 * drives loading and saving from the engine's lifecycle messages.
 *
 * The rebuild is specified by `Rebuilt`: the harvest of every assembly type
 * that strictly inherits `MonoBehaviour`, in assembly order, starting from
 * an empty registry, then stably sorted by the owning game object's name.
 */
module Controllers {
  import opened Wrappers
  import opened Reflection
  import opened Engine
  import opened XmlStore
  import opened DataSets
  import opened DataStorages
  import opened DataCreators
  import Ordering
  import TypeExtender

  /**
   * The `Where` filter of `Initialize`: the types of `ts` that strictly
   * inherit `MonoBehaviour`, in their order.
   */
  function Candidates(w: World, ts: seq<TypeId>): (r: seq<TypeId>)
    requires ValidWorld(w) && forall i :: 0 <= i < |ts| ==> ts[i] < |w.types|
    ensures |r| <= |ts|
    ensures forall i :: 0 <= i < |r| ==> r[i] < |w.types| && r[i] in ts
    ensures forall i :: 0 <= i < |ts| ==> (ts[i] in r <==> TypeExtender.IsInheriting(w.types, ts[i], w.monoBehaviour))
  {
    if ts == [] then []
    else
      var n := |ts| - 1;
      var front := Candidates(w, ts[..n]);
      assert forall i :: 0 <= i < n ==> ts[..n][i] == ts[i];
      assert forall x :: x in ts <==> x in ts[..n] || x == ts[n];
      front + if TypeExtender.IsInheriting(w.types, ts[n], w.monoBehaviour) then [ts[n]] else []
  }

  /** `Component.name`: the name of the owning game object. */
  function ComponentName(w: World, c: Option<ComponentId>): string {
    if c.Some? && c.value < |w.objects| then w.objects[c.value].name else ""
  }

  /** The selector `Initialize` sorts by, on sets. */
  function SetNameKey(w: World): DataSet -> string {
    (s: DataSet) => ComponentName(w, s.component)
  }

  /** The same selector, on views. */
  function ViewNameKey(w: World): GroupView -> string {
    (g: GroupView) => ComponentName(w, g.component)
  }

  /** The registry `Initialize` builds, as views. */
  function Rebuilt(w: World): seq<GroupView>
    requires ValidWorld(w)
  {
    Ordering.SortBy(HarvestAll(w, [], Candidates(w, w.assemblyTypes)), ViewNameKey(w))
  }

  /** One more assembly type: harvested when it strictly inherits `MonoBehaviour`, skipped otherwise. */
  lemma CandidatesStep(w: World, ts: seq<TypeId>, i: nat)
    requires ValidWorld(w) && forall j :: 0 <= j < |ts| ==> ts[j] < |w.types|
    requires i < |ts|
    ensures TypeExtender.IsInheriting(w.types, ts[i], w.monoBehaviour) ==>
      HarvestAll(w, [], Candidates(w, ts[..i + 1])) ==
      HarvestType(w, HarvestAll(w, [], Candidates(w, ts[..i])), Some(ts[i]))
    ensures !TypeExtender.IsInheriting(w.types, ts[i], w.monoBehaviour) ==>
      HarvestAll(w, [], Candidates(w, ts[..i + 1])) == HarvestAll(w, [], Candidates(w, ts[..i]))
  {
    assert ts[..i + 1][..i] == ts[..i];
    var C := Candidates(w, ts[..i]);
    if TypeExtender.IsInheriting(w.types, ts[i], w.monoBehaviour) {
      assert Candidates(w, ts[..i + 1]) == C + [ts[i]];
      assert (C + [ts[i]])[..|C|] == C;
    } else {
      assert Candidates(w, ts[..i + 1]) == C;
    }
  }

  /** Harvesting a list of types in two parts is harvesting the first part, then the second. */
  lemma {:induction false} HarvestAllAppend(w: World, G: seq<GroupView>, a: seq<TypeId>, b: seq<TypeId>)
    requires ValidWorld(w)
    requires forall i :: 0 <= i < |a| ==> a[i] < |w.types|
    requires forall i :: 0 <= i < |b| ==> b[i] < |w.types|
    ensures HarvestAll(w, G, a + b) == HarvestAll(w, HarvestAll(w, G, a), b)
  {
    if b == [] {
      assert a + b == a;
    } else {
      var n := |b| - 1;
      assert (a + b)[..|a + b| - 1] == a + b[..n];
      HarvestAllAppend(w, G, a, b[..n]);
    }
  }

  /** The views of a set in front of a list. */
  lemma ViewsCons(x: DataSet, s: seq<DataSet>)
    ensures Views([x] + s) == [x.View()] + Views(s)
  {
  }

  /** Inserting a set and taking the views is inserting its view among the views. */
  lemma {:induction false} ViewsInsert(w: World, x: DataSet, s: seq<DataSet>)
    ensures Views(Ordering.Insert(x, s, SetNameKey(w))) == Ordering.Insert(x.View(), Views(s), ViewNameKey(w))
  {
    var K, VK := SetNameKey(w), ViewNameKey(w);
    assert VK(x.View()) == K(x);
    if s == [] {
      ViewsCons(x, s);
    } else {
      assert s == [s[0]] + s[1..];
      ViewsCons(s[0], s[1..]);
      assert VK(Views(s)[0]) == K(s[0]);
      if !Ordering.Below(K(s[0]), K(x)) {
        ViewsCons(x, s);
      } else {
        var rest := Ordering.Insert(x, s[1..], K);
        ViewsInsert(w, x, s[1..]);
        ViewsCons(s[0], rest);
      }
    }
  }

  /** The views of a list without its first set. */
  lemma ViewsTail(s: seq<DataSet>)
    requires s != []
    ensures Views(s)[0] == s[0].View() && Views(s)[1..] == Views(s[1..])
  {
  }

  /** Sorting sets and taking the views is sorting the views. */
  lemma {:induction false} ViewsSorted(w: World, s: seq<DataSet>)
    ensures Views(Ordering.SortBy(s, SetNameKey(w))) == Ordering.SortBy(Views(s), ViewNameKey(w))
  {
    if s != [] {
      var K, VK := SetNameKey(w), ViewNameKey(w);
      var V := Views(s);
      ViewsSorted(w, s[1..]);
      ViewsInsert(w, s[0], Ordering.SortBy(s[1..], K));
      ViewsTail(s);
      Ordering.SortByCons(s, K);
      Ordering.SortByCons(V, VK);
    }
  }

  /** Inserting a set whose component has no other set keeps one set per component. */
  lemma {:induction false} InsertKeepsOwners(x: GroupView, s: seq<GroupView>, key: GroupView -> string)
    requires OwnersDistinct(s)
    requires x.component.Some? ==> forall j :: 0 <= j < |s| ==> s[j].component != x.component
    ensures OwnersDistinct(Ordering.Insert(x, s, key))
  {
    if s != [] && Ordering.Below(key(s[0]), key(x)) {
      var rest := Ordering.Insert(x, s[1..], key);
      InsertKeepsOwners(x, s[1..], key);
      forall j | 0 <= j < |rest| && s[0].component.Some?
        ensures rest[j].component != s[0].component
      {
        assert rest[j] in multiset(rest);
        if rest[j] != x {
          assert rest[j] in s[1..];
          var k :| 0 <= k < |s[1..]| && s[1..][k] == rest[j];
          assert s[k + 1] == rest[j];
        }
      }
      assert Ordering.Insert(x, s, key) == [s[0]] + rest;
    }
  }

  /** The sort keeps one set per component. */
  lemma {:induction false} SortKeepsOwners(G: seq<GroupView>, key: GroupView -> string)
    requires OwnersDistinct(G)
    ensures OwnersDistinct(Ordering.SortBy(G, key))
  {
    if G != [] {
      var rest := Ordering.SortBy(G[1..], key);
      SortKeepsOwners(G[1..], key);
      forall j | 0 <= j < |rest| && G[0].component.Some?
        ensures rest[j].component != G[0].component
      {
        assert rest[j] in multiset(G[1..]);
        var k :| 0 <= k < |G[1..]| && G[1..][k] == rest[j];
        assert G[k + 1] == rest[j];
      }
      InsertKeepsOwners(G[0], rest, key);
    }
  }

  /** Inserting a set not yet in the list keeps the list free of repeats. */
  lemma {:induction false} InsertKeepsDistinct(x: DataSet, s: seq<DataSet>, key: DataSet -> string)
    requires Distinct(s) && x !in s
    ensures Distinct(Ordering.Insert(x, s, key))
  {
    if s != [] && Ordering.Below(key(s[0]), key(x)) {
      var rest := Ordering.Insert(x, s[1..], key);
      assert x !in s[1..];
      InsertKeepsDistinct(x, s[1..], key);
      forall j | 0 <= j < |rest|
        ensures rest[j] != s[0]
      {
        assert rest[j] in multiset(rest);
        if rest[j] != x {
          assert rest[j] in s[1..];
          var k :| 0 <= k < |s[1..]| && s[1..][k] == rest[j];
          assert s[k + 1] == rest[j];
        }
      }
      assert Ordering.Insert(x, s, key) == [s[0]] + rest;
    }
  }

  /** The sort keeps a list of sets free of repeats. */
  lemma {:induction false} SortKeepsDistinct(S: seq<DataSet>, key: DataSet -> string)
    requires Distinct(S)
    ensures Distinct(Ordering.SortBy(S, key))
  {
    if S != [] {
      var rest := Ordering.SortBy(S[1..], key);
      SortKeepsDistinct(S[1..], key);
      forall j | 0 <= j < |rest|
        ensures rest[j] != S[0]
      {
        assert rest[j] in multiset(S[1..]);
        var k :| 0 <= k < |S[1..]| && S[1..][k] == rest[j];
        assert S[k + 1] == rest[j];
      }
      InsertKeepsDistinct(S[0], rest, key);
    }
  }

  /** Every set after the sort is one of the sets before it. */
  lemma SortedFrom(G: seq<GroupView>, key: GroupView -> string, i: nat)
    requires i < |Ordering.SortBy(G, key)|
    ensures exists k :: 0 <= k < |G| && G[k] == Ordering.SortBy(G, key)[i]
  {
    var r := Ordering.SortBy(G, key);
    assert r[i] in multiset(G);
  }

  /**
   * After a rebuild every component has at most one set, no set holds two
   * fields of the same name, and every cached field type is a known type.
   */
  lemma RebuiltKeeps(w: World)
    requires ValidWorld(w)
    ensures OwnersDistinct(Rebuilt(w))
    ensures AllNamesDistinct(Rebuilt(w))
    ensures RecordsTyped(w.types, Rebuilt(w))
  {
    var H := HarvestAll(w, [], Candidates(w, w.assemblyTypes));
    HarvestAllKeeps(w, [], Candidates(w, w.assemblyTypes));
    SortKeepsOwners(H, ViewNameKey(w));
    var r := Rebuilt(w);
    forall i | 0 <= i < |r|
      ensures NamesDistinct(r[i].records) && TypedRecords(w.types, r[i].records)
    {
      SortedFrom(H, ViewNameKey(w), i);
    }
  }

  /**
   * After a rebuild, every findable component of a harvested type that
   * declares marked fields has a set holding a field for each of them,
   * whichever type was harvested first.
   */
  lemma RebuiltCovers(w: World, k: nat, c: ComponentId)
    requires ValidWorld(w) && k < |w.assemblyTypes|
    requires TypeExtender.IsInheriting(w.types, w.assemblyTypes[k], w.monoBehaviour)
    requires TypeExtender.GetFieldInfos(w.types, Some(w.assemblyTypes[k])) != []
    requires Findable(w, c) && IsAssignable(w.types, w.objects[c].runtimeType, w.assemblyTypes[k])
    ensures Covered(Rebuilt(w), c, TypeExtender.GetFieldInfos(w.types, Some(w.assemblyTypes[k])))
  {
    var t := w.assemblyTypes[k];
    var fields := TypeExtender.GetFieldInfos(w.types, Some(t));
    var C := Candidates(w, w.assemblyTypes);
    var m :| 0 <= m < |C| && C[m] == t;
    HarvestedCovers(w, C, m, c);
    var H := HarvestAll(w, [], C);
    var j :| 0 <= j < |H| && H[j].component == Some(c) &&
      forall i :: 0 <= i < |fields| ==> HasName(H[j].records, fields[i].decl.name);
    SortKeepsCovered(H, ViewNameKey(w), c, fields, j);
  }

  /** The conditions under which `Initialize` gives a component the marked fields of assembly type `k`. */
  predicate HarvestedFor(w: World, k: nat, c: ComponentId)
    requires ValidWorld(w)
  {
    && k < |w.assemblyTypes|
    && TypeExtender.IsInheriting(w.types, w.assemblyTypes[k], w.monoBehaviour)
    && TypeExtender.GetFieldInfos(w.types, Some(w.assemblyTypes[k])) != []
    && Findable(w, c) && IsAssignable(w.types, w.objects[c].runtimeType, w.assemblyTypes[k])
  }

  /** Every marked field of assembly type `k` has a record of the same name in `g`. */
  predicate HoldsFieldsOf(w: World, k: nat, g: GroupView)
    requires ValidWorld(w) && k < |w.assemblyTypes|
  {
    var fields := TypeExtender.GetFieldInfos(w.types, Some(w.assemblyTypes[k]));
    forall i :: 0 <= i < |fields| ==> HasName(g.records, fields[i].decl.name)
  }

  /**
   * A component whose type derives from two harvested types has a single
   * set after a rebuild, holding the marked fields of both: whichever type
   * comes later merges into the set the earlier one created.
   */
  lemma RebuiltMerges(w: World, k1: nat, k2: nat, c: ComponentId)
    requires ValidWorld(w) && HarvestedFor(w, k1, c) && HarvestedFor(w, k2, c)
    ensures var R := Rebuilt(w);
      exists j :: 0 <= j < |R| && R[j].component == Some(c)
        && HoldsFieldsOf(w, k1, R[j]) && HoldsFieldsOf(w, k2, R[j])
        && forall i :: 0 <= i < |R| && R[i].component == Some(c) ==> i == j
  {
    var R := Rebuilt(w);
    RebuiltCovers(w, k1, c);
    RebuiltCovers(w, k2, c);
    RebuiltKeeps(w);
    var f1 := TypeExtender.GetFieldInfos(w.types, Some(w.assemblyTypes[k1]));
    var f2 := TypeExtender.GetFieldInfos(w.types, Some(w.assemblyTypes[k2]));
    var j1 :| 0 <= j1 < |R| && R[j1].component == Some(c) &&
      forall i :: 0 <= i < |f1| ==> HasName(R[j1].records, f1[i].decl.name);
    var j2 :| 0 <= j2 < |R| && R[j2].component == Some(c) &&
      forall i :: 0 <= i < |f2| ==> HasName(R[j2].records, f2[i].decl.name);
    assert j1 == j2;
    assert HoldsFieldsOf(w, k1, R[j1]) && HoldsFieldsOf(w, k2, R[j1]);
  }

  /** A type the `Where` filter keeps is an assembly type harvested for any findable instance of it. */
  lemma CandidateHarvested(w: World, m: nat, c: ComponentId)
    requires ValidWorld(w) && m < |Candidates(w, w.assemblyTypes)|
    requires Findable(w, c)
    requires IsAssignable(w.types, w.objects[c].runtimeType, Candidates(w, w.assemblyTypes)[m])
    requires TypeExtender.GetFieldInfos(w.types, Some(Candidates(w, w.assemblyTypes)[m])) != []
    ensures exists k: nat :: HarvestedFor(w, k, c) && w.assemblyTypes[k] == Candidates(w, w.assemblyTypes)[m]
  {
    var C := Candidates(w, w.assemblyTypes);
    var k :| 0 <= k < |w.assemblyTypes| && w.assemblyTypes[k] == C[m];
    assert HarvestedFor(w, k, c);
  }

  /**
   * The set `g` belongs to a component some assembly type was harvested
   * for, and each field it holds is named after a marked field of such a
   * type.
   */
  ghost predicate HarvestedView(w: World, g: GroupView)
    requires ValidWorld(w)
  {
    && g.component.Some?
    && (exists k: nat :: HarvestedFor(w, k, g.component.value))
    && forall n :: HasName(g.records, n) ==>
      exists k: nat :: HarvestedFor(w, k, g.component.value)
        && Named(TypeExtender.GetFieldInfos(w.types, Some(w.assemblyTypes[k])), n)
  }

  /** A set sound for the filtered assembly types is a harvested one. */
  lemma SoundIsHarvested(w: World, g: GroupView)
    requires ValidWorld(w) && SoundView(w, Candidates(w, w.assemblyTypes), g)
    ensures HarvestedView(w, g)
  {
    var C := Candidates(w, w.assemblyTypes);
    var c := g.component.value;
    var m :| 0 <= m < |C| && IsAssignable(w.types, w.objects[c].runtimeType, C[m])
      && TypeExtender.GetFieldInfos(w.types, Some(C[m])) != [];
    CandidateHarvested(w, m, c);
    forall n | HasName(g.records, n)
      ensures exists k: nat :: HarvestedFor(w, k, c) && Named(TypeExtender.GetFieldInfos(w.types, Some(w.assemblyTypes[k])), n)
    {
      var m' :| 0 <= m' < |C| && IsAssignable(w.types, w.objects[c].runtimeType, C[m'])
        && Named(TypeExtender.GetFieldInfos(w.types, Some(C[m'])), n);
      CandidateHarvested(w, m', c);
    }
  }

  /**
   * The converse of `RebuiltCovers`: after a rebuild every set belongs to a
   * findable component harvested for some assembly type, and every field
   * it holds is named after a marked field of such a type.
   */
  lemma RebuiltSound(w: World)
    requires ValidWorld(w)
    ensures forall i :: 0 <= i < |Rebuilt(w)| ==> HarvestedView(w, Rebuilt(w)[i])
  {
    var C := Candidates(w, w.assemblyTypes);
    var H := HarvestAll(w, [], C);
    var R := Rebuilt(w);
    HarvestAllSound(w, C);
    forall i | 0 <= i < |R| ensures HarvestedView(w, R[i]) {
      SortedFrom(H, ViewNameKey(w), i);
      var j :| 0 <= j < |H| && H[j] == R[i];
      SoundIsHarvested(w, H[j]);
    }
  }

  /** Harvesting a list of types covers every component of each type with marked fields. */
  lemma HarvestedCovers(w: World, C: seq<TypeId>, m: nat, c: ComponentId)
    requires ValidWorld(w) && forall i :: 0 <= i < |C| ==> C[i] < |w.types|
    requires m < |C| && TypeExtender.GetFieldInfos(w.types, Some(C[m])) != []
    requires Findable(w, c) && IsAssignable(w.types, w.objects[c].runtimeType, C[m])
    ensures Covered(HarvestAll(w, [], C), c, TypeExtender.GetFieldInfos(w.types, Some(C[m])))
  {
    var fields := TypeExtender.GetFieldInfos(w.types, Some(C[m]));
    var upto, after := C[..m + 1], C[m + 1..];
    var H1 := HarvestAll(w, [], upto);
    assert Covered(H1, c, fields) by {
      PrefixCovers(w, C, m, c);
    }
    assert HarvestAll(w, [], C) == HarvestAll(w, H1, after) by {
      assert C == upto + after;
      HarvestAllAppend(w, [], upto, after);
    }
    assert Extends(H1, HarvestAll(w, H1, after)) by {
      HarvestAllKeeps(w, H1, after);
    }
    CoveredExtends(H1, HarvestAll(w, H1, after), c, fields);
  }

  /** Harvesting up to a type with marked fields covers each of its components. */
  lemma PrefixCovers(w: World, C: seq<TypeId>, m: nat, c: ComponentId)
    requires ValidWorld(w) && forall i :: 0 <= i < |C| ==> C[i] < |w.types|
    requires m < |C| && TypeExtender.GetFieldInfos(w.types, Some(C[m])) != []
    requires Findable(w, c) && IsAssignable(w.types, w.objects[c].runtimeType, C[m])
    ensures Covered(HarvestAll(w, [], C[..m + 1]), c, TypeExtender.GetFieldInfos(w.types, Some(C[m])))
  {
    assert C[..m + 1][..m] == C[..m];
    HarvestTypeKeeps(w, HarvestAll(w, [], C[..m]), Some(C[m]));
  }

  /** A set holding the given names is still there after the sort. */
  lemma SortKeepsCovered(H: seq<GroupView>, key: GroupView -> string, c: ComponentId, fields: seq<FieldInfo>, j: nat)
    requires j < |H| && H[j].component == Some(c)
    requires forall i :: 0 <= i < |fields| ==> HasName(H[j].records, fields[i].decl.name)
    ensures Covered(Ordering.SortBy(H, key), c, fields)
  {
    var r := Ordering.SortBy(H, key);
    assert H[j] in multiset(r);
    var k :| 0 <= k < |r| && r[k] == H[j];
  }

  /** A registry whose views carry only known cached types has only well-typed fields. */
  lemma TypedFields(storage: DataStorage, h: Hierarchy)
    requires RecordsTyped(h, Views(storage.data))
    ensures storage.FieldsWellTyped(h)
  {
    forall i, j | 0 <= i < |storage.data| && 0 <= j < |storage.data[i].fields|
      ensures storage.data[i].fields[j].WellTyped(h)
    {
      assert Views(storage.data)[i].records[j] == storage.data[i].fields[j].Record();
    }
  }

  /** The views of two lists, one after the other. */
  lemma ViewsAppend(a: seq<DataSet>, b: seq<DataSet>)
    ensures Views(a + b) == Views(a) + Views(b)
  {
    assert forall i :: 0 <= i < |a + b| ==> Views(a + b)[i] == (Views(a) + Views(b))[i];
  }

  predicate DistinctSets(a: seq<DataSet>, b: seq<DataSet>) {
    forall i, j :: 0 <= i < |a| && 0 <= j < |b| ==> a[i] != b[j]
  }

  lemma DistinctAppend(a: seq<DataSet>, b: seq<DataSet>)
    requires Distinct(a) && Distinct(b) && DistinctSets(a, b)
    ensures Distinct(a + b)
  {
    forall i, j | 0 <= i < j < |a + b| ensures (a + b)[i] != (a + b)[j] {
      if j < |a| {
      } else if i >= |a| {
        assert (a + b)[i] == b[i - |a|] && (a + b)[j] == b[j - |a|];
      } else {
        assert (a + b)[j] == b[j - |a|];
      }
    }
  }

  class DataStorageController {
    /** Run `Load` from `Awake`. */
    const loadOnAwake: bool
    /** Run `Save` from `OnApplicationQuit`. */
    const saveOnQuit: bool
    /** Run `Initialize` from `Awake` outside the editor. */
    const initializeOnAwakeInRuntime: bool
    /** Run `Initialize` from `Awake` in the editor. */
    const initializeOnAwakeInEditor: bool
    /** The persistent listeners registered on the `saver` event. */
    const saverListeners: nat
    /** The persistent listeners registered on the `loader` event. */
    const loaderListeners: nat
    const storage: DataStorage
    /** The cache behind `Instance`. */
    var instance: DataStorageController?

    /** A controller as its field initialisers leave it. */
    constructor ()
      ensures loadOnAwake && saveOnQuit && !initializeOnAwakeInRuntime && initializeOnAwakeInEditor
      ensures saverListeners == 0 && loaderListeners == 0
      ensures fresh(storage) && storage.data == [] && !storage.saver && !storage.loader
      ensures storage.saverCalls == [] && storage.loaderCalls == []
      ensures instance == null
    {
      loadOnAwake := true;
      saveOnQuit := true;
      initializeOnAwakeInRuntime := false;
      initializeOnAwakeInEditor := true;
      saverListeners := 0;
      loaderListeners := 0;
      storage := new DataStorage();
      instance := null;
    }

    /** A controller whose settings and listeners were set in the inspector. */
    constructor Configured(loadOnAwake: bool, saveOnQuit: bool, initializeOnAwakeInRuntime: bool,
                           initializeOnAwakeInEditor: bool, saverListeners: nat, loaderListeners: nat)
      ensures this.loadOnAwake == loadOnAwake && this.saveOnQuit == saveOnQuit
      ensures this.initializeOnAwakeInRuntime == initializeOnAwakeInRuntime
      ensures this.initializeOnAwakeInEditor == initializeOnAwakeInEditor
      ensures this.saverListeners == saverListeners && this.loaderListeners == loaderListeners
      ensures fresh(storage) && storage.data == [] && !storage.saver && !storage.loader
      ensures storage.saverCalls == [] && storage.loaderCalls == []
      ensures instance == null
    {
      this.loadOnAwake := loadOnAwake;
      this.saveOnQuit := saveOnQuit;
      this.initializeOnAwakeInRuntime := initializeOnAwakeInRuntime;
      this.initializeOnAwakeInEditor := initializeOnAwakeInEditor;
      this.saverListeners := saverListeners;
      this.loaderListeners := loaderListeners;
      storage := new DataStorage();
      instance := null;
    }

    /**
     * The `Instance` getter: the cached controller when there is one;
     * otherwise `found`, the result of the scene search, which is cached.
     */
    method Instance(found: DataStorageController?) returns (r: DataStorageController?)
      modifies this`instance
      ensures old(instance) != null ==> r == old(instance) && instance == old(instance)
      ensures old(instance) == null ==> r == found && instance == found
    {
      if instance == null {
        instance := found;
      }
      r := instance;
    }

    /** Whether `Awake` rebuilds the registry in the editor (`isEditor`) or in a player build. */
    predicate InitializesOnAwake(isEditor: bool) {
      (isEditor && initializeOnAwakeInEditor) || (!isEditor && initializeOnAwakeInRuntime)
    }

    /**
     * One type of `Initialize`: every set `Create` yields for it is
     * appended to the registry, which the merges of later components and
     * types then see.
     */
    method HarvestInto(w: World, t: TypeId)
      requires ValidWorld(w) && t < |w.types|
      requires Distinct(storage.data)
      modifies storage`data, storage.data`fields
      ensures Views(storage.data) == HarvestType(w, old(Views(storage.data)), Some(t))
      ensures Distinct(storage.data)
      ensures forall j :: 0 <= j < |storage.data| ==> storage.data[j] in old(storage.data) || fresh(storage.data[j])
    {
      var yielded := Create(w, Some(t), storage);
      ghost var D := storage.data;
      assert D == old(storage.data);
      assert Distinct(D + yielded) by {
        forall i, j | 0 <= i < |D| && 0 <= j < |yielded|
          ensures D[i] != yielded[j]
        {
          assert old(allocated(D[i]));
        }
        DistinctAppend(D, yielded);
      }
      AddAll(yielded);
      assert Views(storage.data) == Views(D) + Views(yielded) by {
        ViewsAppend(D, yielded);
      }
      forall j | 0 <= j < |storage.data|
        ensures storage.data[j] in old(storage.data) || fresh(storage.data[j])
      {
        if storage.data[j] !in D {
          var k :| 0 <= k < |yielded| && yielded[k] == storage.data[j];
        }
      }
    }

    /** The inner loop of `Initialize`: each yielded set is handed to `AddDataSet`. */
    method AddAll(yielded: seq<DataSet>)
      modifies storage`data
      ensures storage.data == old(storage.data) + yielded
      ensures forall j :: 0 <= j < |storage.data| ==> storage.data[j] in old(storage.data) || storage.data[j] in yielded
    {
      for j := 0 to |yielded|
        invariant storage.data == old(storage.data) + yielded[..j]
      {
        storage.AddDataSet(yielded[j]);
        assert yielded[..j + 1] == yielded[..j] + [yielded[j]];
      }
      assert yielded[..|yielded|] == yielded;
      forall j | 0 <= j < |storage.data|
        ensures storage.data[j] in old(storage.data) || storage.data[j] in yielded
      {
        if j >= |old(storage.data)| {
          assert storage.data[j] == yielded[j - |old(storage.data)|];
        }
      }
    }

    /** The outer loop of `Initialize`: each assembly type that strictly inherits `MonoBehaviour` is harvested in turn. */
    method HarvestTypes(w: World)
      requires ValidWorld(w) && storage.data == []
      modifies storage`data
      ensures Views(storage.data) == HarvestAll(w, [], Candidates(w, w.assemblyTypes))
      ensures Distinct(storage.data) && forall j :: 0 <= j < |storage.data| ==> fresh(storage.data[j])
    {
      var ts := w.assemblyTypes;
      for i := 0 to |ts|
        invariant Views(storage.data) == HarvestAll(w, [], Candidates(w, ts[..i]))
        invariant Distinct(storage.data)
        invariant forall j :: 0 <= j < |storage.data| ==> fresh(storage.data[j])
      {
        HarvestAt(w, i);
      }
      assert ts[..|ts|] == ts;
    }

    /** One turn of the loop over the assembly types: the `i`-th type is harvested when the filter keeps it. */
    method HarvestAt(w: World, i: nat)
      requires ValidWorld(w) && i < |w.assemblyTypes|
      requires Views(storage.data) == HarvestAll(w, [], Candidates(w, w.assemblyTypes[..i]))
      requires Distinct(storage.data)
      modifies storage`data, storage.data`fields
      ensures Views(storage.data) == HarvestAll(w, [], Candidates(w, w.assemblyTypes[..i + 1]))
      ensures Distinct(storage.data)
      ensures forall j :: 0 <= j < |storage.data| ==> storage.data[j] in old(storage.data) || fresh(storage.data[j])
    {
      var ts := w.assemblyTypes;
      CandidatesStep(w, ts, i);
      if TypeExtender.IsInheriting(w.types, ts[i], w.monoBehaviour) {
        HarvestInto(w, ts[i]);
      }
    }

    /**
     * `Initialize()`: the registry is emptied, refilled from every assembly
     * type that strictly inherits `MonoBehaviour`, and sorted by component
     * name. No set of the earlier registry survives.
     */
    method Initialize(w: World)
      requires ValidWorld(w)
      modifies storage`data
      ensures Views(storage.data) == Rebuilt(w)
      ensures Distinct(storage.data) && forall s :: s in storage.data ==> fresh(s)
      ensures storage.FieldsWellTyped(w.types)
    {
      storage.data := [];
      HarvestTypes(w);
      SortByName(w);
      RebuiltKeeps(w);
      TypedFields(storage, w.types);
    }

    /** The last step of `Initialize`: the registry sorted by the name of each set's game object. */
    method SortByName(w: World)
      requires Distinct(storage.data)
      modifies storage`data
      ensures Views(storage.data) == Ordering.SortBy(old(Views(storage.data)), ViewNameKey(w))
      ensures Distinct(storage.data) && forall s :: s in storage.data ==> s in old(storage.data)
    {
      ghost var D := storage.data;
      storage.SortData(Some(SetNameKey(w)));
      SortKeepsDistinct(D, SetNameKey(w));
      ViewsSorted(w, D);
      forall s | s in storage.data
        ensures s in D
      {
        assert s in multiset(storage.data);
      }
    }

    /** `Save()`: the registry's save. */
    method Save(w: World, scene: Scene, store: Storage)
      requires ValidWorld(w) && storage.FieldsWellTyped(w.types)
      modifies storage`saverCalls, store
      ensures storage.saver ==> (storage.saverCalls == old(storage.saverCalls) + [storage.data]
        && store.entries == old(store.entries) && store.persisted == old(store.persisted))
      ensures !storage.saver ==> (storage.saverCalls == old(storage.saverCalls)
        && store.entries == SaveAll(w, scene.values, old(store.entries), Pairs(storage.data))
        && store.persisted == old(store.persisted) + 1)
    {
      storage.Save(w, scene, store);
    }

    /** `Load()`: the registry's load. */
    method Load(w: World, scene: Scene, store: Storage)
      requires ValidWorld(w) && storage.FieldsWellTyped(w.types)
      modifies storage`loaderCalls, scene
      ensures storage.loader ==> (storage.loaderCalls == old(storage.loaderCalls) + [storage.data]
        && scene.values == old(scene.values))
      ensures !storage.loader ==> (storage.loaderCalls == old(storage.loaderCalls)
        && scene.values == LoadAll(w, store.entries, old(scene.values), Pairs(storage.data)))
    {
      storage.Load(w, scene, store);
    }

    /**
     * `Awake()`: caches itself as the instance, installs a custom saver or
     * loader only for an event with persistent listeners, rebuilds the
     * registry as the settings ask for this kind of build, then loads when
     * `loadOnAwake` is set.
     */
    method Awake(w: World, scene: Scene, store: Storage)
      requires ValidWorld(w) && storage.FieldsWellTyped(w.types)
      modifies this`instance, storage`data, storage`saver, storage`loader, storage`loaderCalls, scene
      ensures instance == this
      ensures storage.saver == (old(storage.saver) || saverListeners > 0)
      ensures storage.loader == (old(storage.loader) || loaderListeners > 0)
      ensures InitializesOnAwake(w.app.isEditor) ==>
        Views(storage.data) == Rebuilt(w) && forall s :: s in storage.data ==> fresh(s)
      ensures !InitializesOnAwake(w.app.isEditor) ==> storage.data == old(storage.data)
      ensures !loadOnAwake ==> storage.loaderCalls == old(storage.loaderCalls) && scene.values == old(scene.values)
      ensures loadOnAwake && storage.loader ==>
        storage.loaderCalls == old(storage.loaderCalls) + [storage.data] && scene.values == old(scene.values)
      ensures loadOnAwake && !storage.loader ==> (storage.loaderCalls == old(storage.loaderCalls)
        && scene.values == LoadAll(w, store.entries, old(scene.values), Pairs(storage.data)))
    {
      instance := this;
      InstallListeners();
      InitializeOnAwake(w);
      LoadOnAwake(w, scene, store);
    }

    /** The first step of `Awake`: a custom saver or loader only for an event with persistent listeners. */
    method InstallListeners()
      modifies storage`saver, storage`loader
      ensures storage.saver == (old(storage.saver) || saverListeners > 0)
      ensures storage.loader == (old(storage.loader) || loaderListeners > 0)
    {
      if saverListeners > 0 {
        storage.InstallSaver();
      }
      if loaderListeners > 0 {
        storage.InstallLoader();
      }
    }

    /** The second step of `Awake`: a rebuild when the settings ask for one in this kind of build. */
    method InitializeOnAwake(w: World)
      requires ValidWorld(w) && storage.FieldsWellTyped(w.types)
      modifies storage`data
      ensures InitializesOnAwake(w.app.isEditor) ==>
        Views(storage.data) == Rebuilt(w) && forall s :: s in storage.data ==> fresh(s)
      ensures !InitializesOnAwake(w.app.isEditor) ==> storage.data == old(storage.data)
      ensures storage.FieldsWellTyped(w.types)
    {
      if w.app.isEditor && initializeOnAwakeInEditor {
        Initialize(w);
      } else if !w.app.isEditor && initializeOnAwakeInRuntime {
        Initialize(w);
      }
    }

    /** The last step of `Awake`: a load when `loadOnAwake` is set. */
    method LoadOnAwake(w: World, scene: Scene, store: Storage)
      requires ValidWorld(w) && storage.FieldsWellTyped(w.types)
      modifies storage`loaderCalls, scene
      ensures Views(storage.data) == old(Views(storage.data))
      ensures !loadOnAwake ==> storage.loaderCalls == old(storage.loaderCalls) && scene.values == old(scene.values)
      ensures loadOnAwake && storage.loader ==>
        storage.loaderCalls == old(storage.loaderCalls) + [storage.data] && scene.values == old(scene.values)
      ensures loadOnAwake && !storage.loader ==> (storage.loaderCalls == old(storage.loaderCalls)
        && scene.values == LoadAll(w, store.entries, old(scene.values), Pairs(storage.data)))
    {
      if loadOnAwake {
        Load(w, scene, store);
      }
    }

    /** `OnApplicationQuit()`: saves exactly when `saveOnQuit` is set. */
    method OnApplicationQuit(w: World, scene: Scene, store: Storage)
      requires ValidWorld(w) && storage.FieldsWellTyped(w.types)
      modifies storage`saverCalls, store
      ensures !saveOnQuit ==> (storage.saverCalls == old(storage.saverCalls)
        && store.entries == old(store.entries) && store.persisted == old(store.persisted))
      ensures saveOnQuit && storage.saver ==> (storage.saverCalls == old(storage.saverCalls) + [storage.data]
        && store.entries == old(store.entries) && store.persisted == old(store.persisted))
      ensures saveOnQuit && !storage.saver ==> (storage.saverCalls == old(storage.saverCalls)
        && store.entries == SaveAll(w, scene.values, old(store.entries), Pairs(storage.data))
        && store.persisted == old(store.persisted) + 1)
    {
      if saveOnQuit {
        Save(w, scene, store);
      }
    }
  }
}
