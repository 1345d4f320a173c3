/**
 * Model of DataCreator.cs: building field groups from the marked fields of
 * a type.
 *
 * For a type with marked fields, every component of that type the scene
 * search returns gets its fields: merged into the first set already registered for that
 * component, or into a new set that is handed back. The specification is
 * stated on views of the sets (`GroupView`): `HarvestOne` is the effect of
 * one component, `HarvestType` that of one type, with each new set appended
 * to the registry before the next component is visited, as the controller
 * does between the iterator's yields.
 */
module DataCreators {
  import opened Wrappers
  import opened Reflection
  import opened Engine
  import opened DataFields
  import opened DataSets
  import opened DataStorages
  import TypeExtender

  /** The conjunction used in generated save keys. */
  const ConjunctionOfName: string := "->"

  /** Field handles as the harvest passes them on: real declarations carrying the marker. */
  predicate MarkedFields(h: Hierarchy, fields: seq<FieldInfo>) {
    forall i :: 0 <= i < |fields| ==> ValidFieldInfo(h, fields[i]) && fields[i].decl.marker.Some?
  }

  /** A component that exists and has not been destroyed. */
  predicate Live(w: World, c: ComponentId) {
    c < |w.objects| && w.objects[c].alive
  }

  /**
   * The save key `CreateDataSet` gives a marked field: the marker's key when
   * it is not empty, the generated key (with `->`) otherwise. Either way it
   * is not empty, so the field always passes the validity check's key test.
   */
  function KeyFor(w: World, com: ComponentId, fi: FieldInfo): (r: string)
    requires ValidWorld(w) && com < |w.objects| && fi.decl.marker.Some?
    ensures r != ""
    ensures fi.decl.marker.value.Key != "" ==> r == fi.decl.marker.value.Key
  {
    if fi.decl.marker.value.Key == "" then SaveKeyFor(w, com, ConjunctionOfName, fi) else fi.decl.marker.value.Key
  }

  /** Two unkeyed marked fields of one component with different names get different save keys. */
  lemma DefaultKeysDiffer(w: World, com: ComponentId, f1: FieldInfo, f2: FieldInfo)
    requires ValidWorld(w) && com < |w.objects|
    requires f1.decl.marker == Some(Attributes.DataStorageAttribute(""))
    requires f2.decl.marker == Some(Attributes.DataStorageAttribute(""))
    requires f1.decl.name != f2.decl.name
    ensures KeyFor(w, com, f1) != KeyFor(w, com, f2)
  {
    SaveKeysDifferByField(w, com, ConjunctionOfName, f1, f2);
  }

  /** The record `AddField(field.Name, saveKey, field)` offers for a marked field. */
  function RecordFor(w: World, com: ComponentId, fi: FieldInfo): (r: FieldRecord)
    requires ValidWorld(w) && com < |w.objects| && ValidFieldInfo(w.types, fi) && fi.decl.marker.Some?
    ensures r.name == fi.decl.name && r.saveKey == KeyFor(w, com, fi) && r.info == Some(fi)
    ensures r.cachedType.Some? ==> r.cachedType.value < |w.types|
  {
    NewRecord(w.types, fi.decl.name, KeyFor(w, com, fi), Some(fi))
  }

  /** Some field in `fields` is named `n`. */
  predicate Named(fields: seq<FieldInfo>, n: string) {
    exists i :: 0 <= i < |fields| && fields[i].decl.name == n
  }

  lemma NamedLast(fields: seq<FieldInfo>, n: string)
    requires fields != []
    ensures Named(fields, n) <==> Named(fields[..|fields| - 1], n) || fields[|fields| - 1].decl.name == n
  {
    var m := |fields| - 1;
    if Named(fields, n) && fields[m].decl.name != n {
      var i :| 0 <= i < |fields| && fields[i].decl.name == n;
      assert fields[..m][i] == fields[i];
    }
    if Named(fields[..m], n) {
      var i :| 0 <= i < m && fields[..m][i].decl.name == n;
      assert fields[i] == fields[..m][i];
    }
  }

  /** Every cached type among the records is a known type. */
  predicate TypedRecords(h: Hierarchy, rs: seq<FieldRecord>) {
    forall j :: 0 <= j < |rs| ==> (rs[j].cachedType.Some? ==> rs[j].cachedType.value < |h|)
  }

  /**
   * The records of a set after the field loop of `CreateDataSet`: each
   * marked field offered in turn.
   */
  function MergeFields(w: World, com: ComponentId, rs: seq<FieldRecord>, fields: seq<FieldInfo>): seq<FieldRecord>
    requires ValidWorld(w) && com < |w.objects| && MarkedFields(w.types, fields)
  {
    if fields == [] then rs
    else
      var n := |fields| - 1;
      AddRecord(MergeFields(w, com, rs, fields[..n]), RecordFor(w, com, fields[n]))
  }

  /**
   * Records already in the set are kept as they are, so an earlier save key
   * wins; afterwards every marked field's name is present, names stay
   * distinct and cached types stay known.
   */
  lemma {:induction false} MergeFieldsKeeps(w: World, com: ComponentId, rs: seq<FieldRecord>, fields: seq<FieldInfo>)
    requires ValidWorld(w) && com < |w.objects| && MarkedFields(w.types, fields)
    ensures var out := MergeFields(w, com, rs, fields);
      && |rs| <= |out| && out[..|rs|] == rs
      && (NamesDistinct(rs) ==> NamesDistinct(out))
      && (forall n :: HasName(out, n) <==> HasName(rs, n) || Named(fields, n))
      && (TypedRecords(w.types, rs) ==> TypedRecords(w.types, out))
  {
    MergeFieldsShape(w, com, rs, fields);
    MergeFieldsNames(w, com, rs, fields);
  }

  /** The records offered earlier stay in front; distinct names and known cached types are kept. */
  lemma {:induction false} MergeFieldsShape(w: World, com: ComponentId, rs: seq<FieldRecord>, fields: seq<FieldInfo>)
    requires ValidWorld(w) && com < |w.objects| && MarkedFields(w.types, fields)
    ensures var out := MergeFields(w, com, rs, fields);
      && |rs| <= |out| && out[..|rs|] == rs
      && (NamesDistinct(rs) ==> NamesDistinct(out))
      && (TypedRecords(w.types, rs) ==> TypedRecords(w.types, out))
  {
    if fields != [] {
      var n := |fields| - 1;
      MergeFieldsShape(w, com, rs, fields[..n]);
      var front := MergeFields(w, com, rs, fields[..n]);
      var r := RecordFor(w, com, fields[n]);
      var out := AddRecord(front, r);
      assert out[..|rs|] == front[..|rs|];
      if TypedRecords(w.types, front) && |out| > |front| {
        assert out == front + [r];
      }
    }
  }

  /** The names present afterwards are the earlier ones and those of the marked fields. */
  lemma {:induction false} MergeFieldsNames(w: World, com: ComponentId, rs: seq<FieldRecord>, fields: seq<FieldInfo>)
    requires ValidWorld(w) && com < |w.objects| && MarkedFields(w.types, fields)
    ensures forall n :: HasName(MergeFields(w, com, rs, fields), n) <==> HasName(rs, n) || Named(fields, n)
  {
    if fields != [] {
      var n := |fields| - 1;
      MergeFieldsNames(w, com, rs, fields[..n]);
      var front := MergeFields(w, com, rs, fields[..n]);
      AddRecordNames(front, RecordFor(w, com, fields[n]));
      forall name ensures Named(fields, name) <==> Named(fields[..n], name) || fields[n].decl.name == name {
        NamedLast(fields, name);
      }
    }
  }

  lemma MergeFieldsStep(w: World, com: ComponentId, rs: seq<FieldRecord>, fields: seq<FieldInfo>, f: nat)
    requires ValidWorld(w) && com < |w.objects| && MarkedFields(w.types, fields) && f < |fields|
    ensures MarkedFields(w.types, fields[..f]) && MarkedFields(w.types, fields[..f + 1])
    ensures MergeFields(w, com, rs, fields[..f + 1]) == AddRecord(MergeFields(w, com, rs, fields[..f]), RecordFor(w, com, fields[f]))
  {
    assert fields[..f + 1][..f] == fields[..f];
  }

  /** Where `FirstOrDefault(d => d.Component == com)` finds its set, if anywhere. */
  function FirstOwner(G: seq<GroupView>, c: ComponentId): (k: Option<nat>)
    ensures k.Some? ==> k.value < |G| && G[k.value].component == Some(c)
    ensures k.Some? ==> forall j :: 0 <= j < k.value ==> G[j].component != Some(c)
    ensures k.None? ==> forall j :: 0 <= j < |G| ==> G[j].component != Some(c)
  {
    if G == [] then None
    else if G[0].component == Some(c) then Some(0)
    else
      match FirstOwner(G[1..], c)
      case None => None
      case Some(k) => Some(k + 1)
  }

  /** The set `CreateDataSet` makes for a component that has none yet. */
  function NewView(w: World, com: ComponentId, fields: seq<FieldInfo>): GroupView
    requires ValidWorld(w) && com < |w.objects| && MarkedFields(w.types, fields)
  {
    GroupView(Some(com), w.types[w.objects[com].runtimeType].fullName, MergeFields(w, com, [], fields))
  }

  /** No two sets belong to the same component. */
  predicate OwnersDistinct(G: seq<GroupView>) {
    forall i, j :: 0 <= i < j < |G| && G[i].component.Some? ==> G[i].component != G[j].component
  }

  /** No set holds two fields with the same name. */
  predicate AllNamesDistinct(G: seq<GroupView>) {
    forall i :: 0 <= i < |G| ==> NamesDistinct(G[i].records)
  }

  /** Every cached field type in the views is a known type. */
  predicate RecordsTyped(h: Hierarchy, G: seq<GroupView>) {
    forall i :: 0 <= i < |G| ==> TypedRecords(h, G[i].records)
  }

  /**
   * `r` only adds to `G`: every set keeps its place, its component, its
   * label and its records, which may be followed by new ones; new sets come
   * at the end.
   */
  predicate Extends(G: seq<GroupView>, r: seq<GroupView>) {
    && |G| <= |r|
    && forall j :: 0 <= j < |G| ==>
      && r[j].component == G[j].component && r[j].key == G[j].key
      && |G[j].records| <= |r[j].records| && r[j].records[..|G[j].records|] == G[j].records
  }

  lemma ExtendsTransitive(a: seq<GroupView>, b: seq<GroupView>, c: seq<GroupView>)
    requires Extends(a, b) && Extends(b, c)
    ensures Extends(a, c)
  {
    forall j | 0 <= j < |a|
      ensures c[j].records[..|a[j].records|] == a[j].records
    {
      assert c[j].records[..|a[j].records|] == c[j].records[..|b[j].records|][..|a[j].records|];
    }
  }

  /** Component `c` has a set that holds a field of every name in `fields`. */
  predicate Covered(G: seq<GroupView>, c: ComponentId, fields: seq<FieldInfo>) {
    exists k :: 0 <= k < |G| && G[k].component == Some(c) &&
      forall i :: 0 <= i < |fields| ==> HasName(G[k].records, fields[i].decl.name)
  }

  lemma CoveredExtends(G: seq<GroupView>, r: seq<GroupView>, c: ComponentId, fields: seq<FieldInfo>)
    requires Covered(G, c, fields) && Extends(G, r)
    ensures Covered(r, c, fields)
  {
    var k :| 0 <= k < |G| && G[k].component == Some(c) &&
      forall i :: 0 <= i < |fields| ==> HasName(G[k].records, fields[i].decl.name);
    forall i | 0 <= i < |fields|
      ensures HasName(r[k].records, fields[i].decl.name)
    {
      var m :| 0 <= m < |G[k].records| && G[k].records[m].name == fields[i].decl.name;
      assert r[k].records[m] == r[k].records[..|G[k].records|][m];
    }
  }

  /** The effect of merging into the set at `k`. */
  lemma MergeAtFacts(w: World, G: seq<GroupView>, k: nat, com: ComponentId, fields: seq<FieldInfo>)
    requires ValidWorld(w) && com < |w.objects| && MarkedFields(w.types, fields)
    requires k < |G| && G[k].component == Some(com)
    ensures var r := G[k := G[k].(records := MergeFields(w, com, G[k].records, fields))];
      && Extends(G, r)
      && Covered(r, com, fields)
      && (OwnersDistinct(G) ==> OwnersDistinct(r))
      && (AllNamesDistinct(G) ==> AllNamesDistinct(r))
      && (RecordsTyped(w.types, G) ==> RecordsTyped(w.types, r))
  {
    MergeFieldsKeeps(w, com, G[k].records, fields);
    var merged := MergeFields(w, com, G[k].records, fields);
    var r := G[k := G[k].(records := merged)];
    forall i | 0 <= i < |fields| ensures HasName(r[k].records, fields[i].decl.name) {
      assert Named(fields, fields[i].decl.name);
    }
  }

  /** A new set for `com` has no two fields of one name, known cached types and every marked field's name. */
  lemma NewViewFacts(w: World, com: ComponentId, fields: seq<FieldInfo>)
    requires ValidWorld(w) && com < |w.objects| && MarkedFields(w.types, fields)
    ensures var v := NewView(w, com, fields);
      && v.component == Some(com)
      && NamesDistinct(v.records) && TypedRecords(w.types, v.records)
      && forall i :: 0 <= i < |fields| ==> HasName(v.records, fields[i].decl.name)
  {
    MergeFieldsKeeps(w, com, [], fields);
    var v := NewView(w, com, fields);
    forall i | 0 <= i < |fields| ensures HasName(v.records, fields[i].decl.name) {
      assert Named(fields, fields[i].decl.name);
    }
  }

  /** The effect of appending a set `v` for a component that had none. */
  lemma AppendFacts(h: Hierarchy, G: seq<GroupView>, v: GroupView, com: ComponentId, fields: seq<FieldInfo>)
    requires forall j :: 0 <= j < |G| ==> G[j].component != Some(com)
    requires v.component == Some(com) && NamesDistinct(v.records) && TypedRecords(h, v.records)
    requires forall i :: 0 <= i < |fields| ==> HasName(v.records, fields[i].decl.name)
    ensures var r := G + [v];
      && Extends(G, r)
      && Covered(r, com, fields)
      && (OwnersDistinct(G) ==> OwnersDistinct(r))
      && (AllNamesDistinct(G) ==> AllNamesDistinct(r))
      && (RecordsTyped(h, G) ==> RecordsTyped(h, r))
  {
    var r := G + [v];
    assert r[|G|] == v;
  }

  /** Each invariant of the views that `G` has, `r` has too. */
  predicate Kept(h: Hierarchy, G: seq<GroupView>, r: seq<GroupView>) {
    && (OwnersDistinct(G) ==> OwnersDistinct(r))
    && (AllNamesDistinct(G) ==> AllNamesDistinct(r))
    && (RecordsTyped(h, G) ==> RecordsTyped(h, r))
  }

  /**
   * One component of `Create`, followed by the append of the set it yields:
   * the fields are merged into the component's first set when there is
   * one, otherwise a new set for the component goes at the end.
   */
  function HarvestOne(w: World, G: seq<GroupView>, com: ComponentId, fields: seq<FieldInfo>): seq<GroupView>
    requires ValidWorld(w) && com < |w.objects| && MarkedFields(w.types, fields)
  {
    match FirstOwner(G, com)
    case Some(k) => G[k := G[k].(records := MergeFields(w, com, G[k].records, fields))]
    case None => G + [NewView(w, com, fields)]
  }

  /**
   * One component only adds to the sets: a new set exactly when the
   * component had none; afterwards the component has a set holding every
   * marked field; the invariants are kept.
   */
  lemma HarvestOneKeeps(w: World, G: seq<GroupView>, com: ComponentId, fields: seq<FieldInfo>)
    requires ValidWorld(w) && com < |w.objects| && MarkedFields(w.types, fields)
    ensures var r := HarvestOne(w, G, com, fields);
      && Extends(G, r) && |r| <= |G| + 1
      && (|r| == |G| + 1 <==> FirstOwner(G, com).None?)
      && Covered(r, com, fields)
      && Kept(w.types, G, r)
  {
    match FirstOwner(G, com)
    case Some(k) => MergeAtFacts(w, G, k, com, fields);
    case None =>
      NewViewFacts(w, com, fields);
      AppendFacts(w.types, G, NewView(w, com, fields), com, fields);
  }

  /** Components covered before a step that only adds stay covered. */
  lemma StillCovered(front: seq<GroupView>, r: seq<GroupView>, prev: seq<ComponentId>, comps: seq<ComponentId>, fields: seq<FieldInfo>)
    requires comps != [] && prev == comps[..|comps| - 1]
    requires Extends(front, r) && Covered(r, comps[|comps| - 1], fields)
    requires forall i :: 0 <= i < |prev| ==> Covered(front, prev[i], fields)
    ensures forall i :: 0 <= i < |comps| ==> Covered(r, comps[i], fields)
  {
    forall i | 0 <= i < |comps| ensures Covered(r, comps[i], fields) {
      if i < |prev| {
        assert prev[i] == comps[i];
        CoveredExtends(front, r, comps[i], fields);
      }
    }
  }

  /** The components of one type, each harvested in turn. */
  function HarvestComponents(w: World, G: seq<GroupView>, comps: seq<ComponentId>, fields: seq<FieldInfo>): seq<GroupView>
    requires ValidWorld(w) && MarkedFields(w.types, fields)
    requires forall i :: 0 <= i < |comps| ==> comps[i] < |w.objects|
  {
    if comps == [] then G
    else HarvestOne(w, HarvestComponents(w, G, comps[..|comps| - 1], fields), comps[|comps| - 1], fields)
  }

  /** One more component of the list. */
  lemma HarvestComponentsStep(w: World, G: seq<GroupView>, comps: seq<ComponentId>, i: nat, fields: seq<FieldInfo>)
    requires ValidWorld(w) && MarkedFields(w.types, fields)
    requires forall j :: 0 <= j < |comps| ==> comps[j] < |w.objects|
    requires i < |comps|
    ensures HarvestComponents(w, G, comps[..i + 1], fields) ==
      HarvestOne(w, HarvestComponents(w, G, comps[..i], fields), comps[i], fields)
  {
    assert comps[..i + 1][..i] == comps[..i];
  }

  /** After the components of a list, each of them has a set holding every marked field; only additions, invariants kept. */
  lemma {:induction false} HarvestComponentsKeeps(w: World, G: seq<GroupView>, comps: seq<ComponentId>, fields: seq<FieldInfo>)
    requires ValidWorld(w) && MarkedFields(w.types, fields)
    requires forall i :: 0 <= i < |comps| ==> comps[i] < |w.objects|
    ensures var r := HarvestComponents(w, G, comps, fields);
      && Extends(G, r)
      && (forall i :: 0 <= i < |comps| ==> Covered(r, comps[i], fields))
      && Kept(w.types, G, r)
  {
    if comps != [] {
      var n := |comps| - 1;
      HarvestComponentsKeeps(w, G, comps[..n], fields);
      var front := HarvestComponents(w, G, comps[..n], fields);
      HarvestOneKeeps(w, front, comps[n], fields);
      var r := HarvestOne(w, front, comps[n], fields);
      ExtendsTransitive(G, front, r);
      StillCovered(front, r, comps[..n], comps, fields);
    }
  }

  lemma MarkedFieldInfos(h: Hierarchy, t: Option<TypeId>)
    requires t.Some? ==> t.value < |h|
    ensures MarkedFields(h, TypeExtender.GetFieldInfos(h, t))
  {
    var fields := TypeExtender.GetFieldInfos(h, t);
    forall i | 0 <= i < |fields| ensures ValidFieldInfo(h, fields[i]) && fields[i].decl.marker.Some? {
      assert fields[i] in fields;
    }
  }

  lemma FoundObjectsExist(w: World, t: TypeId)
    requires ValidWorld(w)
    ensures var comps := FindObjectsOfType(w, t);
      forall i :: 0 <= i < |comps| ==> Live(w, comps[i])
  {
    var comps := FindObjectsOfType(w, t);
    forall i | 0 <= i < |comps| ensures Live(w, comps[i]) {
      assert comps[i] in comps;
    }
  }

  /**
   * `Create(type, storage)` followed by appending what it yields: nothing
   * for a type without marked fields, otherwise every findable component
   * of the type (derived types included) in turn.
   */
  function HarvestType(w: World, G: seq<GroupView>, t: Option<TypeId>): seq<GroupView>
    requires ValidWorld(w) && (t.Some? ==> t.value < |w.types|)
  {
    var fields := TypeExtender.GetFieldInfos(w.types, t);
    MarkedFieldInfos(w.types, t);
    if fields == [] then G
    else
      FoundObjectsExist(w, t.value);
      HarvestComponents(w, G, FindObjectsOfType(w, t.value), fields)
  }

  /**
   * A type without marked fields changes nothing; otherwise every findable
   * component of the type ends up with a set holding all of them. Only
   * additions; invariants kept.
   */
  lemma HarvestTypeKeeps(w: World, G: seq<GroupView>, t: Option<TypeId>)
    requires ValidWorld(w) && (t.Some? ==> t.value < |w.types|)
    ensures var r := HarvestType(w, G, t);
      && Extends(G, r)
      && (TypeExtender.GetFieldInfos(w.types, t) == [] ==> r == G)
      && Kept(w.types, G, r)
    ensures TypeExtender.GetFieldInfos(w.types, t) != [] ==>
      forall c: ComponentId :: Findable(w, c) && IsAssignable(w.types, w.objects[c].runtimeType, t.value) ==>
        Covered(HarvestType(w, G, t), c, TypeExtender.GetFieldInfos(w.types, t))
  {
    var fields := TypeExtender.GetFieldInfos(w.types, t);
    MarkedFieldInfos(w.types, t);
    if fields != [] {
      var comps := FindObjectsOfType(w, t.value);
      FoundObjectsExist(w, t.value);
      HarvestComponentsKeeps(w, G, comps, fields);
      forall c: ComponentId | Findable(w, c) && IsAssignable(w.types, w.objects[c].runtimeType, t.value)
        ensures Covered(HarvestType(w, G, t), c, fields)
      {
        assert c in comps;
        var i :| 0 <= i < |comps| && comps[i] == c;
      }
    }
  }

  /** Several types harvested in turn, each seeing the sets the earlier ones left. */
  function HarvestAll(w: World, G: seq<GroupView>, ts: seq<TypeId>): seq<GroupView>
    requires ValidWorld(w) && forall i :: 0 <= i < |ts| ==> ts[i] < |w.types|
  {
    if ts == [] then G else HarvestType(w, HarvestAll(w, G, ts[..|ts| - 1]), Some(ts[|ts| - 1]))
  }

  /** Harvesting several types only adds to the sets and keeps the invariants. */
  lemma {:induction false} HarvestAllKeeps(w: World, G: seq<GroupView>, ts: seq<TypeId>)
    requires ValidWorld(w) && forall i :: 0 <= i < |ts| ==> ts[i] < |w.types|
    ensures Extends(G, HarvestAll(w, G, ts)) && Kept(w.types, G, HarvestAll(w, G, ts))
  {
    if ts != [] {
      var n := |ts| - 1;
      HarvestAllKeeps(w, G, ts[..n]);
      var front := HarvestAll(w, G, ts[..n]);
      HarvestTypeKeeps(w, front, Some(ts[n]));
      ExtendsTransitive(G, front, HarvestAll(w, G, ts));
    }
  }

  /**
   * Component `c` is found by the scene search and is an instance of some
   * type of `ts` that declares marked fields.
   */
  predicate OwnedFrom(w: World, ts: seq<TypeId>, c: ComponentId)
    requires ValidWorld(w) && forall i :: 0 <= i < |ts| ==> ts[i] < |w.types|
  {
    && Findable(w, c)
    && (exists m :: 0 <= m < |ts| &&
          IsAssignable(w.types, w.objects[c].runtimeType, ts[m]) && TypeExtender.GetFieldInfos(w.types, Some(ts[m])) != [])
  }

  /** Some type of `ts` that `c` is an instance of declares a marked field named `n`. */
  predicate NamedFrom(w: World, ts: seq<TypeId>, c: ComponentId, n: string)
    requires ValidWorld(w) && forall i :: 0 <= i < |ts| ==> ts[i] < |w.types|
    requires c < |w.objects|
  {
    exists m :: 0 <= m < |ts| &&
      IsAssignable(w.types, w.objects[c].runtimeType, ts[m]) && Named(TypeExtender.GetFieldInfos(w.types, Some(ts[m])), n)
  }

  /** The set `g` belongs to a component harvested for one of `ts`, and each of its names comes from those types. */
  ghost predicate SoundView(w: World, ts: seq<TypeId>, g: GroupView)
    requires ValidWorld(w) && forall i :: 0 <= i < |ts| ==> ts[i] < |w.types|
  {
    && g.component.Some? && OwnedFrom(w, ts, g.component.value)
    && forall n :: HasName(g.records, n) ==> NamedFrom(w, ts, g.component.value, n)
  }

  ghost predicate SoundViews(w: World, ts: seq<TypeId>, G: seq<GroupView>)
    requires ValidWorld(w) && forall i :: 0 <= i < |ts| ==> ts[i] < |w.types|
  {
    forall i :: 0 <= i < |G| ==> SoundView(w, ts, G[i])
  }

  /** What holds for the types of a prefix holds for the whole list. */
  lemma SoundWiden(w: World, ts: seq<TypeId>, n: nat, G: seq<GroupView>)
    requires ValidWorld(w) && forall i :: 0 <= i < |ts| ==> ts[i] < |w.types|
    requires n <= |ts| && SoundViews(w, ts[..n], G)
    ensures SoundViews(w, ts, G)
  {
    var a := ts[..n];
    forall i | 0 <= i < |G| ensures SoundView(w, ts, G[i]) {
      var c := G[i].component.value;
      var m :| 0 <= m < |a| && IsAssignable(w.types, w.objects[c].runtimeType, a[m])
        && TypeExtender.GetFieldInfos(w.types, Some(a[m])) != [];
      assert a[m] == ts[m];
      forall name | HasName(G[i].records, name) ensures NamedFrom(w, ts, c, name) {
        var m' :| 0 <= m' < |a| && IsAssignable(w.types, w.objects[c].runtimeType, a[m'])
          && Named(TypeExtender.GetFieldInfos(w.types, Some(a[m'])), name);
        assert a[m'] == ts[m'];
      }
    }
  }

  /**
   * Harvesting a findable instance of `ts[m]` with that type's marked fields
   * keeps every set sound: the merged names are the old ones and the type's.
   */
  lemma HarvestOneSound(w: World, ts: seq<TypeId>, m: nat, G: seq<GroupView>, com: ComponentId)
    requires ValidWorld(w) && forall i :: 0 <= i < |ts| ==> ts[i] < |w.types|
    requires m < |ts| && TypeExtender.GetFieldInfos(w.types, Some(ts[m])) != []
    requires Findable(w, com) && IsAssignable(w.types, w.objects[com].runtimeType, ts[m])
    requires SoundViews(w, ts, G)
    ensures MarkedFields(w.types, TypeExtender.GetFieldInfos(w.types, Some(ts[m])))
    ensures SoundViews(w, ts, HarvestOne(w, G, com, TypeExtender.GetFieldInfos(w.types, Some(ts[m]))))
  {
    var fields := TypeExtender.GetFieldInfos(w.types, Some(ts[m]));
    MarkedFieldInfos(w.types, Some(ts[m]));
    var r := HarvestOne(w, G, com, fields);
    assert OwnedFrom(w, ts, com);
    match FirstOwner(G, com)
    case Some(k) =>
      MergeFieldsKeeps(w, com, G[k].records, fields);
      forall i | 0 <= i < |r| ensures SoundView(w, ts, r[i]) {
        if i == k {
          forall name | HasName(r[k].records, name) ensures NamedFrom(w, ts, com, name) {
            if !HasName(G[k].records, name) {
              assert Named(fields, name);
            }
          }
        } else {
          assert r[i] == G[i];
        }
      }
    case None =>
      MergeFieldsKeeps(w, com, [], fields);
      forall i | 0 <= i < |r| ensures SoundView(w, ts, r[i]) {
        if i < |G| {
          assert r[i] == G[i];
        } else {
          assert r[i] == NewView(w, com, fields);
          forall name | HasName(r[i].records, name) ensures NamedFrom(w, ts, com, name) {
            assert Named(fields, name);
          }
        }
      }
  }

  /** Harvesting findable instances of `ts[m]` keeps every set sound. */
  lemma {:induction false} HarvestComponentsSound(w: World, ts: seq<TypeId>, m: nat, G: seq<GroupView>, comps: seq<ComponentId>)
    requires ValidWorld(w) && forall i :: 0 <= i < |ts| ==> ts[i] < |w.types|
    requires m < |ts| && TypeExtender.GetFieldInfos(w.types, Some(ts[m])) != []
    requires forall i :: 0 <= i < |comps| ==> comps[i] < |w.objects| && Findable(w, comps[i])
    requires forall i :: 0 <= i < |comps| ==> IsAssignable(w.types, w.objects[comps[i]].runtimeType, ts[m])
    requires SoundViews(w, ts, G)
    ensures MarkedFields(w.types, TypeExtender.GetFieldInfos(w.types, Some(ts[m])))
    ensures SoundViews(w, ts, HarvestComponents(w, G, comps, TypeExtender.GetFieldInfos(w.types, Some(ts[m]))))
  {
    var fields := TypeExtender.GetFieldInfos(w.types, Some(ts[m]));
    MarkedFieldInfos(w.types, Some(ts[m]));
    if comps != [] {
      var n := |comps| - 1;
      HarvestComponentsSound(w, ts, m, G, comps[..n]);
      HarvestOneSound(w, ts, m, HarvestComponents(w, G, comps[..n], fields), comps[n]);
    }
  }

  /**
   * Every set left by harvesting `ts` from nothing belongs to a findable
   * instance of one of them with marked fields, and holds only names of
   * marked fields of those of them its component is an instance of.
   */
  lemma {:induction false} HarvestAllSound(w: World, ts: seq<TypeId>)
    requires ValidWorld(w) && forall i :: 0 <= i < |ts| ==> ts[i] < |w.types|
    ensures SoundViews(w, ts, HarvestAll(w, [], ts))
  {
    if ts != [] {
      var n := |ts| - 1;
      var front := HarvestAll(w, [], ts[..n]);
      HarvestAllSound(w, ts[..n]);
      SoundWiden(w, ts, n, front);
      var fields := TypeExtender.GetFieldInfos(w.types, Some(ts[n]));
      if fields != [] {
        var comps := FindObjectsOfType(w, ts[n]);
        forall i | 0 <= i < |comps|
          ensures Findable(w, comps[i]) && IsAssignable(w.types, w.objects[comps[i]].runtimeType, ts[n])
        {
          assert comps[i] in comps;
        }
        HarvestComponentsSound(w, ts, n, front, comps);
      }
    }
  }

  /** With no sets to start from, every component of the list gets a new set of its own, in list order. */
  lemma {:induction false} FreshHarvest(w: World, comps: seq<ComponentId>, fields: seq<FieldInfo>)
    requires ValidWorld(w) && MarkedFields(w.types, fields)
    requires forall i :: 0 <= i < |comps| ==> comps[i] < |w.objects|
    requires forall i, j :: 0 <= i < j < |comps| ==> comps[i] < comps[j]
    ensures var r := HarvestComponents(w, [], comps, fields);
      |r| == |comps| && forall i :: 0 <= i < |comps| ==> r[i] == NewView(w, comps[i], fields)
  {
    if comps != [] {
      var n := |comps| - 1;
      var prev := comps[..n];
      FreshHarvest(w, prev, fields);
      var front := HarvestComponents(w, [], prev, fields);
      forall j | 0 <= j < |front| ensures front[j].component != Some(comps[n]) {
        assert front[j] == NewView(w, prev[j], fields);
      }
    }
  }

  /**
   * A component none of the sets `B` belongs to is merged into `A + B` as
   * into `A`, the sets `B` staying as they are (after `A` and before any
   * new set).
   */
  lemma HarvestOneFrame(w: World, A: seq<GroupView>, B: seq<GroupView>, c: ComponentId, fields: seq<FieldInfo>)
    requires ValidWorld(w) && c < |w.objects| && MarkedFields(w.types, fields)
    requires forall j :: 0 <= j < |B| ==> B[j].component != Some(c)
    ensures FirstOwner(A, c).Some? ==> HarvestOne(w, A + B, c, fields) == HarvestOne(w, A, c, fields) + B
    ensures FirstOwner(A, c).None? ==>
      HarvestOne(w, A, c, fields) == A + [NewView(w, c, fields)] &&
      HarvestOne(w, A + B, c, fields) == A + B + [NewView(w, c, fields)]
  {
    var k := FirstOwner(A, c);
    if k.Some? {
      assert (A + B)[k.value] == A[k.value];
      var v := A[k.value].(records := MergeFields(w, c, A[k.value].records, fields));
      assert (A + B)[k.value := v] == A[k.value := v] + B;
    } else {
      assert forall j :: 0 <= j < |A + B| ==> (A + B)[j].component != Some(c) by {
        forall j | 0 <= j < |A + B| ensures (A + B)[j].component != Some(c) {
          if j < |A| { assert (A + B)[j] == A[j]; } else { assert (A + B)[j] == B[j - |A|]; }
        }
      }
    }
  }

  /** `GetFieldInfos(type)`: the filtering loop over the type's declared fields. */
  method GetFieldInfos(h: Hierarchy, t: Option<TypeId>) returns (r: seq<FieldInfo>)
    requires t.Some? ==> t.value < |h|
    ensures r == TypeExtender.GetFieldInfos(h, t)
  {
    r := [];
    if t.None? {
      return;
    }
    var fields := h[t.value].fields;
    for i := 0 to |fields|
      invariant r == TypeExtender.MarkedAmong(t.value, fields[..i])
    {
      if fields[i].marker.Some? {
        r := r + [FieldInfo(t.value, fields[i])];
      }
      assert fields[..i + 1][..i] == fields[..i];
    }
    assert fields[..|fields|] == fields;
  }

  /** The sets of a storage that may be null. */
  function StorageSets(storage: DataStorage?): seq<DataSet>
    reads storage
  {
    if storage == null then [] else storage.data
  }

  /** No set object occurs twice. */
  predicate Distinct(S: seq<DataSet>) {
    forall i, j :: 0 <= i < j < |S| ==> S[i] != S[j]
  }

  /** The field loop of `CreateDataSet` on the chosen set. */
  method MergeInto(w: World, data: DataSet, com: ComponentId, fields: seq<FieldInfo>)
    requires ValidWorld(w) && Live(w, com) && MarkedFields(w.types, fields) && data.component == Some(com)
    modifies data`fields
    ensures Records(data.fields) == MergeFields(w, com, old(Records(data.fields)), fields)
  {
    for f := 0 to |fields|
      invariant Records(data.fields) == MergeFields(w, com, old(Records(data.fields)), fields[..f])
    {
      var fi := fields[f];
      var saveKey := if fi.decl.marker.value.Key == "" then data.GenerateSaveKey(w, ConjunctionOfName, fi) else fi.decl.marker.value.Key;
      assert saveKey == KeyFor(w, com, fi);
      var _ := data.AddField(w.types, fi.decl.name, saveKey, Some(fi));
      MergeFieldsStep(w, com, old(Records(data.fields)), fields, f);
    }
    assert fields[..|fields|] == fields;
  }

  /** The field loop run on the `k`-th set of `S`, which belongs to `com`: only that set's view changes. */
  method MergeIntoOwner(w: World, ghost S: seq<DataSet>, ghost k: nat, data: DataSet, com: ComponentId, fields: seq<FieldInfo>)
    requires ValidWorld(w) && Live(w, com) && MarkedFields(w.types, fields)
    requires Distinct(S) && k < |S| && S[k] == data && FirstOwner(Views(S), com) == Some(k)
    modifies data`fields
    ensures Views(S) == HarvestOne(w, old(Views(S)), com, fields)
  {
    ghost var G := Views(S);
    MergeInto(w, data, com, fields);
    forall j | 0 <= j < |S| && j != k ensures Views(S)[j] == G[j] {
      assert S[j] != S[k];
    }
  }

  /** A new set for `com` holding the marked fields; the sets already present are untouched. */
  method NewOwnedSet(w: World, ghost S: seq<DataSet>, com: ComponentId, fields: seq<FieldInfo>) returns (data: DataSet)
    requires ValidWorld(w) && Live(w, com) && MarkedFields(w.types, fields)
    requires FirstOwner(Views(S), com).None?
    ensures fresh(data) && data.component == Some(com)
    ensures Views(S) + [data.View()] == HarvestOne(w, old(Views(S)), com, fields)
  {
    data := new DataSet(w, Some(com));
    assert Records(data.fields) == [];
    MergeInto(w, data, com, fields);
  }

  /**
   * `CreateDataSet(storage, com, fields)`: the fields go into the first
   * set of the storage owned by `com`, and null is returned; without such
   * a set they go into a new set for `com`, which is returned. The views of
   * the storage's sets, followed by the returned set, are `HarvestOne`.
   */
  method CreateDataSet(w: World, storage: DataStorage?, com: ComponentId, fields: seq<FieldInfo>) returns (created: DataSet?)
    requires ValidWorld(w) && Live(w, com) && MarkedFields(w.types, fields)
    requires Distinct(StorageSets(storage))
    modifies StorageSets(storage)`fields
    ensures StorageSets(storage) == old(StorageSets(storage))
    ensures created == null <==> FirstOwner(old(Views(StorageSets(storage))), com).Some?
    ensures created != null ==> fresh(created) && created.component == Some(com)
    ensures Views(StorageSets(storage)) + (if created == null then [] else [created.View()]) ==
      HarvestOne(w, old(Views(StorageSets(storage))), com, fields)
  {
    var S := StorageSets(storage);
    var first := FirstOwner(Views(S), com);
    if first.Some? {
      MergeIntoOwner(w, S, first.value, S[first.value], com, fields);
      created := null;
    } else {
      created := NewOwnedSet(w, S, com, fields);
    }
  }

  /**
   * What `CreateDataSet` leaves (the storage's views `now`, and the new
   * set's view when there is one), with the sets `B` yielded earlier
   * placed between the two, is `HarvestOne` on the views followed by `B`.
   */
  lemma StepAlgebra(w: World, A: seq<GroupView>, B: seq<GroupView>, now: seq<GroupView>, created: seq<GroupView>,
                    c: ComponentId, fields: seq<FieldInfo>)
    requires ValidWorld(w) && c < |w.objects| && MarkedFields(w.types, fields)
    requires forall j :: 0 <= j < |B| ==> B[j].component != Some(c)
    requires created == [] <==> FirstOwner(A, c).Some?
    requires |created| <= 1 && now + created == HarvestOne(w, A, c, fields)
    ensures now + (B + created) == HarvestOne(w, A + B, c, fields)
  {
    HarvestOneFrame(w, A, B, c, fields);
    if created != [] {
      var nv := NewView(w, c, fields);
      assert now + created == A + [nv];
      assert |now| == |A|;
      assert now == A && created == [nv] by {
        assert now == (now + created)[..|now|];
        assert A == (A + [nv])[..|A|];
        assert created[0] == (now + created)[|now|];
      }
      assert A + (B + [nv]) == A + B + [nv];
    } else {
      assert now + created == now && B + created == B;
    }
  }

  /**
   * One component of `Create`'s loop: `CreateDataSet`, and the set it
   * returns, if any, appended to the sets yielded so far (whose views are
   * `Y`). None of those belongs to `c`, so the storage's sets followed by
   * them are merged as `HarvestOne` would.
   */
  method CreateStep(w: World, storage: DataStorage?, c: ComponentId, fields: seq<FieldInfo>, yielded: seq<DataSet>, ghost Y: seq<GroupView>)
    returns (out: seq<DataSet>, ghost Y': seq<GroupView>)
    requires ValidWorld(w) && Live(w, c) && MarkedFields(w.types, fields)
    requires Distinct(StorageSets(storage)) && Distinct(yielded)
    requires |Y| == |yielded| && forall j :: 0 <= j < |yielded| ==> yielded[j].View() == Y[j] && yielded[j] !in StorageSets(storage)
    requires forall j :: 0 <= j < |Y| ==> Y[j].component.Some? && Y[j].component.value < c
    modifies StorageSets(storage)`fields
    ensures StorageSets(storage) == old(StorageSets(storage))
    ensures Views(StorageSets(storage)) + Y' == HarvestOne(w, old(Views(StorageSets(storage))) + Y, c, fields)
    ensures |Y'| == |out| && forall j :: 0 <= j < |out| ==> out[j].View() == Y'[j] && out[j] !in StorageSets(storage)
    ensures forall j :: 0 <= j < |Y'| ==> Y'[j].component.Some? && Y'[j].component.value <= c
    ensures Distinct(out)
    ensures |yielded| <= |out| <= |yielded| + 1 && forall j :: 0 <= j < |yielded| ==> out[j] == yielded[j]
    ensures |out| == |yielded| + 1 ==> fresh(out[|yielded|])
  {
    ghost var S := StorageSets(storage);
    ghost var A := Views(S);
    var created := CreateDataSet(w, storage, c, fields);
    ghost var created' := if created == null then [] else [created.View()];
    StepAlgebra(w, A, Y, Views(S), created', c, fields);
    if created != null {
      out := yielded + [created];
    } else {
      out := yielded;
    }
    Y' := Y + created';
  }

  /**
   * The component loop of `Create`: each component in turn through
   * `CreateDataSet`, the sets it returns collected in order.
   */
  method CreateAll(w: World, storage: DataStorage?, comps: seq<ComponentId>, fields: seq<FieldInfo>) returns (yielded: seq<DataSet>)
    requires ValidWorld(w) && MarkedFields(w.types, fields)
    requires forall i :: 0 <= i < |comps| ==> comps[i] < |w.objects| && Live(w, comps[i])
    requires forall i, j :: 0 <= i < j < |comps| ==> comps[i] < comps[j]
    requires Distinct(StorageSets(storage))
    modifies StorageSets(storage)`fields
    ensures StorageSets(storage) == old(StorageSets(storage))
    ensures Views(StorageSets(storage)) + Views(yielded) == HarvestComponents(w, old(Views(StorageSets(storage))), comps, fields)
    ensures Distinct(yielded) && forall j :: 0 <= j < |yielded| ==> fresh(yielded[j])
  {
    ghost var S := StorageSets(storage);
    ghost var G := Views(S);
    yielded := [];
    ghost var Y: seq<GroupView> := [];
    for i := 0 to |comps|
      invariant StorageSets(storage) == S
      invariant Views(S) + Y == HarvestComponents(w, G, comps[..i], fields)
      invariant |Y| == |yielded| && forall j :: 0 <= j < |yielded| ==> yielded[j].View() == Y[j]
      invariant Distinct(yielded)
      invariant forall j :: 0 <= j < |yielded| ==> yielded[j] !in S
      invariant forall j :: 0 <= j < |yielded| ==> fresh(yielded[j])
      invariant forall j :: 0 <= j < |Y| ==> Y[j].component.Some?
      invariant i < |comps| ==> forall j :: 0 <= j < |Y| ==> Y[j].component.value < comps[i]
    {
      ghost var before := yielded;
      yielded, Y := CreateStep(w, storage, comps[i], fields, yielded, Y);
      HarvestComponentsStep(w, G, comps, i, fields);
      forall j | 0 <= j < |yielded| ensures fresh(yielded[j]) {
        if j < |before| {
          assert yielded[j] == before[j];
        } else {
          assert j == |before|;
        }
      }
    }
    assert Views(yielded) == Y;
    assert comps[..|comps|] == comps;
  }

  /**
   * `Create(type, storage)`, its yields collected: nothing for a type
   * without marked fields; otherwise each findable component of the type
   * in turn goes through `CreateDataSet`, and the new sets are yielded.
   */
  method Create(w: World, t: Option<TypeId>, storage: DataStorage?) returns (yielded: seq<DataSet>)
    requires ValidWorld(w) && (t.Some? ==> t.value < |w.types|)
    requires Distinct(StorageSets(storage))
    modifies StorageSets(storage)`fields
    ensures StorageSets(storage) == old(StorageSets(storage))
    ensures Views(StorageSets(storage)) + Views(yielded) == HarvestType(w, old(Views(StorageSets(storage))), t)
    ensures Distinct(yielded) && forall j :: 0 <= j < |yielded| ==> fresh(yielded[j])
    ensures TypeExtender.GetFieldInfos(w.types, t) == [] ==> yielded == []
  {
    var fields := GetFieldInfos(w.types, t);
    yielded := [];
    if |fields| <= 0 {
      return;
    }
    MarkedFieldInfos(w.types, t);
    var comps := FindObjectsOfType(w, t.value);
    FoundObjectsExist(w, t.value);
    yielded := CreateAll(w, storage, comps, fields);
  }
}
