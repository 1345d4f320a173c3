/**
 * Model of DataSet.cs: the persisted fields of one component.
 *
 * The component reference and the inspector label `key` are fixed by the
 * constructor; the list of fields grows through `AddField`, which never
 * admits a second field with a name already present.
 */
module DataSets {
  import opened Wrappers
  import opened Reflection
  import opened Engine
  import opened DataFields
  import GameObjectExtender

  /** What a `DataSet` holds, as a value. */
  datatype GroupView = GroupView(component: Option<ComponentId>, key: string, records: seq<FieldRecord>)

  /** The records of a list of fields, position by position. */
  function Records(fs: seq<DataField>): (rs: seq<FieldRecord>)
    ensures |rs| == |fs| && forall i :: 0 <= i < |fs| ==> rs[i] == fs[i].Record()
  {
    seq(|fs|, i requires 0 <= i < |fs| => fs[i].Record())
  }

  predicate HasName(rs: seq<FieldRecord>, name: string) {
    exists i :: 0 <= i < |rs| && rs[i].name == name
  }

  /** No two records share a variable name. */
  predicate NamesDistinct(rs: seq<FieldRecord>) {
    forall i, j :: 0 <= i < j < |rs| ==> rs[i].name != rs[j].name
  }

  /**
   * The records after `AddField` offers `r`: unchanged when its name is
   * present (the earlier record, and its save key, win), else `r` at the end.
   */
  function AddRecord(rs: seq<FieldRecord>, r: FieldRecord): (out: seq<FieldRecord>)
    ensures |rs| <= |out| <= |rs| + 1 && out[..|rs|] == rs
    ensures |out| == |rs| + 1 <==> !HasName(rs, r.name)
    ensures |out| == |rs| + 1 ==> out[|rs|] == r
    ensures NamesDistinct(rs) ==> NamesDistinct(out)
  {
    if HasName(rs, r.name) then rs else rs + [r]
  }

  /** After `AddRecord`, the names present are the earlier ones and the offered one. */
  lemma AddRecordNames(rs: seq<FieldRecord>, r: FieldRecord)
    ensures forall n :: HasName(AddRecord(rs, r), n) <==> HasName(rs, n) || n == r.name
  {
    var out := AddRecord(rs, r);
    forall n | HasName(rs, n) ensures HasName(out, n) {
      var i :| 0 <= i < |rs| && rs[i].name == n;
      assert out[i] == rs[i];
    }
    if !HasName(rs, r.name) {
      assert out[|rs|] == r;
    }
  }

  /** `company:product:scene`, the first part of every default save key. */
  function AppPrefix(app: AppInfo): string {
    app.companyName + ":" + app.productName + ":" + app.sceneName
  }

  /**
   * `GetFullName(conj)`: "" for a null component, otherwise the application
   * prefix, the conjunction and the object's hierarchy path joined by "/".
   */
  function FullName(w: World, component: Option<ComponentId>, conj: string): (r: string)
    ensures IsNull(w, component) ==> r == ""
    ensures !IsNull(w, component) ==>
      var path := GameObjectExtender.Join(GameObjectExtender.Reversed(w.objects[component.value].parents), "/");
      r == AppPrefix(w.app) + conj + path
  {
    if IsNull(w, component) then ""
    else
      var parents := w.objects[component.value].parents;
      AppPrefix(w.app) + conj + GameObjectExtender.Join(GameObjectExtender.Reversed(parents), "/")
  }

  /**
   * `GenerateSaveKey(conj, field)`: the full name, the conjunction, the
   * component's concrete type name, a dot and the field name. The component
   * reference must exist: the type name is read through it. The key is
   * never empty, so a generated key always passes the validity check.
   */
  function SaveKeyFor(w: World, component: ComponentId, conj: string, fi: FieldInfo): (r: string)
    requires ValidWorld(w) && component < |w.objects|
    ensures r != ""
  {
    FullName(w, Some(component), conj) + conj + w.types[w.objects[component].runtimeType].fullName + "." + fi.decl.name
  }

  /** A suffix after a common prefix can be recovered. */
  lemma CancelPrefix(p: string, a: string, b: string)
    requires p + a == p + b
    ensures a == b
  {
    assert a == (p + a)[|p|..];
    assert b == (p + b)[|p|..];
  }

  /** A prefix before a common suffix can be recovered. */
  lemma CancelSuffix(a: string, b: string, q: string)
    requires a + q == b + q
    ensures a == b
  {
    assert a == (a + q)[..|a|];
    assert b == (b + q)[..|b|];
  }

  /** Within one component, fields with different names get different default keys. */
  lemma SaveKeysDifferByField(w: World, c: ComponentId, conj: string, f1: FieldInfo, f2: FieldInfo)
    requires ValidWorld(w) && c < |w.objects|
    requires f1.decl.name != f2.decl.name
    ensures SaveKeyFor(w, c, conj, f1) != SaveKeyFor(w, c, conj, f2)
  {
    var p := FullName(w, Some(c), conj) + conj + w.types[w.objects[c].runtimeType].fullName + ".";
    assert SaveKeyFor(w, c, conj, f1) == p + f1.decl.name;
    assert SaveKeyFor(w, c, conj, f2) == p + f2.decl.name;
    if p + f1.decl.name == p + f2.decl.name {
      CancelPrefix(p, f1.decl.name, f2.decl.name);
    }
  }

  /**
   * Two components at the same path whose concrete types have different
   * names get different default keys for a field of the same name.
   */
  lemma SaveKeysDifferByType(w: World, c1: ComponentId, c2: ComponentId, conj: string, f1: FieldInfo, f2: FieldInfo)
    requires ValidWorld(w) && c1 < |w.objects| && c2 < |w.objects|
    requires FullName(w, Some(c1), conj) == FullName(w, Some(c2), conj)
    requires w.types[w.objects[c1].runtimeType].fullName != w.types[w.objects[c2].runtimeType].fullName
    requires f1.decl.name == f2.decl.name
    ensures SaveKeyFor(w, c1, conj, f1) != SaveKeyFor(w, c2, conj, f2)
  {
    var p := FullName(w, Some(c1), conj) + conj;
    var t1 := w.types[w.objects[c1].runtimeType].fullName;
    var t2 := w.types[w.objects[c2].runtimeType].fullName;
    var q := "." + f1.decl.name;
    assert SaveKeyFor(w, c1, conj, f1) == p + (t1 + q);
    assert SaveKeyFor(w, c2, conj, f2) == p + (t2 + q);
    if p + (t1 + q) == p + (t2 + q) {
      CancelPrefix(p, t1 + q, t2 + q);
      CancelSuffix(t1, t2, q);
    }
  }

  class DataSet {
    const component: Option<ComponentId>
    /** The inspector label: the component's type name. */
    const key: string
    var fields: seq<DataField>

    function View(): GroupView
      reads this
    {
      GroupView(component, key, Records(fields))
    }

    /** The parameterless constructor: no component, no fields. */
    constructor Empty()
      ensures View() == GroupView(None, "", [])
    {
      component := None;
      key := "";
      fields := [];
    }

    /**
     * `DataSet(component)`: no fields; a null component leaves the set
     * unowned, otherwise it records the component and its type's full name.
     */
    constructor (w: World, component: Option<ComponentId>)
      requires ValidWorld(w)
      ensures fields == []
      ensures IsNull(w, component) ==> View() == GroupView(None, "", [])
      ensures !IsNull(w, component) ==>
        View() == GroupView(component, w.types[w.objects[component.value].runtimeType].fullName, [])
    {
      fields := [];
      if IsNull(w, component) {
        this.component := None;
        key := "";
      } else {
        this.component := component;
        key := w.types[w.objects[component.value].runtimeType].fullName;
      }
    }

    /**
     * `AddField(name, saveKey, fieldInfo)`: the first field already named
     * `name` is returned and nothing changes; otherwise a new field is
     * appended and returned.
     */
    method AddField(h: Hierarchy, variableName: string, saveKey: string, fieldInfo: Option<FieldInfo>)
      returns (f: DataField)
      requires fieldInfo.Some? ==> fieldInfo.value.decl.fieldType < |h|
      modifies this`fields
      ensures Records(fields) == AddRecord(Records(old(fields)), NewRecord(h, variableName, saveKey, fieldInfo))
      ensures f.variableName == variableName
      ensures HasName(Records(old(fields)), variableName) ==>
        && fields == old(fields)
        && (exists i :: 0 <= i < |fields| && fields[i] == f
              && forall j :: 0 <= j < i ==> fields[j].variableName != variableName)
      ensures !HasName(Records(old(fields)), variableName) ==>
        fresh(f) && fields == old(fields) + [f] && f.Record() == NewRecord(h, variableName, saveKey, fieldInfo)
    {
      var i := 0;
      while i < |fields| && fields[i].variableName != variableName
        invariant 0 <= i <= |fields|
        invariant forall j :: 0 <= j < i ==> fields[j].variableName != variableName
      {
        i := i + 1;
      }
      if i < |fields| {
        assert Records(fields)[i].name == variableName;
        return fields[i];
      }
      assert !HasName(Records(fields), variableName);
      f := new DataField(h, variableName, saveKey, fieldInfo);
      ghost var before := fields;
      fields := fields + [f];
      assert Records(fields) == Records(before) + [f.Record()];
    }

    /** `GetFullName(conj)` on this set's component. */
    function GetFullName(w: World, conj: string): (r: string)
      ensures component.None? ==> r == ""
      ensures r == FullName(w, component, conj)
    {
      FullName(w, component, conj)
    }

    /** `GenerateSaveKey(conj, fieldInfo)`; the component must be a reference to an existing object. */
    function GenerateSaveKey(w: World, conj: string, fi: FieldInfo): (r: string)
      requires ValidWorld(w) && component.Some? && component.value < |w.objects|
      ensures r == SaveKeyFor(w, component.value, conj, fi)
    {
      SaveKeyFor(w, component.value, conj, fi)
    }
  }

  /** The views of a list of sets, position by position. */
  function Views(sets: seq<DataSet>): (G: seq<GroupView>)
    reads sets
    ensures |G| == |sets| && forall i :: 0 <= i < |sets| ==> G[i] == sets[i].View()
  {
    seq(|sets|, i reads sets requires 0 <= i < |sets| => sets[i].View())
  }
}
