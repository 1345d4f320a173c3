/**
 * The two-level merge of the example components: `TestClass` declares four
 * marked fields, `TestClass2 : TestClass` four more. A scene holds one
 * `TestClass2` and one `TestClass`. `Initialize` visits `TestClass` first,
 * which gives both components a set; `TestClass2` then merges its fields
 * into the set its component already has.
 */
module Scenario {
  import opened Wrappers
  import opened Attributes
  import opened Reflection
  import opened Engine
  import opened DataSets
  import opened Controllers
  import TypeExtender
  import DataCreators

  const Examples := Some("a3geek.Attributes.DataStorage.Examples")

  /** A field of type `System.Int32` carrying the marker without a key. */
  function Marked(name: string): FieldDecl {
    FieldDecl(name, 5, Some(Default()))
  }

  /** A field of type `System.Int32` without the marker. */
  function Plain(name: string): FieldDecl {
    FieldDecl(name, 5, None)
  }

  /**
   * The example's type table. The fields' own types play no part in the
   * harvest, so every field is given the one value type `System.Int32`.
   */
  const Types: Hierarchy := [
    /* 0 */ TypeInfo("System.Object", Some("System"), None, []),
    /* 1 */ TypeInfo("UnityEngine.MonoBehaviour", Some("UnityEngine"), Some(0), []),
    /* 2 */ TypeInfo("a3geek.Attributes.DataStorage.Examples.GuiDrawer", Examples, Some(1), []),
    /* 3 */ TypeInfo("a3geek.Attributes.DataStorage.Examples.TestClass", Examples, Some(2), TestClassFields),
    /* 4 */ TypeInfo("a3geek.Attributes.DataStorage.Examples.TestClass2", Examples, Some(3), TestClass2Fields),
    /* 5 */ TypeInfo("System.Int32", Some("System"), Some(0), [])
  ]

  const TestClassFields := [
    Plain("drawGui"), Plain("windowId"), Plain("window"),
    Marked("intVariable"), Marked("floatVariable"), Marked("test"), Marked("str")]

  const TestClass2Fields := [
    Marked("intVariable2"), Marked("doubleVariable"), Marked("unityTypesTest"), Marked("ignoreTest")]

  /** Component 0 is a `TestClass2` on "Player"; component 1 a `TestClass` on "Enemy". */
  const Example: World := World(
    Types,
    [2, 3, 4],
    1,
    [ComponentInfo(4, "Player", ["Player", "World"], true, true),
     ComponentInfo(3, "Enemy", ["Enemy"], true, true)],
    AppInfo("a3geek", "DataStorageAttribute", "Example", true))

  lemma ExampleValid()
    ensures ValidWorld(Example)
  {
    assert ValidHierarchy(Types) by {
      forall t | 0 <= t < |Types|
        ensures Types[t].baseType.Some? ==> Types[t].baseType.value < t
        ensures forall d :: d in Types[t].fields ==> d.fieldType < |Types|
      {
        assert forall d :: d in Types[t].fields ==> d.fieldType == 5;
      }
    }
  }

  /** Both example classes derive from `MonoBehaviour`, through `GuiDrawer`. */
  lemma ExampleInherits()
    ensures ValidWorld(Example)
    ensures TypeExtender.IsInheriting(Types, 3, 1) && TypeExtender.IsInheriting(Types, 4, 1)
    ensures IsAssignable(Types, 4, 3) && IsAssignable(Types, 4, 4)
  {
    ExampleValid();
    assert Types[2].baseType == Some(1) && Types[3].baseType == Some(2) && Types[4].baseType == Some(3);
  }

  /** The parts of the example world the harvest looks at. */
  lemma ExampleShape()
    ensures Example.types == Types && Example.monoBehaviour == 1
    ensures Example.assemblyTypes[1] == 3 && Example.assemblyTypes[2] == 4
    ensures Findable(Example, 0) && Example.objects[0].runtimeType == 4
  {
  }

  /** `TestClass` is harvested for the "Player" component. */
  lemma TestClassHarvested()
    ensures ValidWorld(Example) && HarvestedFor(Example, 1, 0)
  {
    ExampleInherits();
    ExampleShape();
    assert FieldInfo(3, Types[3].fields[3]) in TypeExtender.GetFieldInfos(Types, Some(3));
  }

  /** `TestClass2` is harvested for the "Player" component. */
  lemma TestClass2Harvested()
    ensures ValidWorld(Example) && HarvestedFor(Example, 2, 0)
  {
    ExampleInherits();
    ExampleShape();
    assert FieldInfo(4, Types[4].fields[0]) in TypeExtender.GetFieldInfos(Types, Some(4));
  }

  /** A set holding the fields harvested from the `k`-th assembly type records every marked field that type declares. */
  lemma HoldsMarked(w: World, k: nat, g: GroupView)
    requires ValidWorld(w) && k < |w.assemblyTypes| && HoldsFieldsOf(w, k, g)
    ensures forall d :: d in w.types[w.assemblyTypes[k]].fields && d.marker.Some? ==> HasName(g.records, d.name)
  {
    var t := w.assemblyTypes[k];
    var fields := TypeExtender.GetFieldInfos(w.types, Some(t));
    forall d | d in w.types[t].fields && d.marker.Some? ensures HasName(g.records, d.name) {
      assert FieldInfo(t, d) in fields;
    }
  }

  /** Every name of `names` has a record in `g`. */
  predicate RecordsAll(g: GroupView, names: seq<string>) {
    forall n :: n in names ==> HasName(g.records, n)
  }

  const TestClassMarked := ["intVariable", "floatVariable", "test", "str"]
  const TestClass2Marked := ["intVariable2", "doubleVariable", "unityTypesTest", "ignoreTest"]

  /** A set holding the fields of `TestClass` records its four marked names. */
  lemma HoldsTestClassNames(g: GroupView)
    requires ValidWorld(Example) && HoldsFieldsOf(Example, 1, g)
    ensures RecordsAll(g, TestClassMarked)
  {
    ExampleShape();
    HoldsMarked(Example, 1, g);
    assert forall n :: n in TestClassMarked ==> Marked(n) in TestClassFields;
  }

  /** A set holding the fields of `TestClass2` records its four marked names. */
  lemma HoldsTestClass2Names(g: GroupView)
    requires ValidWorld(Example) && HoldsFieldsOf(Example, 2, g)
    ensures RecordsAll(g, TestClass2Marked)
  {
    ExampleShape();
    HoldsMarked(Example, 2, g);
    assert forall n :: n in TestClass2Marked ==> Marked(n) in TestClass2Fields;
  }

  /** The example's merged set, whichever index it has, records the marked names of both classes. */
  lemma MergedRecordsAll(R: seq<GroupView>)
    requires ValidWorld(Example)
    requires exists j :: (0 <= j < |R| && R[j].component == Some(0)
      && HoldsFieldsOf(Example, 1, R[j]) && HoldsFieldsOf(Example, 2, R[j])
      && forall i :: 0 <= i < |R| && R[i].component == Some(0) ==> i == j)
    ensures exists j :: (0 <= j < |R| && R[j].component == Some(0)
      && RecordsAll(R[j], TestClassMarked) && RecordsAll(R[j], TestClass2Marked)
      && forall i :: 0 <= i < |R| && R[i].component == Some(0) ==> i == j)
  {
    var j :| 0 <= j < |R| && R[j].component == Some(0)
      && HoldsFieldsOf(Example, 1, R[j]) && HoldsFieldsOf(Example, 2, R[j])
      && forall i :: 0 <= i < |R| && R[i].component == Some(0) ==> i == j;
    HoldsTestClassNames(R[j]);
    HoldsTestClass2Names(R[j]);
  }

  /**
   * After `Initialize` the `TestClass2` component has exactly one set, and
   * it holds the marked fields of both classes.
   */
  lemma PlayerMerged()
    ensures ValidWorld(Example)
    ensures var R := Rebuilt(Example);
      exists j :: (0 <= j < |R| && R[j].component == Some(0)
        && RecordsAll(R[j], TestClassMarked) && RecordsAll(R[j], TestClass2Marked)
        && forall i :: 0 <= i < |R| && R[i].component == Some(0) ==> i == j)
  {
    TestClassHarvested();
    TestClass2Harvested();
    RebuiltMerges(Example, 1, 2, 0);
    MergedRecordsAll(Rebuilt(Example));
  }
}
