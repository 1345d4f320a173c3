/**
 * The engine state the registry reads and writes, as explicit inputs.
 *
 * Components are identified by their index in `World.objects`; a component
 * compares equal to null (Unity's overloaded `==`) when there is no
 * reference, the reference is unknown, or the object was destroyed. The
 * values of component fields live in a `Scene`, written by
 * `FieldInfo.SetValue` and read by `FieldInfo.GetValue`.
 */
module Engine {
  import opened Wrappers
  import opened Reflection
  import TypeExtender

  type ComponentId = nat

  /**
   * A component: its runtime type, the name of its game object, the names
   * `GetComponentsInParent<Transform>()` lists (own object first), whether
   * it has not been destroyed, and whether its game object is active in the
   * hierarchy. A component on an inactive game object is not null, yet the
   * scene search does not return it.
   */
  datatype ComponentInfo = ComponentInfo(runtimeType: TypeId, name: string, parents: seq<string>, alive: bool, active: bool)

  /** `Application.companyName`, `productName`, `isEditor` and the active scene's name. */
  datatype AppInfo = AppInfo(companyName: string, productName: string, sceneName: string, isEditor: bool)

  /**
   * Everything outside the registry: the type table, the types of the
   * executing assembly (in `GetTypes()` order), `MonoBehaviour`, the
   * components and the application settings.
   */
  datatype World = World(
    types: Hierarchy,
    assemblyTypes: seq<TypeId>,
    monoBehaviour: TypeId,
    objects: seq<ComponentInfo>,
    app: AppInfo)

  predicate ValidWorld(w: World) {
    && ValidHierarchy(w.types)
    && w.monoBehaviour < |w.types|
    && (forall i :: 0 <= i < |w.assemblyTypes| ==> w.assemblyTypes[i] < |w.types|)
    && (forall c :: 0 <= c < |w.objects| ==> w.objects[c].runtimeType < |w.types|)
  }

  /** Unity's `component == null`. */
  predicate IsNull(w: World, c: Option<ComponentId>) {
    c.None? || c.value >= |w.objects| || !w.objects[c.value].alive
  }

  /** A component the scene search returns: not destroyed, on an active game object. */
  predicate Findable(w: World, c: ComponentId) {
    c < |w.objects| && w.objects[c].alive && w.objects[c].active
  }

  /** `target.IsAssignableFrom(t)` for classes: `t` is `target` or derives from it. */
  predicate IsAssignable(h: Hierarchy, t: TypeId, target: TypeId)
    requires ValidHierarchy(h) && t < |h|
  {
    t == target || TypeExtender.IsInheriting(h, t, target)
  }

  /**
   * `Object.FindObjectsOfType(t)`: the findable components whose runtime
   * type is `t` or derives from it, each once, in index order.
   */
  function FindObjectsOfType(w: World, t: TypeId): (r: seq<ComponentId>)
    requires ValidWorld(w)
    ensures forall i, j :: 0 <= i < j < |r| ==> r[i] < r[j]
    ensures forall c: ComponentId :: c in r <==>
      Findable(w, c) && IsAssignable(w.types, w.objects[c].runtimeType, t)
  {
    FindableOfType(w, t, |w.objects|)
  }

  /** The findable components of type `t` among the first `n` objects. */
  function FindableOfType(w: World, t: TypeId, n: nat): (r: seq<ComponentId>)
    requires ValidWorld(w) && n <= |w.objects|
    ensures forall i, j :: 0 <= i < j < |r| ==> r[i] < r[j]
    ensures forall c: ComponentId :: c in r <==>
      c < n && Findable(w, c) && IsAssignable(w.types, w.objects[c].runtimeType, t)
  {
    if n == 0 then []
    else
      var c := n - 1;
      var front := FindableOfType(w, t, c);
      assert forall i :: 0 <= i < |front| ==> front[i] < c by {
        forall i | 0 <= i < |front| ensures front[i] < c {
          assert front[i] in front;
        }
      }
      front +
        if Findable(w, c) && IsAssignable(w.types, w.objects[c].runtimeType, t) then [c] else []
  }

  /** A boxed field value: its runtime type and an opaque payload. */
  datatype Value = Value(ty: TypeId, payload: string)

  /** One field of one component. */
  datatype Slot = Slot(component: ComponentId, field: FieldInfo)

  /** The field values of all components; a slot that is absent holds null. */
  type Values = map<Slot, Value>

  /** `FieldInfo.GetValue`: the value held in a slot, `None` for null. */
  function Read(values: Values, s: Slot): Option<Value> {
    if s in values then Some(values[s]) else None
  }

  /**
   * Whether `FieldInfo.SetValue(component, value)` goes through: the value's
   * type fits the field's type and the component is an instance of the
   * type declaring the field. Otherwise reflection throws.
   */
  predicate Accepts(w: World, fi: FieldInfo, c: ComponentId, v: Value)
    requires ValidWorld(w)
  {
    && c < |w.objects| && v.ty < |w.types|
    && IsAssignable(w.types, v.ty, fi.decl.fieldType)
    && IsAssignable(w.types, w.objects[c].runtimeType, fi.declaringType)
  }

  /** The field values of the running scene, changed in place by `SetValue`. */
  class Scene {
    var values: Values

    constructor (values: Values)
      ensures this.values == values
    {
      this.values := values;
    }
  }
}
