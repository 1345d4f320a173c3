/**
 * Model of DataField.cs: one persisted field of a component, its save key
 * and the name of its type.
 *
 * Every member is set by a constructor and never reassigned, so the class
 * holds constants. The `FieldType` getter fills a cache from the type name
 * when the cache is empty; with a fixed type table the lookup always gives
 * the same type, so the getter is modelled as the function the cache
 * memoises.
 */
module DataFields {
  import opened Wrappers
  import opened Reflection
  import opened Engine
  import TypeExtender

  /** What a `DataField` holds, as a value. */
  datatype FieldRecord = FieldRecord(
    name: string,
    saveKey: string,
    typeName: string,
    info: Option<FieldInfo>,
    cachedType: Option<TypeId>)

  /** The type name the three-argument constructor stores: "" without a handle. */
  function TypeNameOf(h: Hierarchy, info: Option<FieldInfo>): (r: string)
    requires info.Some? ==> info.value.decl.fieldType < |h|
    ensures info.None? ==> r == ""
    ensures info.Some? ==> r == h[info.value.decl.fieldType].fullName
  {
    if info.None? then "" else h[info.value.decl.fieldType].fullName
  }

  /** The record a `DataField(name, key, info)` starts with. */
  function NewRecord(h: Hierarchy, name: string, key: string, info: Option<FieldInfo>): (r: FieldRecord)
    requires info.Some? ==> info.value.decl.fieldType < |h|
    ensures r.name == name && r.saveKey == key && r.info == info
    ensures r.typeName == TypeNameOf(h, info)
    ensures r.cachedType == TypeExtender.GetTypeFromString(h, r.typeName)
  {
    var typeName := TypeNameOf(h, info);
    FieldRecord(name, key, typeName, info, TypeExtender.GetTypeFromString(h, typeName))
  }

  class DataField {
    const variableName: string
    const saveKey: string
    const fieldTypeName: string
    const fieldInfo: Option<FieldInfo>
    /** The type cache as the constructor leaves it. */
    const fieldType: Option<TypeId>

    function Record(): FieldRecord {
      FieldRecord(variableName, saveKey, fieldTypeName, fieldInfo, fieldType)
    }

    /** The cached type, when there is one, is a known type. */
    predicate WellTyped(h: Hierarchy) {
      fieldType.Some? ==> fieldType.value < |h|
    }

    /** The parameterless constructor: empty name and key, no handle, no type. */
    constructor Empty()
      ensures Record() == FieldRecord("", "", "", None, None)
    {
      variableName := "";
      saveKey := "";
      fieldInfo := None;
      fieldTypeName := "";
      fieldType := TypeExtender.GetTypeFromString([], "");
    }

    /**
     * `DataField(variableName, saveKey, fieldInfo)`: name and key verbatim,
     * the type name from the handle and the cache from the type name.
     */
    constructor (h: Hierarchy, variableName: string, saveKey: string, fieldInfo: Option<FieldInfo>)
      requires fieldInfo.Some? ==> fieldInfo.value.decl.fieldType < |h|
      ensures Record() == NewRecord(h, variableName, saveKey, fieldInfo)
      ensures WellTyped(h)
    {
      this.variableName := variableName;
      this.saveKey := saveKey;
      this.fieldInfo := fieldInfo;
      fieldTypeName := TypeNameOf(h, fieldInfo);
      fieldType := TypeExtender.GetTypeFromString(h, TypeNameOf(h, fieldInfo));
    }

    /**
     * `DataField(variableName, saveKey, fieldInfo, fieldType)`: the cache is
     * the given type and the type name is its full name, "" for none.
     */
    constructor WithType(h: Hierarchy, variableName: string, saveKey: string, fieldInfo: Option<FieldInfo>, fieldType: Option<TypeId>)
      requires fieldType.Some? ==> fieldType.value < |h|
      ensures this.variableName == variableName && this.saveKey == saveKey && this.fieldInfo == fieldInfo
      ensures this.fieldType == fieldType
      ensures fieldTypeName == if fieldType.None? then "" else h[fieldType.value].fullName
      ensures WellTyped(h)
    {
      this.variableName := variableName;
      this.saveKey := saveKey;
      this.fieldInfo := fieldInfo;
      fieldTypeName := if fieldType.None? then "" else h[fieldType.value].fullName;
      this.fieldType := fieldType;
    }

    /**
     * A field as the engine deserialises it: only the serialised members
     * (name, type name, save key) are restored; the handle and the cache
     * stay null.
     */
    constructor Restored(variableName: string, saveKey: string, fieldTypeName: string)
      ensures Record() == FieldRecord(variableName, saveKey, fieldTypeName, None, None)
    {
      this.variableName := variableName;
      this.saveKey := saveKey;
      this.fieldTypeName := fieldTypeName;
      fieldInfo := None;
      fieldType := None;
    }

    /**
     * The `FieldType` getter: a cached type is returned as it is; otherwise
     * the type named by `fieldTypeName`, none for an empty name.
     */
    function FieldType(h: Hierarchy): (t: Option<TypeId>)
      ensures fieldType.Some? ==> t == fieldType
      ensures fieldType.None? && t.Some? ==> t.value < |h| && h[t.value].fullName == fieldTypeName
      ensures fieldType.None? && fieldTypeName == "" ==> t.None?
      ensures WellTyped(h) && t.Some? ==> t.value < |h|
    {
      if fieldType.Some? then fieldType else TypeExtender.GetTypeFromString(h, fieldTypeName)
    }

    /** `GetValue(component)`: null for a null component or a missing handle. */
    function GetValue(w: World, values: Values, component: Option<ComponentId>): (r: Option<Value>)
      ensures IsNull(w, component) || fieldInfo.None? ==> r.None?
      ensures !IsNull(w, component) && fieldInfo.Some? ==> r == Read(values, Slot(component.value, fieldInfo.value))
    {
      if IsNull(w, component) || fieldInfo.None? then None
      else Read(values, Slot(component.value, fieldInfo.value))
    }

    /**
     * `SetValue(component, value)`: false, with nothing written, for a null
     * component or a missing handle, and when reflection refuses the write;
     * otherwise the slot holds the value and reads back as it.
     */
    method SetValue(w: World, scene: Scene, component: Option<ComponentId>, value: Value) returns (ok: bool)
      requires ValidWorld(w)
      modifies scene
      ensures ok <==> !IsNull(w, component) && fieldInfo.Some? && Accepts(w, fieldInfo.value, component.value, value)
      ensures ok ==> scene.values == old(scene.values)[Slot(component.value, fieldInfo.value) := value]
      ensures !ok ==> scene.values == old(scene.values)
      ensures ok ==> GetValue(w, scene.values, component) == Some(value)
    {
      if IsNull(w, component) || fieldInfo.None? {
        return false;
      }
      if !Accepts(w, fieldInfo.value, component.value, value) {
        return false;
      }
      scene.values := scene.values[Slot(component.value, fieldInfo.value) := value];
      return true;
    }
  }
}
