/**
 * The reflection data the persistence registry works on, as plain values.
 *
 * A type is an index into a `Hierarchy`; each type has a full name, an
 * optional namespace, an optional base type and the list of fields that
 * `Type.GetFields` returns for it under the controller's binding flags
 * (instance fields, public and non-public, declared on the type itself), in
 * declaration order. A field may carry the persistence marker.
 */
module Reflection {
  import opened Wrappers
  import opened Attributes

  type TypeId = nat

  datatype FieldDecl = FieldDecl(name: string, fieldType: TypeId, marker: Option<DataStorageAttribute>)

  datatype TypeInfo = TypeInfo(
    fullName: string,
    namespace: Option<string>,
    baseType: Option<TypeId>,
    fields: seq<FieldDecl>)

  type Hierarchy = seq<TypeInfo>

  /** A reflection handle on one field: the type declaring it and its declaration. */
  datatype FieldInfo = FieldInfo(declaringType: TypeId, decl: FieldDecl)

  /**
   * A well-formed type table: every base type has a smaller index (so base
   * chains are finite) and every field type exists.
   */
  predicate ValidHierarchy(h: Hierarchy) {
    forall t :: 0 <= t < |h| ==>
      (h[t].baseType.Some? ==> h[t].baseType.value < t) &&
      (forall d :: d in h[t].fields ==> d.fieldType < |h|)
  }

  /** A handle that denotes a field actually declared by its declaring type. */
  predicate ValidFieldInfo(h: Hierarchy, fi: FieldInfo) {
    fi.declaringType < |h| && fi.decl in h[fi.declaringType].fields
  }
}
