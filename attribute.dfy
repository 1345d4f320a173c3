/**
 * The persistence marker of DataStorageAttribute.cs.
 *
 * The marker is attached to a field (at most once: the field's `marker` is an
 * `Option`, see `Reflection.FieldDecl`) and carries an explicit save key, the
 * empty string meaning "generate a default key". The marker is a value: its
 * `Key` cannot change once it is built.
 */
module Attributes {
  import opened Wrappers

  datatype DataStorageAttribute = DataStorageAttribute(Key: string)

  /** The constructor taking a (possibly null) key: null becomes "". */
  function WithKey(key: Option<string>): (a: DataStorageAttribute)
    ensures key.Some? ==> a.Key == key.value
    ensures a.Key == "" <==> key.None? || key == Some("")
  {
    DataStorageAttribute(if key.None? then "" else key.value)
  }

  /** The parameterless constructor delegates with the empty key. */
  function Default(): (a: DataStorageAttribute)
    ensures a.Key == ""
    ensures a == WithKey(None)
  {
    WithKey(Some(""))
  }
}
