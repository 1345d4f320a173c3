/**
 * Model of TypeExtender.cs: questions about a type's base chain and its
 * fields. The source walks `BaseType` with a cursor; here each walk is a
 * function recursive on the (strictly decreasing) base-type index.
 */
module TypeExtender {
  import opened Wrappers
  import opened Reflection

  /** The base chain of `t`: `t` itself, then its base type, and so on up to the root. */
  function Chain(h: Hierarchy, t: TypeId): (c: seq<TypeId>)
    requires ValidHierarchy(h) && t < |h|
    ensures |c| >= 1 && c[0] == t
    ensures forall i :: 0 <= i < |c| ==> c[i] < |h|
    ensures forall i :: 0 <= i < |c| - 1 ==> h[c[i]].baseType == Some(c[i + 1])
    ensures h[c[|c| - 1]].baseType.None?
    ensures forall i, j :: 0 <= i < j < |c| ==> c[j] < c[i]
    decreases t
  {
    match h[t].baseType
    case None => [t]
    case Some(b) => [t] + Chain(h, b)
  }

  /** `IsInheriting`: the walk starts at the base type, so a type never inherits itself. */
  function IsInheriting(h: Hierarchy, t: TypeId, b: TypeId): bool
    requires ValidHierarchy(h) && t < |h|
    decreases t
  {
    match h[t].baseType
    case None => false
    case Some(bt) => bt == b || IsInheriting(h, bt, b)
  }

  /** `IsInheriting(t, b)` holds exactly when `b` is a strict ancestor of `t`. */
  lemma {:induction false} IsInheritingMeansStrictAncestor(h: Hierarchy, t: TypeId, b: TypeId)
    requires ValidHierarchy(h) && t < |h|
    ensures IsInheriting(h, t, b) <==> b in Chain(h, t)[1..]
    decreases t
  {
    match h[t].baseType
    case None =>
    case Some(bt) =>
      IsInheritingMeansStrictAncestor(h, bt, b);
      assert Chain(h, t)[1..] == Chain(h, bt);
  }

  /** A type is never reported as inheriting from itself. */
  lemma NeverInheritsItself(h: Hierarchy, t: TypeId)
    requires ValidHierarchy(h) && t < |h|
    ensures !IsInheriting(h, t, t)
  {
    IsInheritingMeansStrictAncestor(h, t, t);
    var c := Chain(h, t);
    assert forall x :: x in c[1..] ==> x < t;
  }

  /** The marked fields among `ds`, declared by `t`, in declaration order. */
  function MarkedAmong(t: TypeId, ds: seq<FieldDecl>): (r: seq<FieldInfo>)
    ensures forall fi :: fi in r ==> fi.declaringType == t && fi.decl in ds && fi.decl.marker.Some?
    ensures forall d :: d in ds && d.marker.Some? ==> FieldInfo(t, d) in r
  {
    if ds == [] then []
    else
      assert forall d :: d in ds <==> d in ds[..|ds| - 1] || d == ds[|ds| - 1];
      MarkedAmong(t, ds[..|ds| - 1]) + if ds[|ds| - 1].marker.Some? then [FieldInfo(t, ds[|ds| - 1])] else []
  }

  /** The marked fields keep their declaration order: each pair of results comes from an ordered pair of declarations. */
  lemma {:induction false} MarkedAmongKeepsOrder(t: TypeId, ds: seq<FieldDecl>, i: nat, j: nat)
    requires i < j < |MarkedAmong(t, ds)|
    ensures exists a, b :: 0 <= a < b < |ds| && ds[a] == MarkedAmong(t, ds)[i].decl && ds[b] == MarkedAmong(t, ds)[j].decl
  {
    var front := ds[..|ds| - 1];
    var rest := MarkedAmong(t, front);
    var r := MarkedAmong(t, ds);
    assert r[..|rest|] == rest;
    if j < |rest| {
      MarkedAmongKeepsOrder(t, front, i, j);
      var a, b :| 0 <= a < b < |front| && front[a] == rest[i].decl && front[b] == rest[j].decl;
      assert ds[a] == r[i].decl && ds[b] == r[j].decl;
    } else {
      assert r[i] in rest;
      var a :| 0 <= a < |front| && front[a] == r[i].decl;
      assert ds[a] == r[i].decl && ds[|ds| - 1] == r[j].decl;
    }
  }

  /**
   * `GetFieldInfos`: the fields declared on the type itself that carry the
   * marker, in declaration order; nothing for a null type.
   */
  function GetFieldInfos(h: Hierarchy, t: Option<TypeId>): (r: seq<FieldInfo>)
    requires t.Some? ==> t.value < |h|
    ensures t.None? ==> r == []
    ensures t.Some? ==> forall fi :: fi in r <==>
      fi.declaringType == t.value && fi.decl in h[t.value].fields && fi.decl.marker.Some?
  {
    if t.None? then [] else MarkedAmong(t.value, h[t.value].fields)
  }

  /** `Type.GetField(name)` under a declared-only binding: the first field of `t` with that name. */
  function GetField(h: Hierarchy, t: TypeId, name: string): (r: Option<FieldInfo>)
    requires t < |h|
    ensures r.Some? ==> r.value.declaringType == t && r.value.decl in h[t].fields && r.value.decl.name == name
    ensures r.None? ==> forall d :: d in h[t].fields ==> d.name != name
  {
    FirstNamed(t, h[t].fields, name)
  }

  function FirstNamed(t: TypeId, ds: seq<FieldDecl>, name: string): (r: Option<FieldInfo>)
    ensures r.Some? ==> r.value.declaringType == t && r.value.decl in ds && r.value.decl.name == name
    ensures r.None? ==> forall d :: d in ds ==> d.name != name
  {
    if ds == [] then None
    else if ds[0].name == name then Some(FieldInfo(t, ds[0]))
    else
      assert forall d :: d in ds ==> d == ds[0] || d in ds[1..];
      FirstNamed(t, ds[1..], name)
  }

  /** The walk of `GetFieldInfoInParents` from `t` upwards. */
  function FindInChain(h: Hierarchy, t: TypeId, key: string): Option<FieldInfo>
    requires ValidHierarchy(h) && t < |h|
    decreases t
  {
    match GetField(h, t, key)
    case Some(fi) => Some(fi)
    case None =>
      match h[t].baseType
      case None => None
      case Some(b) => FindInChain(h, b, key)
  }

  /** `GetFieldInfoInParents`: null for a null type or an empty key, otherwise the nearest declaration in the chain. */
  function GetFieldInfoInParents(h: Hierarchy, self: Option<TypeId>, key: string): (r: Option<FieldInfo>)
    requires ValidHierarchy(h) && (self.Some? ==> self.value < |h|)
    ensures self.None? || key == "" ==> r.None?
    ensures r.Some? ==> r.value.decl.name == key && ValidFieldInfo(h, r.value)
  {
    if self.None? || key == "" then None
    else
      FindInChainSound(h, self.value, key);
      FindInChain(h, self.value, key)
  }

  /**
   * The walk returns the declaration of the nearest type in the chain that
   * declares `key`: every type before it declares no such field.
   */
  lemma {:induction false} FindInChainSound(h: Hierarchy, t: TypeId, key: string)
    requires ValidHierarchy(h) && t < |h|
    ensures var r := FindInChain(h, t, key);
      r.Some? ==>
        exists k ::
          && 0 <= k < |Chain(h, t)|
          && r == GetField(h, Chain(h, t)[k], key)
          && forall j :: 0 <= j < k ==> GetField(h, Chain(h, t)[j], key).None?
    decreases t
  {
    var c := Chain(h, t);
    if GetField(h, t, key).None? {
      match h[t].baseType
      case None =>
      case Some(b) =>
        FindInChainSound(h, b, key);
        var r := FindInChain(h, b, key);
        if r.Some? {
          var k :| 0 <= k < |Chain(h, b)| && r == GetField(h, Chain(h, b)[k], key) &&
            forall j :: 0 <= j < k ==> GetField(h, Chain(h, b)[j], key).None?;
          assert c[k + 1] == Chain(h, b)[k];
          assert forall j :: 0 <= j < k + 1 ==> GetField(h, c[j], key).None? by {
            forall j | 0 <= j < k + 1 ensures GetField(h, c[j], key).None? {
              if j > 0 { assert c[j] == Chain(h, b)[j - 1]; }
            }
          }
        }
    } else {
      assert c[0] == t;
    }
  }

  /** No type of the list `c` declares `key`. */
  predicate NoneDeclares(h: Hierarchy, c: seq<TypeId>, key: string)
    requires forall k :: 0 <= k < |c| ==> c[k] < |h|
  {
    forall k :: 0 <= k < |c| ==> GetField(h, c[k], key).None?
  }

  /** The walk finds nothing exactly when no type in the chain declares `key`. */
  lemma {:induction false} FindInChainNone(h: Hierarchy, t: TypeId, key: string)
    requires ValidHierarchy(h) && t < |h|
    ensures FindInChain(h, t, key).None? ==>
      forall k :: 0 <= k < |Chain(h, t)| ==> GetField(h, Chain(h, t)[k], key).None?
    ensures (forall k :: 0 <= k < |Chain(h, t)| ==> GetField(h, Chain(h, t)[k], key).None?) ==>
      FindInChain(h, t, key).None?
    decreases t
  {
    match h[t].baseType
    case None =>
      assert Chain(h, t) == [t];
    case Some(b) =>
      FindInChainNone(h, b, key);
      ChainStepNone(h, t, b, key);
  }

  /** No type of `t`'s chain declares `key` exactly when `t` does not and no type of its base's chain does. */
  lemma ChainStepNone(h: Hierarchy, t: TypeId, b: TypeId, key: string)
    requires ValidHierarchy(h) && t < |h| && h[t].baseType == Some(b)
    ensures NoneDeclares(h, Chain(h, t), key) <==> GetField(h, t, key).None? && NoneDeclares(h, Chain(h, b), key)
  {
    var c := Chain(h, t);
    var cb := Chain(h, b);
    assert c == [t] + cb;
    if GetField(h, t, key).None? && NoneDeclares(h, cb, key) {
      forall k | 0 <= k < |c| ensures GetField(h, c[k], key).None? {
        if k > 0 { assert c[k] == cb[k - 1]; }
      }
    }
    if NoneDeclares(h, c, key) {
      forall k | 0 <= k < |cb| ensures GetField(h, cb[k], key).None? {
        assert cb[k] == c[k + 1];
      }
    }
  }

  /** `GetTypeFromString`, up to its empty-name guard: the first known type with that full name. */
  function GetTypeFromString(h: Hierarchy, typeName: string): (r: Option<TypeId>)
    ensures typeName == "" ==> r.None?
    ensures r.Some? ==> r.value < |h| && h[r.value].fullName == typeName
    ensures r.None? && typeName != "" ==> forall t :: 0 <= t < |h| ==> h[t].fullName != typeName
  {
    if typeName == "" then None else SearchType(h, typeName, 0)
  }

  function SearchType(h: Hierarchy, typeName: string, from: nat): (r: Option<TypeId>)
    ensures r.Some? ==> from <= r.value < |h| && h[r.value].fullName == typeName
    ensures r.None? ==> forall t :: from <= t < |h| ==> h[t].fullName != typeName
    decreases |h| - from
  {
    if from >= |h| then None
    else if h[from].fullName == typeName then Some(from)
    else SearchType(h, typeName, from + 1)
  }

  /**
   * A field found by `GetFieldInfoInParents` is declared by the type itself
   * or one of its ancestors, so an instance of the type has that field.
   */
  lemma {:induction false} FoundInParentsIsInherited(h: Hierarchy, t: TypeId, key: string)
    requires ValidHierarchy(h) && t < |h|
    ensures var r := FindInChain(h, t, key);
      r.Some? ==> r.value.declaringType == t || IsInheriting(h, t, r.value.declaringType)
    decreases t
  {
    if GetField(h, t, key).None? {
      match h[t].baseType
      case None =>
      case Some(b) =>
        FoundInParentsIsInherited(h, b, key);
    }
  }
}
