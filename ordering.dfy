/**
 * `Enumerable.OrderBy(selector)` with string keys: a stable sort. Keys are
 * compared by the ordinal (character code) order.
 */
module Ordering {

  /** `a` sorts strictly before `b`: the first differing character is smaller, or `a` is a proper prefix. */
  predicate Below(a: string, b: string) {
    if a == [] then b != []
    else b != [] && (a[0] < b[0] || (a[0] == b[0] && Below(a[1..], b[1..])))
  }

  /** No key sorts before itself. */
  lemma {:induction false} BelowIrreflexive(a: string)
    ensures !Below(a, a)
  {
    if a != [] {
      BelowIrreflexive(a[1..]);
    }
  }

  /** Two keys are never each before the other. */
  lemma {:induction false} BelowAsymmetric(a: string, b: string)
    ensures Below(a, b) ==> !Below(b, a)
  {
    if a != [] && b != [] && a[0] == b[0] {
      BelowAsymmetric(a[1..], b[1..]);
    }
  }

  /** Each neighbouring pair is in order: the later key never sorts before the earlier. */
  predicate SortedBy<T>(s: seq<T>, key: T -> string) {
    forall i :: 0 <= i < |s| - 1 ==> !Below(key(s[i + 1]), key(s[i]))
  }

  /**
   * `x` placed before the first element whose key does not sort before
   * `x`'s: after every smaller key and before every equal one.
   */
  function Insert<T>(x: T, s: seq<T>, key: T -> string): (r: seq<T>)
    ensures multiset(r) == multiset(s) + multiset{x}
    ensures |r| == |s| + 1 && (r[0] == x || (s != [] && r[0] == s[0]))
    ensures SortedBy(s, key) ==> SortedBy(r, key)
  {
    if s == [] || !Below(key(s[0]), key(x)) then
      SortedCons(x, s, key);
      [x] + s
    else
      var rest := Insert(x, s[1..], key);
      assert s == [s[0]] + s[1..];
      BelowAsymmetric(key(s[0]), key(x));
      SortedCons(s[0], rest, key);
      [s[0]] + rest
  }

  /** A sorted list stays sorted with an element in front whose key its first key does not sort before. */
  lemma SortedCons<T>(h: T, t: seq<T>, key: T -> string)
    ensures SortedBy(t, key) && (t != [] ==> !Below(key(t[0]), key(h))) ==> SortedBy([h] + t, key)
  {
    if SortedBy(t, key) && (t != [] ==> !Below(key(t[0]), key(h))) {
      var r := [h] + t;
      forall i | 0 <= i < |r| - 1 ensures !Below(key(r[i + 1]), key(r[i])) {
        if i > 0 {
          assert r[i] == t[i - 1] && r[i + 1] == t[i];
        }
      }
    }
  }

  /** The stable sort: the elements, sorted by key, equal keys in their original order. */
  function SortBy<T>(s: seq<T>, key: T -> string): (r: seq<T>)
    ensures multiset(r) == multiset(s)
    ensures SortedBy(r, key)
  {
    if s == [] then []
    else
      assert s == [s[0]] + s[1..];
      Insert(s[0], SortBy(s[1..], key), key)
  }

  /** The sort of a non-empty list inserts its first element into the sort of the rest. */
  lemma SortByCons<T>(s: seq<T>, key: T -> string)
    requires s != []
    ensures SortBy(s, key) == Insert(s[0], SortBy(s[1..], key), key)
  {
  }

  /** The elements with key `k`, in order. */
  function WithKey<T>(s: seq<T>, key: T -> string, k: string): seq<T> {
    if s == [] then [] else (if key(s[0]) == k then [s[0]] else []) + WithKey(s[1..], key, k)
  }

  lemma {:induction false} WithKeyAppend<T>(a: seq<T>, b: seq<T>, key: T -> string, k: string)
    ensures WithKey(a + b, key, k) == WithKey(a, key, k) + WithKey(b, key, k)
  {
    if a != [] {
      assert (a + b)[1..] == a[1..] + b;
      WithKeyAppend(a[1..], b, key, k);
    } else {
      assert a + b == b;
    }
  }

  lemma WithKeySingle<T>(y: T, key: T -> string, k: string)
    ensures WithKey([y], key, k) == if key(y) == k then [y] else []
  {
    assert [y][1..] == [];
  }

  /** Two sequences of which one is empty commute in front of a third. */
  lemma SwapEmpty<T>(a: seq<T>, b: seq<T>, c: seq<T>)
    requires a == [] || b == []
    ensures a + (b + c) == b + (a + c)
  {
    if a == [] {
      assert a + (b + c) == b + c == b + (a + c);
    } else {
      assert a + (b + c) == a + c == b + (a + c);
    }
  }

  /** An element whose key sorts before `x`'s does not share `x`'s key. */
  lemma KeysApart<T>(x: T, y: T, key: T -> string, k: string)
    requires Below(key(y), key(x))
    ensures WithKey([y], key, k) == [] || WithKey([x], key, k) == []
  {
    BelowIrreflexive(key(x));
    WithKeySingle(x, key, k);
    WithKeySingle(y, key, k);
  }

  /** Inserting `x` puts it in front of the elements that share its key. */
  lemma {:induction false} InsertWithKey<T>(x: T, s: seq<T>, key: T -> string, k: string)
    ensures WithKey(Insert(x, s, key), key, k) == WithKey([x], key, k) + WithKey(s, key, k)
  {
    if s == [] || !Below(key(s[0]), key(x)) {
      WithKeyAppend([x], s, key, k);
    } else {
      var rest := Insert(x, s[1..], key);
      assert Insert(x, s, key) == [s[0]] + rest;
      InsertWithKey(x, s[1..], key, k);
      WithKeyAppend([s[0]], rest, key, k);
      assert s == [s[0]] + s[1..];
      WithKeyAppend([s[0]], s[1..], key, k);
      var a, b, c := WithKey([s[0]], key, k), WithKey([x], key, k), WithKey(s[1..], key, k);
      KeysApart(x, s[0], key, k);
      SwapEmpty(a, b, c);
    }
  }

  /** The sort is stable: for every key, the elements with that key keep their order. */
  lemma {:induction false} SortByStable<T>(s: seq<T>, key: T -> string, k: string)
    ensures WithKey(SortBy(s, key), key, k) == WithKey(s, key, k)
  {
    if s != [] {
      SortByStable(s[1..], key, k);
      InsertWithKey(s[0], SortBy(s[1..], key), key, k);
      assert s == [s[0]] + s[1..];
      WithKeyAppend([s[0]], s[1..], key, k);
    }
  }
}
