/**
 * Model of GameObjectExtender.cs: the hierarchy path of a game object.
 *
 * `GetComponentsInParent<Transform>()` lists the object's own transform
 * first and its root last; the path names them root first. The engine call
 * is an input here: `parents` holds the names it would return, in its order.
 */
module GameObjectExtender {
  import opened Wrappers

  /** The conjunction `GetFullName` uses when its caller gives none. */
  const DefaultConjunction: string := "/"

  /** `s` back to front. */
  function Reversed<T>(s: seq<T>): (r: seq<T>)
    ensures |r| == |s|
  {
    if s == [] then [] else [s[|s| - 1]] + Reversed(s[..|s| - 1])
  }

  /** Element `k` of the reversal is element `|s| - 1 - k` of the original. */
  lemma {:induction false} ReversedAt<T>(s: seq<T>, k: nat)
    requires k < |s|
    ensures Reversed(s)[k] == s[|s| - 1 - k]
  {
    if k > 0 {
      ReversedAt(s[..|s| - 1], k - 1);
    }
  }

  /** The names with `conj` between each neighbouring pair and nowhere else. */
  function Join(names: seq<string>, conj: string): string
  {
    if |names| == 0 then ""
    else if |names| == 1 then names[0]
    else names[0] + conj + Join(names[1..], conj)
  }

  /**
   * `GetFullName`: the loop prepends each name (and a conjunction when a
   * name is already there), so the result is the names joined root first.
   */
  method GetFullName(parents: seq<string>, conj: string := DefaultConjunction) returns (name: string)
    ensures name == Join(Reversed(parents), conj)
    ensures |parents| == 0 ==> name == ""
    ensures |parents| == 1 ==> name == parents[0]
  {
    var acc: Option<string> := None;
    for i := 0 to |parents|
      invariant acc == if i == 0 then None else Some(Join(Reversed(parents[..i]), conj))
    {
      ghost var done := Reversed(parents[..i]);
      assert parents[..i + 1][..i] == parents[..i];
      assert Reversed(parents[..i + 1]) == [parents[i]] + done;
      if i == 0 {
        assert parents[i] + "" == parents[i];
      } else {
        assert ([parents[i]] + done)[1..] == done;
        assert parents[i] + (conj + acc.value) == parents[i] + conj + acc.value;
      }
      acc := Some(parents[i] + (if acc.None? then "" else conj + acc.value));
    }
    assert parents[..|parents|] == parents;
    name := if acc.None? then "" else acc.value;
  }

  /** Joining a longer list appends one conjunction and the last name. */
  lemma {:induction false} JoinSnoc(names: seq<string>, last: string, conj: string)
    requires |names| >= 1
    ensures Join(names + [last], conj) == Join(names, conj) + conj + last
  {
    if |names| > 1 {
      assert (names + [last])[1..] == names[1..] + [last];
      JoinSnoc(names[1..], last, conj);
    }
  }

  /** The object's own name is the last segment, after the path of its parent. */
  lemma OwnNameIsLastSegment(parents: seq<string>, conj: string)
    requires |parents| >= 2
    ensures Join(Reversed(parents), conj) == Join(Reversed(parents[1..]), conj) + conj + parents[0]
  {
    assert Reversed(parents) == Reversed(parents[1..]) + [parents[0]] by {
      forall k | 0 <= k < |parents|
        ensures Reversed(parents)[k] == (Reversed(parents[1..]) + [parents[0]])[k]
      {
        ReversedAt(parents, k);
        if k < |parents| - 1 { ReversedAt(parents[1..], k); }
      }
    }
    JoinSnoc(Reversed(parents[1..]), parents[0], conj);
  }

  /** The total length of the names. */
  function TotalLength(names: seq<string>): nat
  {
    if names == [] then 0 else |names[0]| + TotalLength(names[1..])
  }

  /** With k >= 1 names the join holds the names and exactly k - 1 conjunctions. */
  lemma {:induction false} JoinLength(names: seq<string>, conj: string)
    requires |names| >= 1
    ensures |Join(names, conj)| == TotalLength(names) + (|names| - 1) * |conj|
  {
    if |names| > 1 {
      JoinLength(names[1..], conj);
    } else {
      assert names[1..] == [];
    }
  }
}
