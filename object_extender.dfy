/**
 * Model of the string part of ObjectExtender.GetMyName: a label made of a
 * type's name with its namespace trimmed off, a dot and a member name.
 *
 * The member name comes from inspecting a lambda expression; here it is an
 * input. The trim is .NET's `String.TrimStart(char[])`, which removes a
 * leading run of characters drawn from a SET, not a prefix string.
 */
module ObjectExtender {
  import opened Wrappers
  import opened Reflection

  /** `Char.IsWhiteSpace`: the Unicode White_Space characters. */
  predicate IsWhiteSpace(c: char) {
    ('\U{0009}' <= c <= '\U{000D}') || c == '\U{0020}' || c == '\U{0085}' || c == '\U{00A0}' ||
    c == '\U{1680}' || ('\U{2000}' <= c <= '\U{200A}') || c == '\U{2028}' || c == '\U{2029}' ||
    c == '\U{202F}' || c == '\U{205F}' || c == '\U{3000}'
  }

  /** Whether `TrimStart(chars)` removes `c`: an empty array means white space. */
  predicate Trimmed(c: char, chars: seq<char>) {
    if chars == [] then IsWhiteSpace(c) else c in chars
  }

  /**
   * `TrimStart(chars)`: the longest suffix of `s` whose first character is
   * not trimmed; everything cut off is trimmed.
   */
  function TrimStart(s: string, chars: seq<char>): (r: string)
    ensures |r| <= |s| && r == s[|s| - |r|..]
    ensures forall k :: 0 <= k < |s| - |r| ==> Trimmed(s[k], chars)
    ensures r != [] ==> !Trimmed(r[0], chars)
  {
    if s == [] || !Trimmed(s[0], chars) then s
    else TrimStart(s[1..], chars)
  }

  /** The part of a label before its final "." + `member`. */
  function Stem(text: string, member: string): string
    requires |text| > |member|
  {
    text[..|text| - |member| - 1]
  }

  /** `text` ends with a dot and `member`. */
  predicate EndsWithMember(text: string, member: string) {
    |text| > |member| && text[|text| - |member| - 1..] == "." + member
  }

  /**
   * `stem` is what is left of `full` once a leading run of characters from
   * `chars` is cut off, and it does not start with one of them.
   */
  predicate CutByCharacters(full: string, chars: seq<char>, stem: string) {
    && |stem| <= |full|
    && stem == full[|full| - |stem|..]
    && (forall k :: 0 <= k < |full| - |stem| ==> full[k] in chars)
    && (stem != [] ==> stem[0] !in chars)
  }

  /**
   * `GetMyName(type, member)`: `None` models the null-reference failure of
   * `type.Namespace.ToCharArray()` for a type outside every namespace. The
   * stem is a suffix of the full name; what was cut off consists of
   * namespace characters and the stem does not start with one.
   */
  function GetMyName(t: TypeInfo, member: string): (r: Option<string>)
    ensures r.None? <==> t.namespace.None?
    ensures r.Some? ==> EndsWithMember(r.value, member)
    ensures r.Some? && t.namespace.value != [] ==> CutByCharacters(t.fullName, t.namespace.value, Stem(r.value, member))
  {
    if t.namespace.None? then None
    else
      var rest := TrimStart(t.fullName, t.namespace.value);
      LabelParts(rest, member);
      assert t.namespace.value != [] ==> CutByCharacters(t.fullName, t.namespace.value, rest);
      Some(rest + "." + member)
  }

  /** A label splits back into its stem and its member name. */
  lemma LabelParts(rest: string, member: string)
    ensures EndsWithMember(rest + "." + member, member)
    ensures Stem(rest + "." + member, member) == rest
  {
    var text := rest + "." + member;
    assert text[|text| - |member| - 1..] == "." + member;
    assert text[..|text| - |member| - 1] == rest;
  }

  /**
   * An empty namespace keeps the full name as it is, unless it starts with
   * white space. .NET reports a type outside every namespace with a null
   * namespace, never with "", so this case is defensive: it pins down what
   * `TrimStart` does with an empty character set.
   */
  lemma EmptyNamespaceKeepsName(t: TypeInfo, member: string)
    requires t.namespace == Some("")
    requires t.fullName == [] || !IsWhiteSpace(t.fullName[0])
    ensures GetMyName(t, member) == Some(t.fullName + "." + member)
  {
  }

  /**
   * The text the trim evidently aims at: the full name with the namespace
   * and its dot removed as a PREFIX, then a dot and the member name.
   */
  function GetMyNameByPrefix(t: TypeInfo, member: string): (r: Option<string>)
    ensures r.None? <==> t.namespace.None?
    ensures r.Some? ==> EndsWithMember(r.value, member)
    ensures r.Some? ==>
      var prefix := t.namespace.value + ".";
      if t.namespace.value != "" && |prefix| <= |t.fullName| && t.fullName[..|prefix|] == prefix
      then Stem(r.value, member) == t.fullName[|prefix|..]
      else Stem(r.value, member) == t.fullName
  {
    if t.namespace.None? then None
    else
      var prefix := t.namespace.value + ".";
      var rest := if t.namespace.value != "" && |prefix| <= |t.fullName| && t.fullName[..|prefix|] == prefix
        then t.fullName[|prefix|..] else t.fullName;
      LabelParts(rest, member);
      Some(rest + "." + member)
  }

  /** With the prefix rule, a type named `N` in namespace `ns` is always labelled `N.member`. */
  lemma PrefixRuleKeepsTypeName(ns: string, name: string, member: string)
    requires ns != ""
    ensures GetMyNameByPrefix(TypeInfo(ns + "." + name, Some(ns), None, []), member) == Some(name + "." + member)
  {
    var full := ns + "." + name;
    assert full[..|ns + "."|] == ns + ".";
    assert full[|ns + "."|..] == name;
  }

  /**
   * The character-set trim eats a type name spelled only with letters of
   * its namespace, leaving nothing of it but the dot before the member.
   */
  lemma NamespaceLettersTrimAway(ns: string, name: string, member: string)
    requires '.' in ns
    requires forall k :: 0 <= k < |name| ==> name[k] in ns
    ensures GetMyName(TypeInfo(ns + "." + name, Some(ns), None, []), member) == Some("." + member)
  {
    var full := ns + "." + name;
    forall k | 0 <= k < |full| ensures full[k] in ns {
      if k < |ns| {
        assert full[k] == ns[k];
      } else if k > |ns| {
        assert full[k] == name[k - |ns| - 1];
      } else {
        assert full[k] == '.';
      }
    }
    TrimAll(full, ns);
  }

  /**
   * The namespace of the example components: any type in it whose name uses
   * only its letters, such as `Example`, is labelled `.i` instead of
   * `Example.i`; the prefix rule gives `Example.i`.
   */
  lemma CharacterSetTrimOverTrims(ns: string, name: string)
    requires ns == "a3geek.Attributes.DataStorage.Examples" && name == "Example"
    ensures var t := TypeInfo(ns + "." + name, Some(ns), None, []);
      && GetMyName(t, "i") == Some(".i")
      && GetMyNameByPrefix(t, "i") == Some(name + ".i")
  {
    assert ns[6] == '.';
    assert ns[30..37] == name;
    forall k | 0 <= k < |name| ensures name[k] in ns {
      assert name[k] == ns[30 + k];
    }
    NamespaceLettersTrimAway(ns, name, "i");
    assert "." + "i" == ".i";
    PrefixRuleKeepsTypeName(ns, name, "i");
    assert name + "." + "i" == name + ".i";
  }

  /** A string made only of characters from a non-empty set is trimmed away entirely. */
  lemma {:induction false} TrimAll(s: string, chars: seq<char>)
    requires chars != []
    requires forall k :: 0 <= k < |s| ==> s[k] in chars
    ensures TrimStart(s, chars) == ""
  {
    if s != [] {
      TrimAll(s[1..], chars);
    }
  }
}
