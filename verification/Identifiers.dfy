/**
 * Identifier: an immutable `(path, value)` pair with structural equality.
 * A reference that may be null is an `Option<Identifier>`; the argument of
 * `Equals`, which may be any object, is an `Object`. The datatype's
 * constructor is the class's constructor: it stores both strings unchanged.
 */
module Identifiers {
  import opened Wrappers

  datatype Identifier = Identifier(path: string, value: string) {

    /** `Equals(object)`: holds exactly for an Identifier with the same path and value. */
    predicate Equals(obj: Object)
      ensures Equals(obj) <==> obj == IdentifierObject(this)
    {
      obj.IdentifierObject? && obj.id.path == path && obj.id.value == value
    }

    /** `ToString`: the path, a colon, then the value. */
    function ToString(): (r: string)
      ensures |r| == |path| + 1 + |value|
      ensures r[..|path|] == path && r[|path|] == ':' && r[|path| + 1..] == value
    {
      path + ":" + value
    }
  }

  /** Any object: null, an Identifier, or an object of another class. */
  datatype Object = Null | IdentifierObject(id: Identifier) | OtherObject

  /** `operator ==`: true for two nulls, false for one null, otherwise `Equals`. */
  function OpEquals(primary: Option<Identifier>, secondary: Option<Identifier>): (r: bool)
    ensures r <==> primary == secondary
  {
    if primary.None? && !secondary.None? then false
    else if secondary.None? && !primary.None? then false
    else if primary.None? then true
    else primary.value.Equals(IdentifierObject(secondary.value))
  }

  /** `operator !=`, written out as in the source rather than as a negation. */
  function OpNotEquals(primary: Option<Identifier>, secondary: Option<Identifier>): (r: bool)
    ensures r == !OpEquals(primary, secondary)
    ensures r <==> primary != secondary
  {
    if primary.None? && !secondary.None? then true
    else if secondary.None? && !primary.None? then true
    else if primary.None? then false
    else !primary.value.Equals(IdentifierObject(secondary.value))
  }

  /** `Equals` with anything that is not an Identifier is false. */
  lemma EqualsOnlyIdentifiers(id: Identifier)
    ensures !id.Equals(Null) && !id.Equals(OtherObject)
    ensures id.Equals(IdentifierObject(id))
  {
  }

  /**
   * `ToString` does not tell identifiers apart when a colon may sit in the
   * path or the value: "a:b" + "c" and "a" + "b:c" print alike.
   */
  lemma ToStringIsNotInjective()
    ensures Identifier("a:b", "c") != Identifier("a", "b:c")
    ensures Identifier("a:b", "c").ToString() == Identifier("a", "b:c").ToString()
  {
    assert Identifier("a:b", "c").ToString() == "a:b:c";
    assert Identifier("a", "b:c").ToString() == "a:b:c";
  }

  /** The path and value can be read back from the printed form when the path has no colon. */
  lemma {:induction false} ToStringSplitsAtFirstColon(id: Identifier)
    requires ':' !in id.path
    ensures var s := id.ToString();
      ':' in s && |id.path| < |s| &&
      (forall i :: 0 <= i < |id.path| ==> s[i] != ':') && s[|id.path|] == ':' &&
      s[..|id.path|] == id.path && s[|id.path| + 1..] == id.value
  {
    var s := id.ToString();
    assert s[|id.path|] == ':';
    forall i | 0 <= i < |id.path|
      ensures s[i] != ':'
    {
      assert s[i] == s[..|id.path|][i] == id.path[i];
    }
  }
}
