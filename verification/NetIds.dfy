/**
 * NetId: a network identifier of 26 characters drawn from a 65-character
 * alphabet. A reference that may be null is an `Option<NetId>`; the argument
 * of `Equals`, which may be any object, is an `Object`.
 */
module NetIds {
  import opened Wrappers

  const ValidChars: string := "abcdefghijklmnopqrstuvwxyzABCDEFGHIJKLMNOPQRSTUVWXYZ1234567890$@#"
  const ValidLength: nat := 26

  /** The raw value of the `Empty` identifier. */
  const NullRaw: string := "__NULL__"

  datatype NetId = NetId(raw: string) {

    /** `Equals(object)`: holds exactly for a NetId with the same raw string. */
    predicate Equals(obj: Object)
      ensures Equals(obj) <==> obj == NetIdObject(this)
    {
      obj.NetIdObject? && obj.id.raw == raw
    }

    /** `ToString`: the raw string between angle brackets. */
    function ToString(): (r: string)
      ensures |r| == |raw| + 2 && r[0] == '<' && r[|r| - 1] == '>'
      ensures r[1..|r| - 1] == raw
    {
      "<" + raw + ">"
    }
  }

  /** Any object: null, a NetId, or an object of another class. */
  datatype Object = Null | NetIdObject(id: NetId) | OtherObject

  /** `NetId.Empty`, whose raw value is the placeholder "__NULL__". */
  function Empty(): NetId
  {
    NetId(NullRaw)
  }

  /** A raw string that names a NetId: the right length and only valid characters. */
  predicate IsValidRaw(rawString: string)
  {
    |rawString| == ValidLength && forall i :: 0 <= i < |rawString| ==> rawString[i] in ValidChars
  }

  /** `Parse`: a NetId holding the string when it is valid, and null otherwise. */
  function Parse(rawString: string): (r: Option<NetId>)
    ensures r.Some? <==> IsValidRaw(rawString)
    ensures r.Some? ==> r.value.raw == rawString
  {
    if |rawString| == ValidLength && (forall c | c in rawString :: c in ValidChars) then
      Some(NetId(rawString))
    else
      None
  }

  /** `operator ==`: true for two nulls, false for one null, otherwise `Equals`. */
  function OpEquals(primary: Option<NetId>, secondary: Option<NetId>): (r: bool)
    ensures r <==> primary == secondary
  {
    if primary.None? && !secondary.None? then false
    else if secondary.None? && !primary.None? then false
    else if primary.None? then true
    else primary.value.Equals(NetIdObject(secondary.value))
  }

  /** `operator !=`, written out as in the source rather than as a negation. */
  function OpNotEquals(primary: Option<NetId>, secondary: Option<NetId>): (r: bool)
    ensures r == !OpEquals(primary, secondary)
    ensures r <==> primary != secondary
  {
    if primary.None? && !secondary.None? then true
    else if secondary.None? && !primary.None? then true
    else if primary.None? then false
    else !primary.value.Equals(NetIdObject(secondary.value))
  }

  /** `TryParse`: whether `Parse` succeeds, with its result as the out parameter. */
  method TryParse(rawString: string) returns (success: bool, reference: Option<NetId>)
    ensures reference == Parse(rawString)
    ensures success <==> IsValidRaw(rawString)
  {
    reference := Parse(rawString);
    if OpNotEquals(reference, None) {
      return true, reference;
    }
    return false, reference;
  }

  /**
   * `GenerateIdent`: 26 characters, each picked by one draw of the random
   * source, in order; `rand` holds the draws, each below the alphabet's size.
   */
  method GenerateIdent(rand: seq<int>) returns (ident: string)
    requires |rand| >= ValidLength
    requires forall i :: 0 <= i < |rand| ==> 0 <= rand[i] < |ValidChars|
    ensures |ident| == ValidLength
    ensures forall i :: 0 <= i < ValidLength ==> ident[i] == ValidChars[rand[i]]
    ensures Parse(ident) == Some(NetId(ident))
  {
    var length := ValidLength;
    var builder: string := "";
    while length > 0
      invariant 0 <= length <= ValidLength
      invariant |builder| == ValidLength - length
      invariant forall i :: 0 <= i < |builder| ==> builder[i] == ValidChars[rand[i]]
    {
      length := length - 1;
      builder := builder + [ValidChars[rand[|builder|]]];
    }
    ident := builder;
    assert IsValidRaw(ident) by {
      forall i | 0 <= i < |ident|
        ensures ident[i] in ValidChars
      {
        assert ident[i] == ValidChars[rand[i]];
      }
    }
  }

  /** `Generate`: a fresh NetId from the random draws; `Parse` accepts its raw string. */
  method Generate(rand: seq<int>) returns (id: NetId)
    requires |rand| >= ValidLength
    requires forall i :: 0 <= i < |rand| ==> 0 <= rand[i] < |ValidChars|
    ensures Parse(id.raw) == Some(id)
    ensures id != Empty()
  {
    var ident := GenerateIdent(rand);
    id := NetId(ident);
  }

  /** `Equals` on NetIds is reflexive, symmetric and transitive. */
  lemma EqualsIsEquivalence(a: NetId, b: NetId, c: NetId)
    ensures a.Equals(NetIdObject(a))
    ensures a.Equals(NetIdObject(b)) ==> b.Equals(NetIdObject(a))
    ensures a.Equals(NetIdObject(b)) && b.Equals(NetIdObject(c)) ==> a.Equals(NetIdObject(c))
  {
  }

  /** The raw value of `Empty` is not a valid NetId, so `Parse` never yields `Empty`. */
  lemma {:induction false} EmptyNeverParsed(rawString: string)
    ensures Parse(NullRaw).None?
    ensures Parse(rawString) != Some(Empty())
    ensures !OpEquals(Parse(rawString), Some(Empty()))
  {
    assert |NullRaw| != ValidLength;
  }
}
