/**
 The values a parsed JSON request body can hold, as JavaScript sees them, together with the
 two JavaScript operators the validators apply to them (truthiness behind `!v`, and
 `typeof v`) and the property read `body.key`.
 */
module JsonValues {
  import opened Wrappers

  /** `Undefined` is what reading an absent property yields. Objects keep their members in
      source order, duplicates included. */
  datatype JsonValue =
    | Undefined
    | Null
    | Boolean(b: bool)
    | Number(x: real)
    | Str(s: string)
    | Array(items: seq<JsonValue>)
    | Object(members: seq<(string, JsonValue)>)

  /** JavaScript truthiness. Numbers are exact reals here, so only zero is falsy; a double
      that rounds to zero, such as `1e-400`, is not modelled (the validators never test the
      truthiness of a number that gets past their `typeof` guard). */
  predicate Truthy(v: JsonValue) {
    match v
    case Undefined => false
    case Null => false
    case Boolean(b) => b
    case Number(x) => x != 0.0
    case Str(s) => s != ""
    case Array(_) => true
    case Object(_) => true
  }

  /** The `typeof` operator (which famously answers "object" for `null`). */
  function TypeOf(v: JsonValue): (t: string)
    ensures t == "string" <==> v.Str?
  {
    match v
    case Undefined => "undefined"
    case Null => "object"
    case Boolean(_) => "boolean"
    case Number(_) => "number"
    case Str(_) => "string"
    case Array(_) => "object"
    case Object(_) => "object"
  }

  /** The value of the last member named `key`, as `JSON.parse` keeps the last duplicate. */
  function LastMember(members: seq<(string, JsonValue)>, key: string): (r: Option<JsonValue>)
    ensures r.None? <==> forall i | 0 <= i < |members| :: members[i].0 != key
    ensures r.Some? ==> (key, r.value) in members
  {
    if members == [] then None
    else if members[|members| - 1].0 == key then Some(members[|members| - 1].1)
    else LastMember(members[..|members| - 1], key)
  }

  /** `v.key` for a property that is not inherited: absent members, and every property of a
      non-object (arrays, strings and the rest have none of the names read here), read as
      `undefined`. The body `express.json()` delivers is an object or an array; reading a
      property of `null` or `undefined`, which throws in JavaScript, is not modelled. */
  function Get(v: JsonValue, key: string): (r: JsonValue)
    ensures !v.Object? ==> r == Undefined
    ensures v.Object? && (forall i | 0 <= i < |v.members| :: v.members[i].0 != key) ==> r == Undefined
    ensures v.Object? && r != Undefined ==> (key, r) in v.members
  {
    match v
    case Object(members) =>
      (match LastMember(members, key) case Some(x) => x case None => Undefined)
    case _ => Undefined
  }

  /** A later member overrides every earlier one with the same name. */
  lemma LastMemberWins(members: seq<(string, JsonValue)>, key: string, x: JsonValue)
    ensures Get(Object(members + [(key, x)]), key) == x
  {
    var m := members + [(key, x)];
    assert m[|m| - 1] == (key, x);
  }

  /** A member with another name does not affect the property read. */
  lemma OtherMemberIgnored(members: seq<(string, JsonValue)>, key: string, other: string, x: JsonValue)
    requires other != key
    ensures Get(Object(members + [(other, x)]), key) == Get(Object(members), key)
  {
    var m := members + [(other, x)];
    assert m[..|m| - 1] == members;
  }
}
