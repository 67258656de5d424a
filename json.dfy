/** Decoded JSON values, as `json.loads` returns them, and the few Python
    operations the factories apply to them: truthiness, `isinstance(x, int)`
    and dictionary lookup. Decoding itself is not modelled: a JSON argument is
    given either as the value it decodes to or as text that does not decode. */
module Json {
  import opened Wrappers

  /** An object is given as the items of the decoded dictionary, in iteration order. */
  datatype Json =
    | JNull
    | JBool(b: bool)
    | JInt(i: int)
    | JFloat(f: real)
    | JString(s: string)
    | JArray(items: seq<Json>)
    | JObject(members: seq<(string, Json)>)

  /** The outcome of `json.loads` on an argument: a `JSONDecodeError`, or a value. */
  datatype JsonText = Malformed | Decoded(value: Json)

  /** `bool(value)`: null, false, zero and empty containers are false. */
  predicate Truthy(j: Json)
  {
    match j
    case JNull => false
    case JBool(b) => b
    case JInt(i) => i != 0
    case JFloat(f) => f != 0.0
    case JString(s) => s != []
    case JArray(items) => items != []
    case JObject(members) => members != []
  }

  /** `isinstance(value, int)`, which a boolean also passes. */
  predicate IsInt(j: Json)
  {
    j.JInt? || j.JBool?
  }

  /** The integer an `int` value stands for; `True` is 1 and `False` is 0. */
  function IntValue(j: Json): int
    requires IsInt(j)
  {
    if j.JInt? then j.i else if j.b then 1 else 0
  }

  /** No key occurs twice, as in every dictionary `json.loads` returns. */
  predicate DistinctKeys(members: seq<(string, Json)>)
  {
    forall i, j | 0 <= i < j < |members| :: members[i].0 != members[j].0
  }

  /** `d[key]`: the value stored under the key, or a `KeyError`. */
  function Get(members: seq<(string, Json)>, key: string): (r: Result<Json>)
    ensures r.Raise? <==> forall i | 0 <= i < |members| :: members[i].0 != key
    ensures r.Raise? ==> r.error == KeyError
    ensures r.Ok? ==> exists i | 0 <= i < |members| :: members[i] == (key, r.value)
  {
    if members == [] then Raise(KeyError)
    else if members[0].0 == key then Ok(members[0].1)
    else
      var rest := Get(members[1..], key);
      assert forall i | 1 <= i < |members| :: members[i] == members[1..][i - 1];
      rest
  }

  /** In a dictionary the value found is the one stored under the key. */
  lemma GetFindsStored(members: seq<(string, Json)>, k: nat)
    requires DistinctKeys(members) && k < |members|
    ensures Get(members, members[k].0) == Ok(members[k].1)
  {
    var r := Get(members, members[k].0);
    var i :| 0 <= i < |members| && members[i] == (members[k].0, r.value);
    assert i == k;
  }
}
