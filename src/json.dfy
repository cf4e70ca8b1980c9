/** The JSON documents the program reads and writes, as the values Python's
    `json` module turns them into. Text syntax, escaping and floating-point
    numbers are not modelled. */
module Json {
  import opened Wrappers

  /** Objects keep their members in document order, as Python dicts keep
      insertion order. */
  datatype JsonValue =
    | JNull
    | JBool(b: bool)
    | JInt(i: int)
    | JString(s: string)
    | JArray(items: seq<JsonValue>)
    | JObject(members: seq<(string, JsonValue)>)

  /** `obj[key]` on the dict that `json.loads` builds from `members`: when a
      key is repeated, the last binding wins. */
  function Lookup(members: seq<(string, JsonValue)>, key: string): (r: Option<JsonValue>)
    ensures r.None? <==> forall k :: 0 <= k < |members| ==> members[k].0 != key
    ensures r.Some? ==>
              exists k :: 0 <= k < |members| && members[k] == (key, r.value)
                          && forall l :: k < l < |members| ==> members[l].0 != key
  {
    if members == [] then None
    else if members[|members| - 1].0 == key then Some(members[|members| - 1].1)
    else Lookup(members[..|members| - 1], key)
  }

  /** With pairwise distinct keys, looking a member's key up yields that
      member's value. */
  lemma LookupDistinct(members: seq<(string, JsonValue)>, k: nat)
    requires k < |members|
    requires forall i, j :: 0 <= i < j < |members| ==> members[i].0 != members[j].0
    ensures Lookup(members, members[k].0) == Some(members[k].1)
  {
    var r := Lookup(members, members[k].0);
    var k' :| 0 <= k' < |members| && members[k'] == (members[k].0, r.value)
      && forall l :: k' < l < |members| ==> members[l].0 != members[k].0;
    assert k' == k;
  }
}
