/** An already-parsed JSON document (RFC 8259) and the lookups the checkers
    perform on it. Text parsing is not part of this model: an HTTP body is
    turned into a tree by a `Parser` supplied from outside. */
module Json {
  import opened Wrappers

  datatype Json =
    | JNull
    | JBool(b: bool)
    | JNumber(n: int)
    | JString(s: string)
    | JArray(items: seq<Json>)
    | JObject(members: seq<(string, Json)>)

  /** What the JSON library makes of a response body: a tree, or nothing when
      the text does not parse. */
  type Parser = string -> Option<Json>

  /** The value of the first member named `key` of an object member list. */
  function Lookup(members: seq<(string, Json)>, key: string): Option<Json>
  {
    if |members| == 0 then None
    else if members[0].0 == key then Some(members[0].1)
    else Lookup(members[1..], key)
  }

  /** A lookup finds a member exactly when one has the name, and then it is
      the value of the first such member. */
  lemma {:induction false} LookupFindsFirst(members: seq<(string, Json)>, key: string)
    ensures Lookup(members, key).Some? ==>
      exists i :: 0 <= i < |members| && members[i] == (key, Lookup(members, key).value)
                  && forall k :: 0 <= k < i ==> members[k].0 != key
    ensures Lookup(members, key).None? <==> forall i :: 0 <= i < |members| ==> members[i].0 != key
  {
    if |members| > 0 && members[0].0 != key {
      LookupFindsFirst(members[1..], key);
      assert forall i :: 1 <= i < |members| ==> members[i] == members[1..][i - 1];
      if Lookup(members, key).Some? {
        var i :| 0 <= i < |members[1..]| && members[1..][i] == (key, Lookup(members, key).value)
                 && forall k :: 0 <= k < i ==> members[1..][k].0 != key;
        assert members[i + 1] == members[1..][i];
      }
    }
  }

  /** The object item named `key`; an array, a scalar or null has none. */
  function GetObjectItem(j: Json, key: string): (r: Option<Json>)
    ensures r.Some? ==> j.JObject?
  {
    if j.JObject? then Lookup(j.members, key) else None
  }

  /** The object item named `key` of a node that may itself be missing. */
  function Field(node: Option<Json>, key: string): Option<Json>
  {
    if node.Some? then GetObjectItem(node.value, key) else None
  }

  /** The children the library's array size and array item accessors walk:
      the items of an array, the member values of an object, nothing else. */
  function Children(j: Json): seq<Json>
  {
    match j
    case JArray(items) => items
    case JObject(members) => seq(|members|, i requires 0 <= i < |members| => members[i].1)
    case _ => []
  }

  /** Reading a boolean member: it must be present and be a JSON boolean. */
  function ReadBool(j: Json, key: string): Option<bool>
  {
    match GetObjectItem(j, key)
    case Some(JBool(b)) => Some(b)
    case _ => None
  }

  /** Reading a string member: it must be present and be a JSON string. */
  function ReadString(j: Json, key: string): Option<string>
  {
    match GetObjectItem(j, key)
    case Some(JString(s)) => Some(s)
    case _ => None
  }

  /** Reading an unsigned integer member: a non-negative JSON number. */
  function ReadNat(j: Json, key: string): Option<nat>
  {
    match GetObjectItem(j, key)
    case Some(JNumber(n)) => if n >= 0 then Some(n) else None
    case _ => None
  }
}
