/**
 * A JSON document as `response.json()` hands it to Python (`None`, `bool`,
 * `int`, `str`, `list`, `dict`), with the Python operations the client
 * applies to it: truthiness, `dict.get`, and `str()`.
 */
module PyJson {
  import opened PyText

  /** A parsed JSON value. Object members keep their order, as Python dicts do. */
  datatype Json =
    | JNull
    | JBool(b: bool)
    | JInt(i: int)
    | JString(s: string)
    | JArray(items: seq<Json>)
    | JObject(members: seq<(string, Json)>)

  /** Python truthiness: `None`, `False`, `0`, `""`, `[]` and `{}` are false. */
  predicate Truthy(j: Json) {
    match j
    case JNull => false
    case JBool(b) => b
    case JInt(i) => i != 0
    case JString(s) => s != []
    case JArray(items) => items != []
    case JObject(members) => members != []
  }

  predicate HasKey(members: seq<(string, Json)>, key: string) {
    exists i :: 0 <= i < |members| && members[i].0 == key
  }

  /** No key occurs twice, as in every dict `json()` returns. */
  predicate UniqueKeys(members: seq<(string, Json)>) {
    forall i, j :: 0 <= i < j < |members| ==> members[i].0 != members[j].0
  }

  /** `d.get(key)`: the value stored under `key`, or `None` when there is none. */
  function Get(members: seq<(string, Json)>, key: string): (v: Json)
    ensures !HasKey(members, key) ==> v == JNull
    ensures HasKey(members, key) ==> exists i :: 0 <= i < |members| && members[i] == (key, v)
  {
    if members == [] then JNull
    else if members[0].0 == key then members[0].1
    else
      var v := Get(members[1..], key);
      assert HasKey(members, key) ==> HasKey(members[1..], key) by {
        if HasKey(members, key) {
          var i :| 0 <= i < |members| && members[i].0 == key;
          assert members[1..][i - 1].0 == key;
        }
      }
      assert HasKey(members[1..], key) ==> HasKey(members, key) by {
        if HasKey(members[1..], key) {
          var i :| 0 <= i < |members[1..]| && members[1..][i].0 == key;
          assert members[i + 1].0 == key;
        }
      }
      v
  }

  /** With unique keys, Get finds the one value stored under the key, as `dict.get` does. */
  lemma {:induction false} GetOfUniqueKeys(members: seq<(string, Json)>, i: nat)
    requires UniqueKeys(members) && i < |members|
    ensures Get(members, members[i].0) == members[i].1
  {
    if i > 0 {
      assert members[0].0 != members[i].0;
      assert UniqueKeys(members[1..]) by {
        forall a, b | 0 <= a < b < |members[1..]| ensures members[1..][a].0 != members[1..][b].0 {
          assert members[1..][a] == members[a + 1] && members[1..][b] == members[b + 1];
        }
      }
      GetOfUniqueKeys(members[1..], i - 1);
      assert members[1..][i - 1] == members[i];
    }
  }

  /** `repr(s)` for a string, with single quotes and without escaping. */
  function Quote(s: string): string {
    "'" + s + "'"
  }

  /** `repr(j)`, which is also how `str()` shows values nested in a list or dict. */
  function Repr(j: Json): (r: string)
    ensures r != []
    decreases j, 1
  {
    match j
    case JNull => "None"
    case JBool(b) => if b then "True" else "False"
    case JInt(i) => Decimal(i)
    case JString(s) => Quote(s)
    case JArray(items) => "[" + ReprItems(items) + "]"
    case JObject(members) => "{" + ReprMembers(members) + "}"
  }

  /** The elements of a list, each as `repr`, separated by ", ". */
  function ReprItems(items: seq<Json>): string
    decreases items, 0
  {
    if items == [] then []
    else if |items| == 1 then Repr(items[0])
    else Repr(items[0]) + ", " + ReprItems(items[1..])
  }

  /** The members of a dict, each as `'key': repr(value)`, separated by ", ". */
  function ReprMembers(members: seq<(string, Json)>): string
    decreases members, 0
  {
    if members == [] then []
    else
      var (key, value) := members[0];
      assert value < members[0];
      var entry := Quote(key) + ": " + Repr(value);
      if |members| == 1 then entry else entry + ", " + ReprMembers(members[1..])
  }

  /** `str(j)`: a string is shown as itself, anything else as its `repr`. */
  function Str(j: Json): (r: string)
    ensures r == [] <==> j == JString([])
    ensures j.JString? ==> r == j.s
    ensures !j.JString? ==> r == Repr(j)
  {
    if j.JString? then j.s else Repr(j)
  }

  /** `str()` of a dict always shows its braces, so it is never empty. */
  lemma StrOfObject(members: seq<(string, Json)>)
    ensures var r := Str(JObject(members)); |r| >= 2 && r[0] == '{' && r[|r| - 1] == '}'
  {
  }
}
