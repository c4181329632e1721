/**
  Decoded JSON values, as `JSON.parse` hands them to the extension, and
  JavaScript property access on them. Parsing itself is a foreign call and is
  not modelled: a frame that fails to parse is `None` where an `Option<Json>`
  is expected.
 */
module Json {
  import opened Wrappers

  /** Object members are listed in the order the engine enumerates them. */
  datatype Json =
    | JNull
    | JBool(b: bool)
    | JNum(n: real)
    | JStr(s: string)
    | JArr(items: seq<Json>)
    | JObj(members: seq<Member>)

  datatype Member = Member(key: string, value: Json)

  /** The result of evaluating a JavaScript expression that may throw a TypeError. */
  datatype Eval<T> = Value(v: T) | TypeError

  /** The first member named `key`, if any. */
  function Get(members: seq<Member>, key: string): (r: Option<Json>)
    ensures r.Some? <==> exists i :: 0 <= i < |members| && members[i].key == key
    ensures r.Some? ==> exists i :: 0 <= i < |members| && members[i] == Member(key, r.value)
    decreases |members|
  {
    if |members| == 0 then None
    else if members[0].key == key then Some(members[0].value)
    else
      var r := Get(members[1..], key);
      assert forall i :: 0 <= i < |members| - 1 ==> members[1..][i] == members[i + 1];
      r
  }

  /**
    `v[key]` for a key that names no built-in property of strings or arrays:
    reading a property of `null` throws, a missing property (and any property
    of a primitive or an array) is `undefined`, rendered as `None`.
   */
  function Lookup(v: Json, key: string): (r: Eval<Option<Json>>)
    ensures r.TypeError? <==> v.JNull?
    ensures r.Value? && r.v.Some? <==> v.JObj? && Get(v.members, key).Some?
    ensures v.JObj? ==> r == Value(Get(v.members, key))
  {
    match v
    case JNull => TypeError
    case JObj(ms) => Value(Get(ms, key))
    case _ => Value(None)
  }

  /** `key in v` for decoded values, i.e. `v[key] !== undefined` when it does not throw. */
  predicate Has(v: Json, key: string) {
    v.JObj? && Get(v.members, key).Some?
  }

  /** JavaScript truthiness: null, false, 0 and "" are falsy. */
  predicate Truthy(v: Json) {
    match v
    case JNull => false
    case JBool(b) => b
    case JNum(n) => n != 0.0
    case JStr(s) => s != ""
    case _ => true
  }

  /** `v === JSON-string s`: strict equality against a string token. */
  predicate IsToken(v: Json, s: string) {
    v == JStr(s)
  }
}
