/** A decoded JSON document, as `json.load` returns it, and the three Python
    operations the converter applies to one: `key in data`, `data[key]` and
    iteration (`for x in data`). */
module JsonTree {
  import opened PyStrings

  /** One entry of a decoded object. A decoded object is a `dict`, so its
      keys are distinct; the entries keep the document's order. */
  datatype Member = Member(key: string, value: Json)

  datatype Json =
    | JNull
    | JBool(b: bool)
    | JNumber(literal: string)   // the number as written
    | JString(s: string)
    | JArray(items: seq<Json>)
    | JObject(members: seq<Member>)

  /** A size that every direct part of a document is below; it bounds the
      recursion of the converter. */
  function Size(j: Json): (n: nat)
    ensures n >= 1
  {
    match j
    case JArray(xs) => 1 + ItemsSize(xs)
    case JObject(ms) => 1 + MembersSize(ms)
    case _ => 1
  }

  function ItemsSize(xs: seq<Json>): nat {
    if xs == [] then 0 else Size(xs[0]) + ItemsSize(xs[1..])
  }

  function MembersSize(ms: seq<Member>): nat {
    if ms == [] then 0 else 1 + Size(ms[0].value) + MembersSize(ms[1..])
  }

  lemma {:induction false} ItemBelow(xs: seq<Json>, x: Json)
    requires x in xs
    ensures Size(x) <= ItemsSize(xs)
  {
    if xs[0] != x {
      ItemBelow(xs[1..], x);
    }
  }

  /** The keys of an object, in order. */
  function Keys(ms: seq<Member>): (ks: seq<string>)
    ensures |ks| == |ms| && forall i :: 0 <= i < |ms| ==> ks[i] == ms[i].key
  {
    if ms == [] then [] else [ms[0].key] + Keys(ms[1..])
  }

  /** The value stored under `key` (the first entry holding it). */
  function Lookup(ms: seq<Member>, key: string): (v: Json)
    requires key in Keys(ms)
    ensures Member(key, v) in ms
    ensures Size(v) < 1 + MembersSize(ms)
  {
    if ms[0].key == key then ms[0].value else Lookup(ms[1..], key)
  }

  /** The failures of Python's operators on the wrong kind of value; each
      raises a `TypeError`. Those of the converter itself are listed here
      too. */
  datatype TypeFault =
    | NotAContainer              // `key in data` with data None, a bool or a number
    | StringIndex                // `data[key]` with data a list or a str
    | NotAPath                   // `Path(x)` with x not a str
    | NotIterable                // `for x in data` with data None, a bool or a number
    | MissingArguments(names: seq<string>)  // a record built without a required field
    | Rejected(ty: string, item: Json)      // a leaf constructor refused its input

  /** The outcome of one Python operation: a value or a raised `TypeError`. */
  datatype Py<T> = Value(get: T) | Raise(fault: TypeFault)

  /** `key in data`: a key test on an object, an element test on a list, a
      substring test on a string, and a `TypeError` on anything else. */
  function Contains(key: string, data: Json): (r: Py<bool>)
    ensures r.Raise? <==> data.JNull? || data.JBool? || data.JNumber?
  {
    match data
    case JObject(ms) => Value(key in Keys(ms))
    case JArray(xs) => Value(JString(key) in xs)
    case JString(s) => Value(IsSubstring(key, s))
    case _ => Raise(NotAContainer)
  }

  /** On an object, `key in data` holds exactly when some entry has that
      key. */
  lemma ContainsOnObject(key: string, ms: seq<Member>)
    ensures Contains(key, JObject(ms)) == Value(true) <==> exists m :: m in ms && m.key == key
  {
    if m :| m in ms && m.key == key {
      var i :| 0 <= i < |ms| && ms[i] == m;
      assert Keys(ms)[i] == key;
    }
  }

  /** `data[key]` once `key in data` held: the entry's value on an object,
      a `TypeError` on a list or a string (they take integer indices). */
  function Subscript(data: Json, key: string): (r: Py<Json>)
    requires Contains(key, data) == Value(true)
    ensures r.Raise? <==> !data.JObject?
    ensures r.Value? ==> Member(key, r.get) in data.members && Size(r.get) < Size(data)
  {
    match data
    case JObject(ms) => Value(Lookup(ms, key))
    case _ => Raise(StringIndex)
  }

  /** The elements `for x in data` visits: a list's items, an object's
      keys, a string's characters (each a one-character string). */
  function Iterate(data: Json): (r: Py<seq<Json>>)
    ensures r.Value? ==> forall x :: x in r.get ==> Size(x) <= Size(data)
  {
    match data
    case JArray(xs) =>
      assert forall x :: x in xs ==> Size(x) <= ItemsSize(xs) by {
        forall x | x in xs ensures Size(x) <= ItemsSize(xs) { ItemBelow(xs, x); }
      }
      Value(xs)
    case JObject(ms) => Value(seq(|ms|, i requires 0 <= i < |ms| => JString(ms[i].key)))
    case JString(s) => Value(seq(|s|, i requires 0 <= i < |s| => JString([s[i]])))
    case _ => Raise(NotIterable)
  }
}
