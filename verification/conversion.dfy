/** What converting a decoded document against a target type yields: the
    meaning of `Converter._convert_any`, `Converter.make_class` and
    `Converter._load_from_json`, as functions.

    `fuel` bounds how many `jsonFile` references may be followed along one
    path of nested conversions (a reference met inside a document that was
    itself loaded from a file spends the same budget); running out stands
    for Python's `RecursionError`, which a reference cycle provokes. */
module Conversion {
  import opened JsonTree
  import opened Schema
  import opened FieldNames

  datatype Option<T> = None | Some(value: T)

  /** What one declared field contributes to `make_class`'s loop. */
  datatype Outcome =
    | Skipped              // its wire key is absent: no argument, no error
    | Converted(v: Value)  // stored among the keyword arguments
    | Caught(e: Error)     // appended to the collected exceptions
    | Escaped(e: Error)    // propagates out of `make_class` at once

  /** Every dataclass the fields refer to is in the catalog. */
  ghost predicate FieldsFit(cat: Catalog, fields: seq<Field>) {
    forall fd :: fd in fields ==> RecNames(fd.ty) <= cat.Keys
  }

  /** `_convert_any(item, t)`: dispatch on the target type. */
  function Convert(env: Env, fuel: nat, item: Json, t: TypeDesc): (r: Result<Value>)
    requires Closed(env.catalog) && RecNames(t) <= env.catalog.Keys
    ensures r.Ok? ==> HasType(env.catalog, r.value, t)
    ensures r.Err? ==> Outgoing(r.error)
    decreases fuel, Size(item), Depth(t), 4, 0
  {
    match t
    case Rec(n) => MakeRecord(env, fuel, item, n)
    case ListOf(e) =>
      (match Iterate(item)
       case Raise(c) => Err(TypeError(c, []))
       case Value(xs) =>
         match ConvertEach(env, fuel, Size(item), xs, e)
         case Ok(vs) => Ok(List(vs))
         case Err(err) => Err(err))
    case UnionOf(first, _) => Convert(env, fuel, item, first)
    case Leaf(n) =>
      match env.leaf(n, item)
      case Made(v) => Ok(Scalar(n, v))
      case RaisedTypeError => Err(TypeError(Rejected(n, item), []))
      case RaisedOther => Err(LeafError(n, item))
  }

  /** The list comprehension of `_convert_any`: the elements in order; the
      first failure ends it. `bound` bounds the elements' sizes. */
  function ConvertEach(env: Env, fuel: nat, bound: nat, xs: seq<Json>, e: TypeDesc): (r: Result<seq<Value>>)
    requires Closed(env.catalog) && RecNames(e) <= env.catalog.Keys
    requires forall x :: x in xs ==> Size(x) <= bound
    ensures r.Ok? ==> |r.value| == |xs| && forall i :: 0 <= i < |xs| ==> HasType(env.catalog, r.value[i], e)
    ensures r.Err? ==> Outgoing(r.error)
    decreases fuel, bound, Depth(e) + 1, 1, |xs|
  {
    if xs == [] then Ok([])
    else
      match Convert(env, fuel, xs[0], e)
      case Err(err) => Err(err)
      case Ok(v) =>
        match ConvertEach(env, fuel, bound, xs[1..], e)
        case Err(err) => Err(err)
        case Ok(vs) => Ok([v] + vs)
  }

  /** `make_class(data, target)`: a file-backed target whose data holds a
      `jsonFile` entry is read from that file; otherwise the record is
      built from the data. */
  function MakeRecord(env: Env, fuel: nat, data: Json, target: string): (r: Result<Value>)
    requires Closed(env.catalog) && target in env.catalog
    ensures r.Ok? ==> HasType(env.catalog, r.value, Rec(target))
    ensures r.Err? ==> Outgoing(r.error)
    decreases fuel, Size(data), 0, 3, 0
  {
    if target in FileBacked then
      match Contains(JsonFileKey, data)
      case Raise(c) => Err(TypeError(c, []))
      case Value(false) => Build(env, fuel, data, target)
      case Value(true) =>
        match Subscript(data, JsonFileKey)
        case Raise(c) => Err(TypeError(c, []))
        case Value(ref) =>
          if ref.JString? then LoadRef(env, fuel, ref.s, target)
          else Err(TypeError(NotAPath, []))
    else Build(env, fuel, data, target)
  }

  /** `_load_from_json(path, target)`: read the sibling file and hand its
      content to `make_class` again. */
  function LoadRef(env: Env, fuel: nat, path: string, target: string): (r: Result<Value>)
    requires Closed(env.catalog) && target in env.catalog
    ensures r.Ok? ==> HasType(env.catalog, r.value, Rec(target))
    ensures r.Err? ==> Outgoing(r.error)
    decreases fuel, 0, 0, 0, 0
  {
    if path !in env.files then Err(FileNotFoundError(path))
    else if fuel == 0 then Err(RecursionError)
    else MakeRecord(env, fuel - 1, env.files[path], target)
  }

  /** The record-building part of `make_class`: every field is tried; an
      escaping error ends the loop; collected failures become one
      aggregate; otherwise the constructor is called. */
  function Build(env: Env, fuel: nat, data: Json, target: string): (r: Result<Value>)
    requires Closed(env.catalog) && target in env.catalog
    ensures r.Ok? ==> HasType(env.catalog, r.value, Rec(target))
    ensures r.Err? ==> Outgoing(r.error)
    decreases fuel, Size(data), 0, 2, 0
  {
    var fields := env.catalog[target];
    var outs := Outcomes(env, fuel, data, fields);
    match FirstEscapeOf(outs)
    case Some(e) => Err(e)
    case None =>
      var failed := FailuresOf(outs);
      if failed != [] then Err(ExceptionGroup(target, failed))
      else
        var args := SuccessesOf(outs, fields);
        SuccessesFit(env.catalog, outs, fields);
        var missing := MissingRequired(fields, args);
        if missing != [] then Err(TypeError(MissingArguments(missing), []))
        else Ok(Record(target, args))
  }

  /** One iteration of `make_class`'s loop. The membership test stands
      outside the `try`, so its `TypeError` escapes; a `TypeError` from
      reading or converting the value is caught and noted with the field;
      a nested aggregate is caught as it is; anything else escapes. */
  function TryField(env: Env, fuel: nat, data: Json, fd: Field): (r: Outcome)
    requires Closed(env.catalog) && RecNames(fd.ty) <= env.catalog.Keys
    ensures r.Skipped? <==> Contains(WireKey(fd.name), data) == Value(false)
    ensures OutcomeFits(env.catalog, r, fd)
    ensures r.Caught? ==> r.e.TypeError? ==> r.e.notes == [Note(fd.name, fd.ty)]
    ensures r.Escaped? && r.e.TypeError? ==> Contains(WireKey(fd.name), data).Raise?
    decreases fuel, Size(data), 0, 0, 0
  {
    var key := WireKey(fd.name);
    match Contains(key, data)
    case Raise(c) => Escaped(TypeError(c, []))
    case Value(false) => Skipped
    case Value(true) =>
      var converted :=
        match Subscript(data, key)
        case Raise(c) => Err(TypeError(c, []))
        case Value(v) => Convert(env, fuel, v, fd.ty);
      match converted
      case Ok(v) => Converted(v)
      case Err(e) =>
        if e.TypeError? then Caught(TypeError(e.fault, e.notes + [Note(fd.name, fd.ty)]))
        else if e.ExceptionGroup? then Caught(e)
        else Escaped(e)
  }

  /** The outcome of trying each field, in declaration order. (The loop
      stops at the first escape; the outcomes after it are never used.) */
  function Outcomes(env: Env, fuel: nat, data: Json, fields: seq<Field>): (r: seq<Outcome>)
    requires Closed(env.catalog) && FieldsFit(env.catalog, fields)
    ensures OutcomesFit(env.catalog, r, fields)
    decreases fuel, Size(data), 0, 1, |fields|
  {
    if fields == [] then []
    else
      var before := Outcomes(env, fuel, data, fields[..|fields| - 1]);
      var r := before + [TryField(env, fuel, data, fields[|fields| - 1])];
      assert forall k :: 0 <= k < |before| ==> r[k] == before[k] && fields[k] == fields[..|fields| - 1][k];
      r
  }

  /** What one field's outcome may be: a value of its type, a caught error
      that is noted or an aggregate, or an escaping error that is neither. */
  ghost predicate OutcomeFits(cat: Catalog, o: Outcome, fd: Field) {
    (o.Converted? ==> HasType(cat, o.v, fd.ty))
    && (o.Caught? ==> (o.e.TypeError? && |o.e.notes| == 1) || WellGrouped(o.e))
    && (o.Escaped? ==> !o.e.ExceptionGroup? && (o.e.TypeError? ==> o.e.notes == []))
  }

  ghost predicate OutcomesFit(cat: Catalog, outs: seq<Outcome>, fields: seq<Field>) {
    |outs| == |fields| && forall k :: 0 <= k < |outs| ==> OutcomeFits(cat, outs[k], fields[k])
  }

  /** The error that ends the loop, if any: the first escaping one. */
  function FirstEscapeOf(outs: seq<Outcome>): (r: Option<Error>)
    ensures r.Some? ==> Escaped(r.value) in outs
  {
    if outs == [] then None
    else
      match FirstEscapeOf(outs[..|outs| - 1])
      case Some(e) => Some(e)
      case None => if outs[|outs| - 1].Escaped? then Some(outs[|outs| - 1].e) else None
  }

  /** The exceptions the loop collects. */
  function FailuresOf(outs: seq<Outcome>): (r: seq<Error>)
    ensures forall c :: c in r ==> Caught(c) in outs
  {
    if outs == [] then []
    else
      FailuresOf(outs[..|outs| - 1])
      + match outs[|outs| - 1]
        case Caught(e) => [e]
        case _ => []
  }

  /** The keyword arguments the loop gathers. */
  function SuccessesOf(outs: seq<Outcome>, fields: seq<Field>): (r: seq<Arg>)
    requires |outs| == |fields|
    ensures forall a :: a in r ==> exists k :: 0 <= k < |fields| && a.name == fields[k].name && outs[k] == Converted(a.value)
  {
    if outs == [] then []
    else
      var n := |outs| - 1;
      var before := SuccessesOf(outs[..n], fields[..n]);
      match outs[n]
      case Converted(v) => before + [Arg(fields[n].name, v)]
      case _ => before
  }

  lemma {:induction false} SuccessesFit(cat: Catalog, outs: seq<Outcome>, fields: seq<Field>)
    requires OutcomesFit(cat, outs, fields)
    ensures ArgsFit(cat, SuccessesOf(outs, fields), fields)
  {
    if outs != [] {
      var n := |outs| - 1;
      SuccessesFit(cat, outs[..n], fields[..n]);
      var r := SuccessesOf(outs, fields);
      if outs[n].Converted? {
        assert r[..|r| - 1] == SuccessesOf(outs[..n], fields[..n]);
      }
    }
  }

  function ArgNames(args: seq<Arg>): (names: seq<string>)
    ensures |names| == |args| && forall i :: 0 <= i < |args| ==> names[i] == args[i].name
  {
    if args == [] then [] else [args[0].name] + ArgNames(args[1..])
  }

  /** The fields without a default that the arguments leave out; the
      generated `__init__` raises a `TypeError` naming them. */
  function MissingRequired(fields: seq<Field>, args: seq<Arg>): (r: seq<string>)
    ensures forall m :: m in r <==>
      exists fd :: fd in fields && !fd.hasDefault && fd.name == m && m !in ArgNames(args)
  {
    if fields == [] then []
    else
      var fd := fields[|fields| - 1];
      MissingRequired(fields[..|fields| - 1], args)
      + if !fd.hasDefault && fd.name !in ArgNames(args) then [fd.name] else []
  }
}
