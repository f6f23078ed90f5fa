/** `Converter`, the object that reads a CMake file-API reply directory into
    the reply dataclasses, and `load_reply_dir`. Each method is proved to
    compute what the corresponding function of `Conversion` says.

    The methods mirror those functions step for step. They exist because the
    source works by statements: the field loop and the list comprehension
    become `for` loops (`TryFields`, `ConvertAny`), and the methods they
    call must be methods too. What the source promises is proved about the
    functions; the methods inherit it through their `ensures`. */
module Reply {
  import opened JsonTree
  import opened Schema
  import opened FieldNames
  import opened Conversion
  import opened Dispatch
  import opened FieldLoop
  import opened IndexFiles

  class Converter {
    /** The reply directory (its listing and decoded files), the dataclass
        catalog and the leaf constructors. */
    const env: Env
    /** How many `jsonFile` references may be followed along one path of
        nested conversions before the interpreter's recursion limit is
        reached. */
    const limit: nat

    constructor(env: Env, limit: nat)
      ensures this.env == env && this.limit == limit
    {
      this.env := env;
      this.limit := limit;
    }

    /** `load`: read the newest index file and convert it to `Index`. With
        no index file, `sorted(...)[-1]` raises `IndexError`. */
    method Load() returns (r: Result<Value>)
      requires Closed(env.catalog) && IndexType in env.catalog
      ensures (forall n :: n in env.listing ==> !IsIndexName(n)) ==> r == Err(IndexError)
      ensures (exists n :: n in env.listing && IsIndexName(n)) ==>
        exists n :: n in env.listing && IsIndexName(n)
          && (forall m :: m in env.listing && IsIndexName(m) ==> PyStrings.LessEq(m, n))
          && r == if n in env.files then Build(env, limit, env.files[n], IndexType)
                  else Err(FileNotFoundError(n))
    {
      var names := IndexNames(env.listing);
      if names == [] {
        return Err(IndexError);
      }
      var newest := Newest(names);
      assert newest in env.listing && IsIndexName(newest);
      assert forall m :: m in env.listing && IsIndexName(m) ==> m in names;
      if newest !in env.files {
        return Err(FileNotFoundError(newest));
      }
      IndexNotFileBacked();
      r := MakeClass(limit, env.files[newest], IndexType);
    }

    /** `_load_from_json`: read a sibling file and convert its content. */
    method LoadFromJson(fuel: nat, name: string, target: string) returns (r: Result<Value>)
      requires Closed(env.catalog) && target in env.catalog
      ensures r == LoadRef(env, fuel, name, target)
      decreases fuel, 0, 0, 0
    {
      if name !in env.files {
        return Err(FileNotFoundError(name));
      }
      if fuel == 0 {
        return Err(RecursionError);
      }
      r := MakeClass(fuel - 1, env.files[name], target);
    }

    /** `make_class`: follow a `jsonFile` reference of a file-backed
        target; otherwise build the record from the data. */
    method MakeClass(fuel: nat, data: Json, target: string) returns (r: Result<Value>)
      requires Closed(env.catalog) && target in env.catalog
      ensures r == MakeRecord(env, fuel, data, target)
      decreases fuel, Size(data), 0, 4
    {
      if target in FileBacked {
        var has := Contains(JsonFileKey, data);
        if has.Raise? {
          return Err(TypeError(has.fault, []));
        }
        if has.get {
          var ref := Subscript(data, JsonFileKey);
          if ref.Raise? {
            return Err(TypeError(ref.fault, []));
          }
          if !ref.get.JString? {
            return Err(TypeError(NotAPath, []));
          }
          r := LoadFromJson(fuel, ref.get.s, target);
          return;
        }
      }
      r := BuildRecord(fuel, data, target);
    }

    /** The rest of `make_class`: run the field loop, then raise the
        escaping error or the aggregate, or call the constructor. */
    method BuildRecord(fuel: nat, data: Json, target: string) returns (r: Result<Value>)
      requires Closed(env.catalog) && target in env.catalog
      ensures r == Build(env, fuel, data, target)
      decreases fuel, Size(data), 0, 3
    {
      var fields := env.catalog[target];
      var escape, inputDict, exceptions := TryFields(fuel, data, fields);
      BuildSteps(env, fuel, data, target);
      if escape.Some? {
        return Err(escape.value);
      }
      if exceptions != [] {
        return Err(ExceptionGroup(target, exceptions));
      }
      var missing := MissingRequired(fields, inputDict);
      if missing != [] {
        return Err(TypeError(MissingArguments(missing), []));
      }
      return Ok(Record(target, inputDict));
    }

    /** The loop of `make_class`: try every declared field in turn, keep
        the converted values and the caught errors, and stop at the first
        escaping error. */
    method TryFields(fuel: nat, data: Json, fields: seq<Field>)
      returns (escape: Option<Error>, inputDict: seq<Arg>, exceptions: seq<Error>)
      requires Closed(env.catalog) && FieldsFit(env.catalog, fields)
      ensures escape == FirstEscapeOf(Outcomes(env, fuel, data, fields))
      ensures escape.None? ==>
        inputDict == SuccessesOf(Outcomes(env, fuel, data, fields), fields)
        && exceptions == FailuresOf(Outcomes(env, fuel, data, fields))
      decreases fuel, Size(data), 0, 2
    {
      ghost var outs := Outcomes(env, fuel, data, fields);
      inputDict := [];
      exceptions := [];
      for i := 0 to |fields|
        invariant FirstEscapeOf(outs[..i]) == None
        invariant inputDict == SuccessesOf(outs[..i], fields[..i])
        invariant exceptions == FailuresOf(outs[..i])
      {
        assert fields[i] in fields;
        var o := TryOneField(fuel, data, fields[i]);
        OutcomeIs(env, fuel, data, fields, i);
        PassOver(outs, fields, i, inputDict, exceptions);
        if o.Escaped? {
          return Some(o.e), inputDict, exceptions;
        }
        inputDict := inputDict + if o.Converted? then [Arg(fields[i].name, o.v)] else [];
        exceptions := exceptions + if o.Caught? then [o.e] else [];
      }
      assert outs[..|fields|] == outs && fields[..|fields|] == fields;
      escape := None;
    }

    /** One pass of the loop of `make_class`: the membership test, then,
        inside the `try`, the read and the conversion; a caught `TypeError`
        gets a note naming the field. */
    method TryOneField(fuel: nat, data: Json, fd: Field) returns (o: Outcome)
      requires Closed(env.catalog) && RecNames(fd.ty) <= env.catalog.Keys
      ensures o == TryField(env, fuel, data, fd)
      decreases fuel, Size(data), 0, 1
    {
      var key := WireKey(fd.name);
      var has := Contains(key, data);
      if has.Raise? {
        return Escaped(TypeError(has.fault, []));
      }
      if !has.get {
        return Skipped;
      }
      var converted: Result<Value>;
      var sub := Subscript(data, key);
      if sub.Raise? {
        converted := Err(TypeError(sub.fault, []));
      } else {
        converted := ConvertAny(fuel, sub.get, fd.ty);
      }
      if converted.Ok? {
        return Converted(converted.value);
      }
      var e := converted.error;
      if e.TypeError? {
        return Caught(TypeError(e.fault, e.notes + [Note(fd.name, fd.ty)]));
      } else if e.ExceptionGroup? {
        return Caught(e);
      }
      return Escaped(e);
    }

    /** `_convert_any`: a dataclass through `make_class`, a list element by
        element, a union through its first argument, anything else by
        calling the type on the value. */
    method ConvertAny(fuel: nat, item: Json, t: TypeDesc) returns (r: Result<Value>)
      requires Closed(env.catalog) && RecNames(t) <= env.catalog.Keys
      ensures r == Convert(env, fuel, item, t)
      decreases fuel, Size(item), Depth(t), 5
    {
      match t
      case Rec(n) =>
        r := MakeClass(fuel, item, n);
      case UnionOf(first, _) =>
        r := ConvertAny(fuel, item, first);
      case Leaf(n) =>
        match env.leaf(n, item) {
          case Made(v) => r := Ok(Scalar(n, v));
          case RaisedTypeError => r := Err(TypeError(Rejected(n, item), []));
          case RaisedOther => r := Err(LeafError(n, item));
        }
      case ListOf(e) =>
        var elements := Iterate(item);
        if elements.Raise? {
          return Err(TypeError(elements.fault, []));
        }
        var xs := elements.get;
        ConvertEachElementwise(env, fuel, Size(item), xs, e);
        var vs: seq<Value> := [];
        for i := 0 to |xs|
          invariant |vs| == i
          invariant forall j :: 0 <= j < i ==> Convert(env, fuel, xs[j], e) == Ok(vs[j])
        {
          assert xs[i] in xs;
          var v := ConvertAny(fuel, xs[i], e);
          if v.Err? {
            ghost var all := ConvertEach(env, fuel, Size(item), xs, e);
            assert all.Err?;
            ghost var k :| 0 <= k < |xs| && Convert(env, fuel, xs[k], e) == Err(all.error)
              && forall j :: 0 <= j < k ==> Convert(env, fuel, xs[j], e).Ok?;
            assert k == i;
            return Err(v.error);
          }
          vs := vs + [v.value];
        }
        ghost var all := ConvertEach(env, fuel, Size(item), xs, e);
        assert all.Ok? && all.value == vs;
        r := Ok(List(vs));
    }
  }

  /** `load_reply_dir`: a converter over the directory, then `load`. */
  method LoadReplyDir(env: Env, limit: nat) returns (r: Result<Value>)
    requires Closed(env.catalog) && IndexType in env.catalog
    ensures (forall n :: n in env.listing ==> !IsIndexName(n)) ==> r == Err(IndexError)
    ensures (exists n :: n in env.listing && IsIndexName(n)) ==>
      exists n :: n in env.listing && IsIndexName(n)
        && (forall m :: m in env.listing && IsIndexName(m) ==> PyStrings.LessEq(m, n))
        && r == if n in env.files then Build(env, limit, env.files[n], IndexType)
                else Err(FileNotFoundError(n))
  {
    var converter := new Converter(env, limit);
    r := converter.Load();
  }
}
