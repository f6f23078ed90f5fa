/** More fuel never changes a conversion that did not run out of it: the
    recursion bound only cuts off chains of `jsonFile` references, it does
    not otherwise alter what conversion yields. */
module Fuel {
  import opened JsonTree
  import opened Schema
  import opened Conversion
  import opened FieldLoop

  lemma {:induction false} ConvertFuel(env: Env, f: nat, g: nat, item: Json, t: TypeDesc)
    requires Closed(env.catalog) && RecNames(t) <= env.catalog.Keys
    requires f <= g && Convert(env, f, item, t) != Err(RecursionError)
    ensures Convert(env, g, item, t) == Convert(env, f, item, t)
    decreases f, Size(item), Depth(t), 4, 0
  {
    match t
    case Rec(n) => MakeRecordFuel(env, f, g, item, n);
    case ListOf(e) =>
      if Iterate(item).Value? {
        ConvertEachFuel(env, f, g, Size(item), Iterate(item).get, e);
      }
    case UnionOf(first, _) => ConvertFuel(env, f, g, item, first);
    case Leaf(_) =>
  }

  lemma {:induction false} ConvertEachFuel(env: Env, f: nat, g: nat, bound: nat, xs: seq<Json>, e: TypeDesc)
    requires Closed(env.catalog) && RecNames(e) <= env.catalog.Keys
    requires forall x :: x in xs ==> Size(x) <= bound
    requires f <= g && ConvertEach(env, f, bound, xs, e) != Err(RecursionError)
    ensures ConvertEach(env, g, bound, xs, e) == ConvertEach(env, f, bound, xs, e)
    decreases f, bound, Depth(e) + 1, 1, |xs|
  {
    if xs != [] {
      ConvertFuel(env, f, g, xs[0], e);
      if Convert(env, f, xs[0], e).Ok? {
        ConvertEachFuel(env, f, g, bound, xs[1..], e);
      }
    }
  }

  lemma {:induction false} MakeRecordFuel(env: Env, f: nat, g: nat, data: Json, target: string)
    requires Closed(env.catalog) && target in env.catalog
    requires f <= g && MakeRecord(env, f, data, target) != Err(RecursionError)
    ensures MakeRecord(env, g, data, target) == MakeRecord(env, f, data, target)
    decreases f, Size(data), 0, 3, 0
  {
    if target in FileBacked && Contains(JsonFileKey, data) == Value(true) {
      var ref := Subscript(data, JsonFileKey);
      if ref.Value? && ref.get.JString? && ref.get.s in env.files && f > 0 {
        MakeRecordFuel(env, f - 1, g - 1, env.files[ref.get.s], target);
      }
    } else if target !in FileBacked || Contains(JsonFileKey, data) == Value(false) {
      BuildFuel(env, f, g, data, target);
    }
  }

  lemma {:induction false} BuildFuel(env: Env, f: nat, g: nat, data: Json, target: string)
    requires Closed(env.catalog) && target in env.catalog
    requires f <= g && Build(env, f, data, target) != Err(RecursionError)
    ensures Build(env, g, data, target) == Build(env, f, data, target)
    decreases f, Size(data), 0, 2, 0
  {
    var fields := env.catalog[target];
    var outs := Outcomes(env, f, data, fields);
    BuildSteps(env, f, data, target);
    BuildSteps(env, g, data, target);
    OutcomesFuel(env, f, g, data, fields);
  }

  /** The loop over the fields takes the same course with more fuel. */
  lemma {:induction false} OutcomesFuel(env: Env, f: nat, g: nat, data: Json, fields: seq<Field>)
    requires Closed(env.catalog) && FieldsFit(env.catalog, fields)
    requires f <= g && FirstEscapeOf(Outcomes(env, f, data, fields)) != Some(RecursionError)
    ensures FirstEscapeOf(Outcomes(env, g, data, fields)) == FirstEscapeOf(Outcomes(env, f, data, fields))
    ensures FirstEscapeOf(Outcomes(env, f, data, fields)).None? ==>
      Outcomes(env, g, data, fields) == Outcomes(env, f, data, fields)
    decreases f, Size(data), 0, 1, |fields|
  {
    if fields != [] {
      var n := |fields| - 1;
      var before := fields[..n];
      var bf, bg := Outcomes(env, f, data, before), Outcomes(env, g, data, before);
      var lf, lg := TryField(env, f, data, fields[n]), TryField(env, g, data, fields[n]);
      assert (bf + [lf])[..n] == bf && (bg + [lg])[..n] == bg;
      OutcomesFuel(env, f, g, data, before);
      if FirstEscapeOf(bf).None? {
        TryFieldFuel(env, f, g, data, fields[n]);
      }
    }
  }

  lemma {:induction false} TryFieldFuel(env: Env, f: nat, g: nat, data: Json, fd: Field)
    requires Closed(env.catalog) && RecNames(fd.ty) <= env.catalog.Keys
    requires f <= g && TryField(env, f, data, fd) != Escaped(RecursionError)
    ensures TryField(env, g, data, fd) == TryField(env, f, data, fd)
    decreases f, Size(data), 0, 0, 0
  {
    var key := FieldNames.WireKey(fd.name);
    if Contains(key, data) == Value(true) {
      var sub := Subscript(data, key);
      if sub.Value? {
        ConvertFuel(env, f, g, sub.get, fd.ty);
      }
    }
  }
}
