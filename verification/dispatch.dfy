/** How `_convert_any` treats each kind of target type. */
module Dispatch {
  import opened JsonTree
  import opened Schema
  import opened Conversion

  /** A dataclass goes through `make_class`; a union through its first
      argument only (so `Optional[X]` is converted as `X`, `None` included);
      any other type is called on the raw value. */
  lemma DispatchOnType(env: Env, f: nat, item: Json, t: TypeDesc)
    requires Closed(env.catalog) && RecNames(t) <= env.catalog.Keys
    ensures t.Rec? ==> Convert(env, f, item, t) == MakeRecord(env, f, item, t.name)
    ensures t.UnionOf? ==> Convert(env, f, item, t) == Convert(env, f, item, t.first)
    ensures t.Leaf? && env.leaf(t.name, item).Made? ==>
      Convert(env, f, item, t) == Ok(Scalar(t.name, env.leaf(t.name, item).v))
    ensures t.Leaf? && env.leaf(t.name, item).RaisedTypeError? ==>
      Convert(env, f, item, t) == Err(TypeError(Rejected(t.name, item), []))
    ensures t.Leaf? && env.leaf(t.name, item).RaisedOther? ==>
      Convert(env, f, item, t) == Err(LeafError(t.name, item))
  {
  }

  /** The elements are converted one by one, in order: all succeed and the
      results line up with them, or the error is that of the first element
      that fails. */
  lemma ConvertEachElementwise(env: Env, f: nat, bound: nat, xs: seq<Json>, e: TypeDesc)
    requires Closed(env.catalog) && RecNames(e) <= env.catalog.Keys
    requires forall x :: x in xs ==> Size(x) <= bound
    ensures var r := ConvertEach(env, f, bound, xs, e);
      (r.Ok? <==> forall i :: 0 <= i < |xs| ==> Convert(env, f, xs[i], e).Ok?)
      && (r.Ok? ==> |r.value| == |xs| && forall i :: 0 <= i < |xs| ==> Convert(env, f, xs[i], e) == Ok(r.value[i]))
      && (r.Err? ==> exists k :: 0 <= k < |xs| && Convert(env, f, xs[k], e) == Err(r.error)
                       && forall j :: 0 <= j < k ==> Convert(env, f, xs[j], e).Ok?)
  {
    ConvertEachValues(env, f, bound, xs, e);
    ConvertEachFirstError(env, f, bound, xs, e);
  }

  /** All elements convert exactly when the list does, to the values in
      order. */
  lemma {:induction false} ConvertEachValues(env: Env, f: nat, bound: nat, xs: seq<Json>, e: TypeDesc)
    requires Closed(env.catalog) && RecNames(e) <= env.catalog.Keys
    requires forall x :: x in xs ==> Size(x) <= bound
    ensures var r := ConvertEach(env, f, bound, xs, e);
      (r.Ok? <==> forall i :: 0 <= i < |xs| ==> Convert(env, f, xs[i], e).Ok?)
      && (r.Ok? ==> forall i :: 0 <= i < |xs| ==> Convert(env, f, xs[i], e) == Ok(r.value[i]))
  {
    if xs != [] {
      var rest := xs[1..];
      ConvertEachValues(env, f, bound, rest, e);
      assert forall i :: 1 <= i < |xs| ==> xs[i] == rest[i - 1];
    }
  }

  /** A failing list fails with the error of its first failing element. */
  lemma {:induction false} ConvertEachFirstError(env: Env, f: nat, bound: nat, xs: seq<Json>, e: TypeDesc)
    requires Closed(env.catalog) && RecNames(e) <= env.catalog.Keys
    requires forall x :: x in xs ==> Size(x) <= bound
    ensures var r := ConvertEach(env, f, bound, xs, e);
      r.Err? ==> exists k :: 0 <= k < |xs| && Convert(env, f, xs[k], e) == Err(r.error)
                   && forall j :: 0 <= j < k ==> Convert(env, f, xs[j], e).Ok?
  {
    if xs != [] {
      var rest := xs[1..];
      var r := ConvertEach(env, f, bound, xs, e);
      if Convert(env, f, xs[0], e).Ok? {
        ConvertEachFirstError(env, f, bound, rest, e);
        var tail := ConvertEach(env, f, bound, rest, e);
        if tail.Err? {
          var k :| 0 <= k < |rest| && Convert(env, f, rest[k], e) == Err(tail.error)
                   && forall j :: 0 <= j < k ==> Convert(env, f, rest[j], e).Ok?;
          assert forall j :: 1 <= j < k + 1 ==> xs[j] == rest[j - 1];
          assert Convert(env, f, xs[k + 1], e) == Err(r.error);
        }
      } else {
        assert Convert(env, f, xs[0], e) == Err(r.error);
      }
    }
  }

  /** `List[X]`: the value is iterated as Python iterates it (a list's
      items, an object's keys, a string's characters; anything else raises
      a `TypeError`), and each element is converted as `X`; there is no
      aggregation across elements. */
  lemma ListConversion(env: Env, f: nat, item: Json, e: TypeDesc)
    requires Closed(env.catalog) && RecNames(e) <= env.catalog.Keys
    ensures Iterate(item).Raise? ==> Convert(env, f, item, ListOf(e)) == Err(TypeError(NotIterable, []))
    ensures Iterate(item).Value? ==>
      var xs := Iterate(item).get;
      var r := Convert(env, f, item, ListOf(e));
      (r.Ok? <==> forall i :: 0 <= i < |xs| ==> Convert(env, f, xs[i], e).Ok?)
      && (r.Ok? ==> r.value.List? && |r.value.items| == |xs|
                    && forall i :: 0 <= i < |xs| ==> Convert(env, f, xs[i], e) == Ok(r.value.items[i]))
      && (r.Err? ==> exists k :: 0 <= k < |xs| && Convert(env, f, xs[k], e) == Err(r.error)
                       && forall j :: 0 <= j < k ==> Convert(env, f, xs[j], e).Ok?)
  {
    if Iterate(item).Value? {
      ConvertEachElementwise(env, f, Size(item), Iterate(item).get, e);
    }
  }
}
