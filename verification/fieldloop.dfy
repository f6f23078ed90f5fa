/** The loop of `make_class` over the declared fields, seen as a whole:
    which error leaves it, which errors it collects and in what order, and
    which keyword arguments the constructor receives. `Outcomes(..)[k]` is
    the attempt at the `k`-th declared field (`OutcomesAt`). */
module FieldLoop {
  import opened JsonTree
  import opened Schema
  import opened FieldNames
  import opened Conversion

  ghost predicate Increasing(ks: seq<nat>) {
    forall m, n :: 0 <= m < n < |ks| ==> ks[m] < ks[n]
  }

  /** `cs` are the errors caught at positions `ks` of `outs`: in order, and
      every caught error among them. */
  ghost predicate CaughtAt(outs: seq<Outcome>, ks: seq<nat>, cs: seq<Error>) {
    |ks| == |cs| && Increasing(ks)
    && (forall m :: 0 <= m < |ks| ==> ks[m] < |outs| && outs[ks[m]] == Caught(cs[m]))
    && (forall k :: 0 <= k < |outs| && outs[k].Caught? ==> k in ks)
  }

  /** `args` name and hold the values converted at positions `ks` of
      `outs`: in order, and every converted value among them. */
  ghost predicate ConvertedAt(outs: seq<Outcome>, fields: seq<Field>, ks: seq<nat>, args: seq<Arg>)
    requires |outs| == |fields|
  {
    |ks| == |args| && Increasing(ks)
    && (forall m :: 0 <= m < |ks| ==>
          ks[m] < |outs| && outs[ks[m]] == Converted(args[m].value) && args[m].name == fields[ks[m]].name)
    && (forall k :: 0 <= k < |outs| && outs[k].Converted? ==> k in ks)
  }

  /** The outcomes are the attempts at the fields, one by one. */
  lemma {:induction false} OutcomesAt(env: Env, f: nat, data: Json, fields: seq<Field>)
    requires Closed(env.catalog) && FieldsFit(env.catalog, fields)
    ensures forall k :: 0 <= k < |fields| ==> Outcomes(env, f, data, fields)[k] == TryField(env, f, data, fields[k])
  {
    if fields != [] {
      var n := |fields| - 1;
      OutcomesAt(env, f, data, fields[..n]);
      assert forall k :: 0 <= k < n ==> fields[..n][k] == fields[k];
    }
  }

  /** The `k`-th outcome is the attempt at the `k`-th field. */
  lemma OutcomeIs(env: Env, f: nat, data: Json, fields: seq<Field>, k: nat)
    requires Closed(env.catalog) && FieldsFit(env.catalog, fields) && k < |fields|
    ensures Outcomes(env, f, data, fields)[k] == TryField(env, f, data, fields[k])
  {
    OutcomesAt(env, f, data, fields);
  }

  /** A converted field's value is the conversion of the entry under its
      wire key; that key is present exactly when the field is not skipped. */
  lemma ConvertedReadsKey(env: Env, f: nat, data: Json, fd: Field)
    requires Closed(env.catalog) && RecNames(fd.ty) <= env.catalog.Keys
    ensures var o := TryField(env, f, data, fd);
      o.Converted? ==>
        data.JObject? && WireKey(fd.name) in Keys(data.members)
        && Convert(env, f, Lookup(data.members, WireKey(fd.name)), fd.ty) == Ok(o.v)
  {
  }

  /** How the error of a present field's conversion is handled: a
      `TypeError` is caught with exactly one note, naming the field and its
      type; an aggregate from a nested dataclass is caught unchanged; any
      other error (a missing file, a recursion overflow, a leaf's own
      error) escapes unchanged. */
  lemma FieldErrorHandled(env: Env, f: nat, data: Json, fd: Field)
    requires Closed(env.catalog) && RecNames(fd.ty) <= env.catalog.Keys
    requires data.JObject? && WireKey(fd.name) in Keys(data.members)
    ensures var c := Convert(env, f, Lookup(data.members, WireKey(fd.name)), fd.ty);
      var o := TryField(env, f, data, fd);
      (c.Ok? ==> o == Converted(c.value))
      && (c.Err? && c.error.TypeError? ==> o == Caught(TypeError(c.error.fault, [Note(fd.name, fd.ty)])))
      && (c.Err? && c.error.ExceptionGroup? ==> o == Caught(c.error))
      && (c.Err? && !c.error.TypeError? && !c.error.ExceptionGroup? ==> o == Escaped(c.error))
  {
  }

  /** The error that ends the loop is that of the first outcome, in
      declaration order, that escapes. */
  lemma {:induction false} FirstEscapeIsFirst(outs: seq<Outcome>)
    ensures FirstEscapeOf(outs).None? <==> forall k :: 0 <= k < |outs| ==> !outs[k].Escaped?
    ensures FirstEscapeOf(outs).Some? ==>
      exists k :: 0 <= k < |outs| && outs[k] == Escaped(FirstEscapeOf(outs).value)
        && forall j :: 0 <= j < k ==> !outs[j].Escaped?
  {
    if outs != [] {
      var n := |outs| - 1;
      FirstEscapeIsFirst(outs[..n]);
      assert forall k :: 0 <= k < n ==> outs[..n][k] == outs[k];
    }
  }

  /** The positions of the caught outcomes, in order. */
  ghost function CaughtPositions(outs: seq<Outcome>): seq<nat> {
    if outs == [] then []
    else CaughtPositions(outs[..|outs| - 1]) + (if outs[|outs| - 1].Caught? then [|outs| - 1] else [])
  }

  /** The collected errors are the caught ones, in declaration order. */
  lemma FailuresInFieldOrder(outs: seq<Outcome>)
    ensures exists ks :: CaughtAt(outs, ks, FailuresOf(outs))
  {
    CaughtPositionsAt(outs);
  }

  lemma {:induction false} CaughtPositionsAt(outs: seq<Outcome>)
    ensures CaughtAt(outs, CaughtPositions(outs), FailuresOf(outs))
  {
    if outs == [] {
      assert FailuresOf(outs) == [];
    } else {
      var n := |outs| - 1;
      var prefix := outs[..n];
      CaughtPositionsAt(prefix);
      if outs[n].Caught? {
        ExtendCaught(outs, CaughtPositions(prefix), FailuresOf(prefix));
        assert FailuresOf(outs) == FailuresOf(prefix) + [outs[n].e];
      } else {
        KeepCaught(outs, CaughtPositions(prefix), FailuresOf(prefix));
        assert FailuresOf(outs) == FailuresOf(prefix);
      }
    }
  }

  lemma ExtendCaught(outs: seq<Outcome>, ks: seq<nat>, cs: seq<Error>)
    requires outs != [] && outs[|outs| - 1].Caught?
    requires CaughtAt(outs[..|outs| - 1], ks, cs)
    ensures CaughtAt(outs, ks + [|outs| - 1], cs + [outs[|outs| - 1].e])
  {
    var n := |outs| - 1;
    var ks' := ks + [n];
    forall k | 0 <= k < |outs| && outs[k].Caught? ensures k in ks' {
      if k < n {
        assert outs[..n][k] == outs[k];
        assert k in ks;
      }
    }
  }

  lemma KeepCaught(outs: seq<Outcome>, ks: seq<nat>, cs: seq<Error>)
    requires outs != [] && !outs[|outs| - 1].Caught?
    requires CaughtAt(outs[..|outs| - 1], ks, cs)
    ensures CaughtAt(outs, ks, cs)
  {
    var n := |outs| - 1;
    forall k | 0 <= k < |outs| && outs[k].Caught? ensures k in ks {
      assert outs[..n][k] == outs[k];
    }
  }

  /** The gathered arguments are the converted values, in declaration
      order, each under its field's name. */
  lemma {:induction false} SuccessesInFieldOrder(outs: seq<Outcome>, fields: seq<Field>)
    requires |outs| == |fields|
    ensures exists ks :: ConvertedAt(outs, fields, ks, SuccessesOf(outs, fields))
  {
    if outs == [] {
      assert SuccessesOf(outs, fields) == [];
      assert ConvertedAt(outs, fields, [], []);
    } else {
      var n := |outs| - 1;
      SuccessesInFieldOrder(outs[..n], fields[..n]);
      var before := SuccessesOf(outs[..n], fields[..n]);
      var ks: seq<nat> :| ConvertedAt(outs[..n], fields[..n], ks, before);
      if outs[n].Converted? {
        ExtendConverted(outs, fields, ks, before);
        assert SuccessesOf(outs, fields) == before + [Arg(fields[n].name, outs[n].v)];
      } else {
        KeepConverted(outs, fields, ks, before);
        assert SuccessesOf(outs, fields) == before;
      }
    }
  }

  lemma ExtendConverted(outs: seq<Outcome>, fields: seq<Field>, ks: seq<nat>, args: seq<Arg>)
    requires |outs| == |fields| && outs != [] && outs[|outs| - 1].Converted?
    requires ConvertedAt(outs[..|outs| - 1], fields[..|fields| - 1], ks, args)
    ensures ConvertedAt(outs, fields, ks + [|outs| - 1], args + [Arg(fields[|fields| - 1].name, outs[|outs| - 1].v)])
  {
    var n := |outs| - 1;
    var ks' := ks + [n];
    var args' := args + [Arg(fields[n].name, outs[n].v)];
    forall m | 0 <= m < |ks'|
      ensures ks'[m] < |outs| && outs[ks'[m]] == Converted(args'[m].value) && args'[m].name == fields[ks'[m]].name
    {
      if m < |ks| {
        assert outs[..n][ks[m]] == outs[ks[m]] && fields[..n][ks[m]] == fields[ks[m]];
      }
    }
    forall k | 0 <= k < |outs| && outs[k].Converted? ensures k in ks' {
      if k < n {
        assert outs[..n][k] == outs[k];
        assert k in ks;
      }
    }
  }

  lemma KeepConverted(outs: seq<Outcome>, fields: seq<Field>, ks: seq<nat>, args: seq<Arg>)
    requires |outs| == |fields| && outs != [] && !outs[|outs| - 1].Converted?
    requires ConvertedAt(outs[..|outs| - 1], fields[..|fields| - 1], ks, args)
    ensures ConvertedAt(outs, fields, ks, args)
  {
    var n := |outs| - 1;
    forall m | 0 <= m < |ks|
      ensures ks[m] < |outs| && outs[ks[m]] == Converted(args[m].value) && args[m].name == fields[ks[m]].name
    {
      assert outs[..n][ks[m]] == outs[ks[m]] && fields[..n][ks[m]] == fields[ks[m]];
    }
    forall k | 0 <= k < |outs| && outs[k].Converted? ensures k in ks {
      assert outs[..n][k] == outs[k];
    }
  }

  /** Once an outcome escapes, the outcomes after it do not matter: the
      loop has already ended. */
  lemma {:induction false} EscapeIgnoresLater(outs: seq<Outcome>, j: nat)
    requires j <= |outs| && FirstEscapeOf(outs[..j]).Some?
    ensures FirstEscapeOf(outs) == FirstEscapeOf(outs[..j])
    decreases |outs|
  {
    if j < |outs| {
      var n := |outs| - 1;
      assert outs[..n][..j] == outs[..j];
      EscapeIgnoresLater(outs[..n], j);
    } else {
      assert outs[..j] == outs;
    }
  }

  /** One pass of the loop, over plain outcomes: an escape at field `i`
      is the loop's error; otherwise field `i` adds its outcome to the
      arguments or to the exceptions. */
  lemma PassOver(outs: seq<Outcome>, fields: seq<Field>, i: nat, args: seq<Arg>, errs: seq<Error>)
    requires |outs| == |fields| && i < |outs|
    requires FirstEscapeOf(outs[..i]) == None
    requires args == SuccessesOf(outs[..i], fields[..i]) && errs == FailuresOf(outs[..i])
    ensures outs[i].Escaped? ==> FirstEscapeOf(outs) == Some(outs[i].e)
    ensures !outs[i].Escaped? ==>
      FirstEscapeOf(outs[..i + 1]) == None
      && args + (if outs[i].Converted? then [Arg(fields[i].name, outs[i].v)] else [])
         == SuccessesOf(outs[..i + 1], fields[..i + 1])
      && errs + (if outs[i].Caught? then [outs[i].e] else []) == FailuresOf(outs[..i + 1])
  {
    EscapeStep(outs, i);
    if outs[i].Escaped? {
      EscapeIgnoresLater(outs, i + 1);
    } else {
      FailuresStep(outs, i);
      SuccessesStep(outs, fields, i);
    }
  }

  lemma EscapeStep(outs: seq<Outcome>, i: nat)
    requires i < |outs| && FirstEscapeOf(outs[..i]) == None
    ensures FirstEscapeOf(outs[..i + 1]) == if outs[i].Escaped? then Some(outs[i].e) else None
  {
    assert outs[..i + 1][..i] == outs[..i];
  }

  lemma FailuresStep(outs: seq<Outcome>, i: nat)
    requires i < |outs|
    ensures FailuresOf(outs[..i + 1]) == FailuresOf(outs[..i]) + if outs[i].Caught? then [outs[i].e] else []
  {
    assert outs[..i + 1][..i] == outs[..i];
  }

  lemma SuccessesStep(outs: seq<Outcome>, fields: seq<Field>, i: nat)
    requires |outs| == |fields| && i < |outs|
    ensures SuccessesOf(outs[..i + 1], fields[..i + 1])
      == SuccessesOf(outs[..i], fields[..i]) + if outs[i].Converted? then [Arg(fields[i].name, outs[i].v)] else []
  {
    assert outs[..i + 1][..i] == outs[..i];
    assert fields[..i + 1][..i] == fields[..i];
  }

  /** `Build` in terms of the outcomes. */
  lemma BuildSteps(env: Env, f: nat, data: Json, target: string)
    requires Closed(env.catalog) && target in env.catalog
    ensures var fields := env.catalog[target];
      var outs := Outcomes(env, f, data, fields);
      var r := Build(env, f, data, target);
      (FirstEscapeOf(outs).Some? ==> r == Err(FirstEscapeOf(outs).value))
      && (FirstEscapeOf(outs).None? && FailuresOf(outs) != [] ==> r == Err(ExceptionGroup(target, FailuresOf(outs))))
      && (FirstEscapeOf(outs).None? && FailuresOf(outs) == [] ==>
            var args := SuccessesOf(outs, fields);
            r == if MissingRequired(fields, args) != [] then Err(TypeError(MissingArguments(MissingRequired(fields, args)), []))
                 else Ok(Record(target, args)))
  {
  }

  /** What the attempt at the `k`-th field tells about the data. */
  lemma FieldOutcome(env: Env, f: nat, data: Json, fields: seq<Field>, k: nat)
    requires Closed(env.catalog) && FieldsFit(env.catalog, fields) && k < |fields|
    ensures var o := Outcomes(env, f, data, fields)[k];
      var key := WireKey(fields[k].name);
      (o.Skipped? <==> Contains(key, data) == Value(false))
      && (Contains(key, data).Raise? ==> o.Escaped?)
      && (o.Converted? ==>
            data.JObject? && key in Keys(data.members)
            && Convert(env, f, Lookup(data.members, key), fields[k].ty) == Ok(o.v))
  {
    OutcomesAt(env, f, data, fields);
    ConvertedReadsKey(env, f, data, fields[k]);
  }

  /** Once a field lets an error escape, `make_class` raises that error:
      the first such field's. */
  lemma EscapeEndsBuild(env: Env, f: nat, data: Json, target: string)
    requires Closed(env.catalog) && target in env.catalog
    ensures var outs := Outcomes(env, f, data, env.catalog[target]);
      var r := Build(env, f, data, target);
      (exists k :: 0 <= k < |outs| && outs[k].Escaped?) ==>
        r.Err? && exists k :: 0 <= k < |outs| && outs[k] == Escaped(r.error)
                    && forall j :: 0 <= j < k ==> !outs[j].Escaped?
  {
    BuildSteps(env, f, data, target);
    FirstEscapeIsFirst(Outcomes(env, f, data, env.catalog[target]));
  }

  /** The caught errors are there exactly when some outcome is caught. */
  lemma CaughtNonEmpty(outs: seq<Outcome>, ks: seq<nat>, cs: seq<Error>)
    requires CaughtAt(outs, ks, cs)
    ensures cs != [] <==> exists k :: 0 <= k < |outs| && outs[k].Caught?
  {
    if cs != [] {
      assert outs[ks[0]].Caught?;
    }
    if exists k :: 0 <= k < |outs| && outs[k].Caught? {
      var k :| 0 <= k < |outs| && outs[k].Caught?;
      assert k in ks;
    }
  }

  /** Otherwise every caught error is kept, and `make_class` raises one
      aggregate, over all of them in field order, exactly when some field
      failed. */
  lemma FailuresAggregated(env: Env, f: nat, data: Json, target: string)
    requires Closed(env.catalog) && target in env.catalog
    ensures var outs := Outcomes(env, f, data, env.catalog[target]);
      var r := Build(env, f, data, target);
      (forall k :: 0 <= k < |outs| ==> !outs[k].Escaped?) ==>
        ((r.Err? && r.error.ExceptionGroup?) <==> exists k :: 0 <= k < |outs| && outs[k].Caught?)
        && (r.Err? && r.error.ExceptionGroup? ==>
              r.error.target == target && exists ks :: CaughtAt(outs, ks, r.error.children))
  {
    var outs := Outcomes(env, f, data, env.catalog[target]);
    BuildSteps(env, f, data, target);
    FirstEscapeIsFirst(outs);
    FailuresInFieldOrder(outs);
    var ks: seq<nat> :| CaughtAt(outs, ks, FailuresOf(outs));
    CaughtNonEmpty(outs, ks, FailuresOf(outs));
  }

  /** When only positions `i < j` are caught, the caught errors are theirs,
      in that order. */
  lemma TwoCaught(outs: seq<Outcome>, ks: seq<nat>, cs: seq<Error>, i: nat, j: nat)
    requires CaughtAt(outs, ks, cs)
    requires i < j < |outs| && outs[i].Caught? && outs[j].Caught?
    requires forall k :: 0 <= k < |outs| && outs[k].Caught? ==> k == i || k == j
    ensures cs == [outs[i].e, outs[j].e]
  {
    assert i in ks && j in ks;
    var mi :| 0 <= mi < |ks| && ks[mi] == i;
    var mj :| 0 <= mj < |ks| && ks[mj] == j;
    assert mi < mj;
    forall m | 0 <= m < |ks| ensures ks[m] == i || ks[m] == j {
      assert outs[ks[m]].Caught?;
    }
    assert ks[0] == i;
    assert ks[1] == j;
    assert ks[|ks| - 1] == j;
    assert ks == [i, j];
  }

  /** Two malformed fields `i < j`, and no other failure, give one
      aggregate holding their two errors in that order. */
  lemma TwoMalformedFields(env: Env, f: nat, data: Json, target: string, i: nat, j: nat)
    requires Closed(env.catalog) && target in env.catalog
    requires var outs := Outcomes(env, f, data, env.catalog[target]);
      i < j < |outs| && outs[i].Caught? && outs[j].Caught?
      && forall k :: 0 <= k < |outs| ==> !outs[k].Escaped? && (outs[k].Caught? ==> k == i || k == j)
    ensures var outs := Outcomes(env, f, data, env.catalog[target]);
      Build(env, f, data, target) == Err(ExceptionGroup(target, [outs[i].e, outs[j].e]))
  {
    var outs := Outcomes(env, f, data, env.catalog[target]);
    BuildSteps(env, f, data, target);
    FirstEscapeIsFirst(outs);
    FailuresInFieldOrder(outs);
    var ks: seq<nat> :| CaughtAt(outs, ks, FailuresOf(outs));
    TwoCaught(outs, ks, FailuresOf(outs), i, j);
  }

  /** `args` pass, in declaration order, a value for each field whose
      wire key is in the data (positions `ks`), read from that key and
      converted to the field's type. */
  ghost predicate PresentAt(env: Env, f: nat, data: Json, fields: seq<Field>, ks: seq<nat>, args: seq<Arg>)
    requires Closed(env.catalog) && FieldsFit(env.catalog, fields)
  {
    |ks| == |args| && Increasing(ks)
    && (forall m :: 0 <= m < |ks| ==>
          ks[m] < |fields| && args[m].name == fields[ks[m]].name
          && data.JObject? && WireKey(fields[ks[m]].name) in Keys(data.members)
          && Convert(env, f, Lookup(data.members, WireKey(fields[ks[m]].name)), fields[ks[m]].ty) == Ok(args[m].value))
    && (forall k :: 0 <= k < |fields| && Contains(WireKey(fields[k].name), data) == Value(true) ==> k in ks)
  }

  /** With no escape and no failure, the gathered arguments are those of
      the present fields. */
  lemma PresentArgs(env: Env, f: nat, data: Json, fields: seq<Field>)
    requires Closed(env.catalog) && FieldsFit(env.catalog, fields)
    requires var outs := Outcomes(env, f, data, fields);
      forall k :: 0 <= k < |outs| ==> !outs[k].Escaped? && !outs[k].Caught?
    ensures exists ks :: PresentAt(env, f, data, fields, ks, SuccessesOf(Outcomes(env, f, data, fields), fields))
  {
    var outs := Outcomes(env, f, data, fields);
    SuccessesInFieldOrder(outs, fields);
    var args := SuccessesOf(outs, fields);
    var ks: seq<nat> :| ConvertedAt(outs, fields, ks, args);
    forall m | 0 <= m < |ks|
      ensures data.JObject? && WireKey(fields[ks[m]].name) in Keys(data.members)
        && Convert(env, f, Lookup(data.members, WireKey(fields[ks[m]].name)), fields[ks[m]].ty) == Ok(args[m].value)
    {
      FieldOutcome(env, f, data, fields, ks[m]);
    }
    forall k | 0 <= k < |fields| && Contains(WireKey(fields[k].name), data) == Value(true)
      ensures k in ks
    {
      FieldOutcome(env, f, data, fields, k);
    }
    assert PresentAt(env, f, data, fields, ks, args);
  }

  /** A converted field's name is among the keyword arguments. */
  lemma ConvertedNamed(outs: seq<Outcome>, fields: seq<Field>, k: nat)
    requires |outs| == |fields| && k < |outs|
    ensures outs[k].Converted? ==> fields[k].name in ArgNames(SuccessesOf(outs, fields))
  {
    if outs[k].Converted? {
      SuccessesInFieldOrder(outs, fields);
      var args := SuccessesOf(outs, fields);
      var ks: seq<nat> :| ConvertedAt(outs, fields, ks, args);
      assert k in ks;
      var m :| 0 <= m < |ks| && ks[m] == k;
      assert ArgNames(args)[m] == fields[k].name;
    }
  }

  /** Otherwise the record is built from the fields whose wire key is in
      the data, in declaration order, each value read from that key and
      converted to the field's type; absent keys are left out; every
      required field is among them. */
  lemma RecordFromPresentFields(env: Env, f: nat, data: Json, target: string)
    requires Closed(env.catalog) && target in env.catalog
    requires var outs := Outcomes(env, f, data, env.catalog[target]);
      forall k :: 0 <= k < |outs| ==> !outs[k].Escaped? && !outs[k].Caught?
    requires Build(env, f, data, target).Ok?
    ensures var fields := env.catalog[target];
      var v := Build(env, f, data, target).value;
      v.Record? && v.cls == target
      && (forall fd :: fd in fields && !fd.hasDefault ==> fd.name in ArgNames(v.args))
      && exists ks :: PresentAt(env, f, data, fields, ks, v.args)
  {
    var fields := env.catalog[target];
    var outs := Outcomes(env, f, data, fields);
    BuildSteps(env, f, data, target);
    FirstEscapeIsFirst(outs);
    FailuresInFieldOrder(outs);
    var cks: seq<nat> :| CaughtAt(outs, cks, FailuresOf(outs));
    CaughtNonEmpty(outs, cks, FailuresOf(outs));
    PresentArgs(env, f, data, fields);
  }

  /** A record is refused only for required fields whose wire key is
      absent: the `TypeError` names them. */
  lemma MissingFieldsNamed(env: Env, f: nat, data: Json, target: string)
    requires Closed(env.catalog) && target in env.catalog
    requires var outs := Outcomes(env, f, data, env.catalog[target]);
      forall k :: 0 <= k < |outs| ==> !outs[k].Escaped? && !outs[k].Caught?
    requires Build(env, f, data, target).Err?
    ensures var fields := env.catalog[target];
      var e := Build(env, f, data, target).error;
      e.TypeError? && e.notes == [] && e.fault.MissingArguments? && e.fault.names != []
      && forall m :: m in e.fault.names ==>
           exists fd :: fd in fields && !fd.hasDefault && fd.name == m && Contains(WireKey(m), data) == Value(false)
  {
    var fields := env.catalog[target];
    var outs := Outcomes(env, f, data, fields);
    BuildSteps(env, f, data, target);
    FirstEscapeIsFirst(outs);
    FailuresInFieldOrder(outs);
    var cks: seq<nat> :| CaughtAt(outs, cks, FailuresOf(outs));
    CaughtNonEmpty(outs, cks, FailuresOf(outs));
    var args := SuccessesOf(outs, fields);
    forall fd | fd in fields && fd.name !in ArgNames(args)
      ensures Contains(WireKey(fd.name), data) == Value(false)
    {
      var k :| 0 <= k < |fields| && fields[k] == fd;
      FieldOutcome(env, f, data, fields, k);
      ConvertedNamed(outs, fields, k);
    }
  }
}
