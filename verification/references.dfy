/** How `make_class` treats a `jsonFile` entry on the five file-backed
    dataclasses. */
module References {
  import opened JsonTree
  import opened Schema
  import opened Conversion
  import opened Fuel

  /** The object `{"jsonFile": path, ...}`: its other entries do not matter. */
  ghost predicate RefersTo(data: Json, path: string) {
    data.JObject? && JsonFileKey in Keys(data.members)
    && Lookup(data.members, JsonFileKey) == JString(path)
  }

  /** A reference is transparent: converting the referring object yields
      what converting the referenced document yields, once the fuel
      suffices for that document. */
  lemma ReferenceTransparent(env: Env, f: nat, g: nat, data: Json, target: string, path: string)
    requires Closed(env.catalog) && target in env.catalog && target in FileBacked
    requires RefersTo(data, path) && path in env.files
    requires f < g && MakeRecord(env, f, env.files[path], target) != Err(RecursionError)
    ensures MakeRecord(env, g, data, target) == MakeRecord(env, f, env.files[path], target)
    ensures MakeRecord(env, g, env.files[path], target) == MakeRecord(env, f, env.files[path], target)
  {
    MakeRecordFuel(env, f, g - 1, env.files[path], target);
    MakeRecordFuel(env, f, g, env.files[path], target);
  }

  /** Reference errors: a missing referenced file raises a not-found error,
      a non-string reference raises a `TypeError` from `Path`. */
  lemma ReferenceErrors(env: Env, f: nat, data: Json, target: string)
    requires Closed(env.catalog) && target in env.catalog && target in FileBacked
    requires data.JObject? && JsonFileKey in Keys(data.members)
    ensures var ref := Lookup(data.members, JsonFileKey);
      (ref.JString? && ref.s !in env.files ==> MakeRecord(env, f, data, target) == Err(FileNotFoundError(ref.s)))
      && (!ref.JString? ==> MakeRecord(env, f, data, target) == Err(TypeError(NotAPath, [])))
  {
  }

  /** The other dataclasses read a `jsonFile` entry as an ordinary key. */
  lemma NotFileBackedBuildsInPlace(env: Env, f: nat, data: Json, target: string)
    requires Closed(env.catalog) && target in env.catalog && target !in FileBacked
    ensures MakeRecord(env, f, data, target) == Build(env, f, data, target)
  {
  }

  /** The referenced document is examined for a `jsonFile` entry of its own,
      and that reference is followed too. */
  lemma ReferenceChainFollowed(env: Env, f: nat, data: Json, target: string, p: string, q: string)
    requires Closed(env.catalog) && target in env.catalog && target in FileBacked
    requires RefersTo(data, p) && p in env.files && RefersTo(env.files[p], q) && q in env.files
    ensures MakeRecord(env, f + 2, data, target) == MakeRecord(env, f, env.files[q], target)
  {
    assert MakeRecord(env, f + 2, data, target) == LoadRef(env, f + 2, p, target);
    assert MakeRecord(env, f + 1, env.files[p], target) == LoadRef(env, f + 1, q, target);
  }

  /** A document that refers to itself never yields a record: the reference
      is followed until the recursion bound is hit. */
  lemma {:induction false} SelfReferenceExhausts(env: Env, f: nat, target: string, p: string)
    requires Closed(env.catalog) && target in env.catalog && target in FileBacked
    requires p in env.files && RefersTo(env.files[p], p)
    ensures MakeRecord(env, f, env.files[p], target) == Err(RecursionError)
  {
    if f > 0 {
      SelfReferenceExhausts(env, f - 1, target, p);
    }
  }
}
