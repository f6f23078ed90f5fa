/** The static schema that stands for the dataclasses of the reply model,
    the typed values conversion produces and the errors it raises. */
module Schema {
  import opened JsonTree

  /** A target type: a dataclass (by name), `List[X]`, `Union[X, ...]`
      (`Optional[X]` is `Union[X, None]`), or any other type, which is
      called on the raw value as a constructor. */
  datatype TypeDesc =
    | Leaf(name: string)
    | Rec(name: string)
    | ListOf(elem: TypeDesc)
    | UnionOf(first: TypeDesc, rest: seq<TypeDesc>)

  /** A declared dataclass field; `hasDefault` tells whether the generated
      `__init__` may be called without it. */
  datatype Field = Field(name: string, ty: TypeDesc, hasDefault: bool)

  /** Each dataclass of the model by name, with its fields in declaration
      order. */
  type Catalog = map<string, seq<Field>>

  /** The dataclasses whose content may sit in a sibling file named by a
      `jsonFile` entry. */
  const FileBacked: set<string> := {"CodeModel", "Target", "Cache", "CMakeFiles", "Directory"}

  /** The dataclass of the reply index document. */
  const IndexType: string := "Index"

  /** The index document is read in place: `Index` is not file-backed. */
  lemma IndexNotFileBacked()
    ensures IndexType !in FileBacked
  {
  }

  /** The key that points at a sibling file. */
  const JsonFileKey: string := "jsonFile"

  /** The dataclasses a target type leads conversion into. Only the first
      argument of a union is ever used. */
  function RecNames(t: TypeDesc): set<string> {
    match t
    case Leaf(_) => {}
    case Rec(n) => {n}
    case ListOf(e) => RecNames(e)
    case UnionOf(f, _) => RecNames(f)
  }

  /** Nesting depth of a target type; a conversion step that keeps the raw
      value goes to a shallower type. */
  function Depth(t: TypeDesc): (d: nat)
    ensures d >= 1
  {
    match t
    case ListOf(e) => 1 + Depth(e)
    case UnionOf(f, _) => 1 + Depth(f)
    case _ => 1
  }

  /** Every dataclass a field refers to is itself in the catalog. */
  ghost predicate Closed(cat: Catalog) {
    forall n, fd :: n in cat && fd in cat[n] ==> RecNames(fd.ty) <= cat.Keys
  }

  /** A keyword argument passed to a dataclass constructor. */
  datatype Arg = Arg(name: string, value: Value)

  /** A converted value: a dataclass instance built from the keyword
      arguments it was given, a list, or what a leaf constructor returned. */
  datatype Value =
    | Record(cls: string, args: seq<Arg>)
    | List(items: seq<Value>)
    | Scalar(ty: string, item: Json)

  /** `v` is a value of target type `t`. */
  ghost predicate HasType(cat: Catalog, v: Value, t: TypeDesc)
    decreases v, Depth(t)
  {
    match t
    case Leaf(n) => v.Scalar? && v.ty == n
    case Rec(n) => v.Record? && v.cls == n && n in cat && ArgsFit(cat, v.args, cat[n])
    case ListOf(e) => v.List? && forall i :: 0 <= i < |v.items| ==> HasType(cat, v.items[i], e)
    case UnionOf(f, _) => HasType(cat, v, f)
  }

  /** The keyword arguments name some of `fields`, in declaration order,
      each holding a value of that field's type. */
  ghost predicate ArgsFit(cat: Catalog, args: seq<Arg>, fields: seq<Field>)
    decreases args, |fields|
  {
    if fields == [] then args == []
    else
      var fd := fields[|fields| - 1];
      var rest := fields[..|fields| - 1];
      (args != [] && args[|args| - 1].name == fd.name
        && HasType(cat, args[|args| - 1].value, fd.ty)
        && ArgsFit(cat, args[..|args| - 1], rest))
      || ArgsFit(cat, args, rest)
  }

  /** The note `make_class` adds to a `TypeError` from one of its fields. */
  datatype Note = Note(field: string, ty: TypeDesc)

  datatype Error =
    | TypeError(fault: TypeFault, notes: seq<Note>)
    | ExceptionGroup(target: string, children: seq<Error>)
    | FileNotFoundError(path: string)   // a referenced file is missing or unreadable
    | LeafError(ty: string, item: Json) // a leaf constructor raised something else
    | RecursionError                    // the chain of `jsonFile` references is too long
    | IndexError                        // no `index-*` file

  /** An aggregate error as `make_class` raises it: at least one child, each
      a `TypeError` carrying the note of its field, or a nested aggregate. */
  ghost predicate WellGrouped(e: Error) {
    e.ExceptionGroup? && |e.children| > 0
    && forall c :: c in e.children ==> (c.TypeError? && |c.notes| == 1) || WellGrouped(c)
  }

  /** An error as it leaves a conversion: a `TypeError` has no note yet,
      an aggregate is well formed. */
  ghost predicate Outgoing(e: Error) {
    (e.TypeError? ==> e.notes == []) && (e.ExceptionGroup? ==> WellGrouped(e))
  }

  datatype Result<T> = Ok(value: T) | Err(error: Error)

  /** What calling a leaf type on a raw value does. */
  datatype LeafOutcome = Made(v: Json) | RaisedTypeError | RaisedOther

  /** Everything conversion reads: the reply directory (its entry names and
      the decoded content of each readable JSON file), the dataclass
      catalog, and the behaviour of leaf constructors. */
  datatype Env = Env(
    listing: seq<string>,
    files: map<string, Json>,
    catalog: Catalog,
    leaf: (string, Json) -> LeafOutcome)
}
