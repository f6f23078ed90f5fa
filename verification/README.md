# A model of scikit-build-core's CMake file-API reply reader

CMake's file API leaves a *reply directory*. It holds one or more index
documents named `index-<timestamp>.json` and further JSON documents that the
index refers to. `scikit_build_core.file_api.reply` reads this directory into
a tree of dataclasses. `Converter.load` picks the newest index document.
`Converter.make_class` then converts a decoded JSON value against a
dataclass, driven only by the dataclass's declared fields and their types:

- a field's name is mapped to the document's key (`codemodel_v2` is read
  from `codemodel-v2`, `cmakefiles_v1` from `cmakeFiles-v1`);
- a field whose key is absent is left out;
- a present field is converted recursively against its declared type: a
  dataclass, `List[X]`, `Union[X, ...]` (converted as its first argument
  only), or a leaf type that is called on the raw value;
- on the five file-backed dataclasses (`CodeModel`, `Target`, `Cache`,
  `CMakeFiles`, `Directory`), an object holding a `jsonFile` entry is
  replaced by the decoded content of the sibling file it names;
- a `TypeError` raised while converting a field is caught and given a note
  naming the field and its type. A nested aggregate error is caught as it
  is. Any other error propagates at once. After all fields are tried, the
  caught errors are raised together as one `ExceptionGroup`. Only when
  nothing was caught is the dataclass constructed.

The model is written in two layers.

- **The meaning, as functions.** Modules `Conversion`, `JsonTree`, `Schema`,
  `FieldNames`, `PyStrings` and `IndexFiles` state what each operation yields.
  This includes Python's own behaviour wherever the converter relies on it:
  `key in data` on an object, a list or a string; `data[key]`; iterating a
  value; `str.replace`; the order `sorted` uses on names; and the
  `TypeError` a dataclass constructor raises for missing arguments.
- **The converter, as a class.** `Reply.Converter` has a method for each
  method of the source. Each is proved to compute what its function says.
  `make_class` is split into four methods: the `jsonFile` part
  (`MakeClass`), the record part (`BuildRecord`), the field loop
  (`TryFields`) and one pass of that loop (`TryOneField`). The field loop
  and the list comprehension of `_convert_any` become loops with
  invariants.

The remaining modules hold the properties:

- `FieldLoop`: the field loop, aggregation and absent fields;
- `References`: `jsonFile` transparency;
- `Dispatch`: dispatch on the target type and lists;
- `Fuel`: the bound on reference chains.

The file system is a parameter. An `Env` holds:

- the directory listing;
- a map from entry names to decoded documents (an entry that cannot be
  opened is missing from the map);
- the catalog of dataclasses, each with its fields in declaration order;
- the behaviour of each leaf type on a raw value.

`_load_from_json` calls `make_class` on the loaded document, so the
referenced document's own `jsonFile` entry is followed again, and a file
that refers to itself recurses until Python's recursion limit. The model
follows the code here (reply.py:41 calls `make_class` on the loaded
document). `fuel` bounds how many references are followed along one path
of nested conversions: a reference inside a document that was itself
loaded from a file spends the same budget, as Python's stack depth does.
Running out yields `RecursionError`. `Fuel` proves that more fuel never
changes a result that did not run out. When the directory holds no index
document, `sorted(...)[-1]` at reply.py:31 raises `IndexError`, and the
model does the same.

## Model

All source paths are in `src/scikit_build_core/file_api/reply.py`.

| member | source | states |
|---|---|---|
| PyStrings.Replace | src/scikit_build_core/file_api/reply.py:57-59 | `str.replace`: with a pattern and replacement of equal length the result keeps the input's length; every character of the result comes from the input or from the replacement |
| PyStrings.ReplacePointwise | src/scikit_build_core/file_api/reply.py:57-59 | with a pattern and replacement of equal length, `str.replace` changes a character only inside an occurrence of the pattern, into the replacement's character at the same offset |
| PyStrings.ReplaceHits | src/scikit_build_core/file_api/reply.py:57-59 | every occurrence of a pattern whose first character does not recur in it reads as the replacement in the result |
| PyStrings.ReplaceChangeAt | src/scikit_build_core/file_api/reply.py:57-59 | when pattern and replacement differ at one offset only, a changed character is that offset of an occurrence and becomes the replacement's character there |
| PyStrings.ReplaceWithoutOccurrence | src/scikit_build_core/file_api/reply.py:57-59 | without an occurrence of the pattern, `str.replace` returns its input |
| PyStrings.ReplaceUndo | src/scikit_build_core/file_api/reply.py:57-59 | replacing back undoes a same-length replacement when the replacement's distinguishing character does not occur in the input |
| PyStrings.LessEq | src/scikit_build_core/file_api/reply.py:31 | Python's string `<=`: `a <= b` exactly when `a` is a prefix of `b` or, at the first offset where they differ, `a` has the smaller code point |
| PyStrings.LessEqTotal | src/scikit_build_core/file_api/reply.py:31 | the string order `sorted` uses is total |
| PyStrings.LessEqAntisymmetric | src/scikit_build_core/file_api/reply.py:31 | two names ordered both ways are equal |
| PyStrings.LessEqTransitive | src/scikit_build_core/file_api/reply.py:31 | the string order is transitive |
| FieldNames.WireKey | src/scikit_build_core/file_api/reply.py:57-59 | a field's document key has the name's length; every `_v` of the name reads `-v` in the key, every `cmakefiles` reads `cmakeFiles`, and every other character is unchanged |
| FieldNames.VMarkRewritten | src/scikit_build_core/file_api/reply.py:57-59 | the `_` of each `_v` becomes `-` and the second rule leaves it alone |
| FieldNames.CMakeFilesRewritten | src/scikit_build_core/file_api/reply.py:57-59 | the first rule leaves each `cmakefiles` intact and the second turns its `f` into `F` |
| FieldNames.ChangesInside | src/scikit_build_core/file_api/reply.py:57-59 | every character the two rules change is the `_` of a `_v` or the `f` of a `cmakefiles` of the name |
| FieldNames.WireKeyIdentity | src/scikit_build_core/file_api/reply.py:57-59 | a name with neither `_v` nor `cmakefiles` is its own key |
| FieldNames.WireKeyRoundTrip | src/scikit_build_core/file_api/reply.py:57-59 | for names without `-` and `F`, the reverse mapping recovers the name from its key |
| FieldNames.WireKeyInjective | src/scikit_build_core/file_api/reply.py:57-59 | two distinct such names never read the same key |
| FieldNames.VersionedKey | src/scikit_build_core/file_api/reply.py:57-59 | `<base>_v<version>` is read from `<base>-v<version>` |
| FieldNames.CMakeFilesVersionedKey | src/scikit_build_core/file_api/reply.py:57-59 | `cmakefiles_v<version>` is read from `cmakeFiles-v<version>` (both rules apply) |
| FieldNames.CodemodelKey | src/scikit_build_core/file_api/reply.py:57-59 | `codemodel_v2` is read from `codemodel-v2` |
| FieldNames.CacheKey | src/scikit_build_core/file_api/reply.py:57-59 | `cache_v2` is read from `cache-v2` |
| FieldNames.CMakeFilesKey | src/scikit_build_core/file_api/reply.py:57-59 | `cmakefiles_v1` is read from `cmakeFiles-v1` |
| JsonTree.Contains | src/scikit_build_core/file_api/reply.py:49-60 | `key in data` raises a `TypeError` exactly on `None`, a bool or a number, and yields an answer on an object, a list or a string |
| JsonTree.ContainsOnObject | src/scikit_build_core/file_api/reply.py:49-60 | on an object, `key in data` holds exactly when some entry has that key |
| JsonTree.Lookup | src/scikit_build_core/file_api/reply.py:63 | the value read under a present key is stored under that key, and is smaller than the object |
| JsonTree.Subscript | src/scikit_build_core/file_api/reply.py:63 | after a successful membership test, `data[key]` raises exactly when the data is not an object (a list or a string); on an object it yields the value stored under the key, a strict part of the data |
| JsonTree.Iterate | src/scikit_build_core/file_api/reply.py:85 | the elements a list comprehension visits are no larger than the iterated value |
| Conversion.Convert | src/scikit_build_core/file_api/reply.py:80-89 | a converted value has the target type; an error leaves without any note |
| Conversion.ConvertEach | src/scikit_build_core/file_api/reply.py:85 | a converted list has one value of the element type per element |
| Conversion.MakeRecord | src/scikit_build_core/file_api/reply.py:43-51 | a result of `make_class` is a record of the target dataclass |
| Conversion.LoadRef | src/scikit_build_core/file_api/reply.py:37-41 | loading a referenced file yields a record of the target dataclass or an outgoing error |
| Conversion.Build | src/scikit_build_core/file_api/reply.py:53-78 | a built record's arguments name declared fields, in order, each with a value of its type |
| Conversion.TryField | src/scikit_build_core/file_api/reply.py:57-73 | a field is skipped exactly when its key is absent; a caught `TypeError` carries exactly one note, naming the field and its type; an escaping `TypeError` comes from the membership test |
| Conversion.Outcomes | src/scikit_build_core/file_api/reply.py:56-73 | one outcome per declared field, each fitting its field |
| Conversion.FirstEscapeOf | src/scikit_build_core/file_api/reply.py:56-73 | the error that ends the loop is one that escaped from a field |
| Conversion.FailuresOf | src/scikit_build_core/file_api/reply.py:54-73 | every collected exception was caught from a field |
| Conversion.SuccessesOf | src/scikit_build_core/file_api/reply.py:53-62 | every keyword argument is a converted field's value under that field's name |
| Conversion.SuccessesFit | src/scikit_build_core/file_api/reply.py:62-78 | the keyword arguments name declared fields in declaration order, with values of their types |
| Conversion.MissingRequired | src/scikit_build_core/file_api/reply.py:78 | the names in the constructor's `TypeError` are exactly the fields without a default that received no argument |
| Fuel.ConvertFuel | src/scikit_build_core/file_api/reply.py:80-89 | a conversion that did not hit the recursion bound gives the same result with any larger bound |
| Fuel.ConvertEachFuel | src/scikit_build_core/file_api/reply.py:85 | the same, for the elements of a list |
| Fuel.MakeRecordFuel | src/scikit_build_core/file_api/reply.py:37-51 | the same, for `make_class` and the `_load_from_json` it calls |
| Fuel.BuildFuel | src/scikit_build_core/file_api/reply.py:53-78 | the same, for the record-building part of `make_class` |
| Fuel.OutcomesFuel | src/scikit_build_core/file_api/reply.py:56-73 | the field loop takes the same course with a larger bound |
| Fuel.TryFieldFuel | src/scikit_build_core/file_api/reply.py:57-73 | one field's outcome is the same with a larger bound |
| References.ReferenceTransparent | src/scikit_build_core/file_api/reply.py:37-51 | on a file-backed dataclass, `{"jsonFile": path, ...}` converts exactly as the content of `path` does |
| References.ReferenceErrors | src/scikit_build_core/file_api/reply.py:38-51 | a reference to a missing file raises a not-found error; a non-string reference raises a `TypeError` |
| References.NotFileBackedBuildsInPlace | src/scikit_build_core/file_api/reply.py:47-49 | other dataclasses treat `jsonFile` as an ordinary key |
| References.ReferenceChainFollowed | src/scikit_build_core/file_api/reply.py:41-51 | a referenced document's own `jsonFile` entry is followed too |
| References.SelfReferenceExhausts | src/scikit_build_core/file_api/reply.py:37-51 | a document that refers to itself never yields a record; it ends in `RecursionError` |
| Dispatch.DispatchOnType | src/scikit_build_core/file_api/reply.py:80-89 | a dataclass goes to `make_class`; a union is converted as its first argument; a leaf type is called on the value, and its `TypeError` is distinguished from its other errors |
| Dispatch.ConvertEachElementwise | src/scikit_build_core/file_api/reply.py:85 | the elements are converted in order: success exactly when every element converts, with values lined up with them; otherwise the error of the first element that fails |
| Dispatch.ListConversion | src/scikit_build_core/file_api/reply.py:84-85 | `List[X]` converts each element the value iterates over as `X`, in order; a value that cannot be iterated raises a `TypeError` |
| FieldLoop.OutcomesAt | src/scikit_build_core/file_api/reply.py:56-73 | the k-th outcome is the attempt at the k-th declared field |
| FieldLoop.ConvertedReadsKey | src/scikit_build_core/file_api/reply.py:60-64 | a converted field's value is the conversion of the entry under its key |
| FieldLoop.FieldErrorHandled | src/scikit_build_core/file_api/reply.py:61-73 | for a present field, a `TypeError` is caught with exactly one note naming the field and type; an aggregate is caught unchanged; any other error escapes unchanged |
| FieldLoop.FirstEscapeIsFirst | src/scikit_build_core/file_api/reply.py:56-73 | the loop ends early exactly when some field lets an error escape, and with the first such error |
| FieldLoop.FailuresInFieldOrder | src/scikit_build_core/file_api/reply.py:54-73 | the collected exceptions are exactly the caught errors, in declaration order |
| FieldLoop.SuccessesInFieldOrder | src/scikit_build_core/file_api/reply.py:53-64 | the keyword arguments are exactly the converted fields, in declaration order, under their names |
| FieldLoop.EscapeIgnoresLater | src/scikit_build_core/file_api/reply.py:56-73 | once a field has escaped, the outcomes of later fields do not change the loop's result |
| FieldLoop.PassOver | src/scikit_build_core/file_api/reply.py:56-73 | one pass of the loop: an escape at a field is the loop's error; otherwise the field's outcome is added to the arguments or to the exceptions |
| FieldLoop.FieldOutcome | src/scikit_build_core/file_api/reply.py:57-64 | a field is skipped exactly when its key is absent; a raising membership test ends the loop; a converted field read its key |
| FieldLoop.EscapeEndsBuild | src/scikit_build_core/file_api/reply.py:56-73 | an escaping error is raised from `make_class`, and it is the first field's to escape |
| FieldLoop.FailuresAggregated | src/scikit_build_core/file_api/reply.py:54-76 | with no escape, an aggregate is raised exactly when some field's error was caught; it names the target and holds every caught error, in field order |
| FieldLoop.TwoMalformedFields | src/scikit_build_core/file_api/reply.py:54-76 | two malformed fields and no other failure give one aggregate holding both errors, in field order |
| FieldLoop.PresentArgs | src/scikit_build_core/file_api/reply.py:53-64 | with no failure, the arguments are the present fields' converted values, in order |
| FieldLoop.RecordFromPresentFields | src/scikit_build_core/file_api/reply.py:53-78 | a record is built only when no field failed; its arguments are exactly the present fields, converted, and include every required field |
| FieldLoop.MissingFieldsNamed | src/scikit_build_core/file_api/reply.py:60-78 | when no field failed but the constructor refuses, it names only required fields whose key is absent |
| IndexFiles.IsIndexName | src/scikit_build_core/file_api/reply.py:31 | an entry matches `index-*` exactly when it is `index-` followed by any text |
| IndexFiles.IndexNames | src/scikit_build_core/file_api/reply.py:31 | the matching entries are exactly the listing's names starting with `index-` |
| IndexFiles.Newest | src/scikit_build_core/file_api/reply.py:31 | the last of the sorted names is among them and no name sorts after it |
| IndexFiles.NewestUnique | src/scikit_build_core/file_api/reply.py:31 | no other name can stand last |
| Reply.Converter.constructor | src/scikit_build_core/file_api/reply.py:24-25 | the converter keeps its directory |
| Reply.Converter.Load | src/scikit_build_core/file_api/reply.py:27-35 | with no index document, `IndexError`; otherwise the greatest index name is read and converted to `Index`, or a not-found error is raised |
| Reply.Converter.LoadFromJson | src/scikit_build_core/file_api/reply.py:37-41 | reads the named file and converts it as `_load_from_json` does |
| Reply.Converter.MakeClass | src/scikit_build_core/file_api/reply.py:43-51 | computes `make_class`, following a `jsonFile` reference |
| Reply.Converter.BuildRecord | src/scikit_build_core/file_api/reply.py:53-78 | raises the escaping error or the aggregate, or builds the record, exactly as `make_class` does |
| Reply.Converter.TryFields | src/scikit_build_core/file_api/reply.py:53-73 | the loop stops at the first escaping error; otherwise it returns the converted fields and the caught errors, in field order |
| Reply.Converter.TryOneField | src/scikit_build_core/file_api/reply.py:57-73 | one pass of the field loop yields the field's outcome |
| Reply.Converter.ConvertAny | src/scikit_build_core/file_api/reply.py:80-89 | computes `_convert_any`, converting list elements in a loop |
| Reply.LoadReplyDir | src/scikit_build_core/file_api/reply.py:92-93 | `load_reply_dir` yields what `load` does |

## Left out

- Reading files: `open`, `json.load` and globbing are replaced by the environment's listing and decoded documents. An unreadable entry counts as a missing one. `base_dir / name` path joining and normalisation are not modelled; a reference is looked up by its literal name.
- Malformed JSON: decode errors of `json.load` are not modelled.
- Python's recursion limit is modelled only through `fuel`, which counts the `jsonFile` references followed along one path of nested conversions. Deeply nested documents without references never hit it in the model.
- Path order and `glob` matching are those of POSIX paths (case-sensitive, by code point); Windows paths fold case, both when `glob` matches `index-*` and when `sorted` compares them.
- The leaf types (`str`, `int`, `bool`, `Path` and the like) are given abstractly, as the environment's `leaf`. Each leaf either yields a value, raises a `TypeError`, or raises another error.
- Dataclass defaults and `__post_init__`: a built record holds only the given arguments. The default values are not filled in.
- The dataclasses themselves: `dataclasses.fields` and the type annotations are replaced by the catalog. The model dataclasses are not part of this model.
- Conversion.TryField: the note is modelled as the field's name and type. The message text is not modelled, nor the choice between `add_note` and `__notes__`.
- The `exceptiongroup` backport for old Python versions is the same `ExceptionGroup` in the model.
- Other `typing` forms: a target type with `__origin__` other than `list` and `Union` (for example `Dict`) is not in the model; only dataclasses, lists, unions and leaf types are.
- Duplicate keys: a decoded object is taken to have distinct keys, as a `dict` has. For a document that repeats a key, a lookup returns the first entry, whereas `json.load` keeps the last.
- The `__main__` block (argument parsing and printing) is not modelled.
- Conversion.Outcomes: computes every field's outcome, including fields after an escaping error. The loop never reaches them, and the lemmas show that they do not change the result.
