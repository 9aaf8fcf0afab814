# Hexya model registry in Dafny

A verified model of the metadata core of the Hexya ORM, `hexya/models/registry.go`. It covers:

- the process-wide **model registry** (`modelCollection`): models by name and by table name, and sequences by name;
- **model construction** (`createModel` and the public `New*Model` constructors, `InheritModel`, `NewSequence`);
- **path resolution** over the model graph (`getRelatedModelInfo`, `getRelatedFieldInfo`), which follows dot-separated field paths through relational fields;
- **row and value conversion** (`scanToFieldMap` without the cursor, `convertValuesToFieldType`, `convertRelationFieldValue`);
- the condition and FieldMap helpers (`Field`, `FilteredOn`, `MergeFieldMaps`, `JSONizeFieldMap`), and the option and `Parent` tests.

Files and modules:

| file | module | contents |
|---|---|---|
| `wrappers.dfy` | `Wrappers` | `Option`, `Result` (a panic is a `Failure`), `Outcome` |
| `go_strings.dfy` | `GoStrings` | `strings.Split`, `strings.Join`, `strings.Replace` and their laws |
| `go_values.dfy` | `GoValues` | dynamic values, type tags, the zero value, abstract reflection, field kinds |
| `conditions.dfy` | `Conditions` | condition fields, predicates, conditions |
| `models.dfy` | `Models` | fields collections, FieldMaps, `Model` and its operations |
| `paths.dfy` | `PathProperties` | a reference walk over path segments and what resolution reaches |
| `registry.dfy` | `Registry` | `ModelCollection`, model construction, sequences |
| `field_maps.dfy` | `FieldMapProperties` | laws of row storing, conversion, jsonizing and merging |

Each Go object that the source updates in place is a Dafny class: `ModelCollection`, `Model` (only `mixins` changes), `FieldsCollection`, `MethodsCollection`, and `FieldMap` for a map passed by pointer. Values are datatypes: `Field`, `Sequence`, `Condition`, `Value`. The global `Registry` variable is passed explicitly. Loops over Go maps pick an arbitrary pending key on each turn, matching Go's unspecified iteration order. Their results are therefore specified relationally (`IsJSONized`, `IsMergeOf`). Path-resolution functions read a ghost set `U` of fields collections that is closed under the related models of its fields.

**Table names.** One might expect `MustGet(m.tableName)` to return `m` for every registered model `m`, but the code does not guarantee it:
- `add` checks only the new model's *name*, against both maps;
- a later model with the same table name replaces the entry in the table-name map;
- `Get` consults the name map first, so a model *named* like another model's table name hides it.

The model follows the code. `Valid` only requires each table-name entry to be a registered model carrying that table name. `FoundByTableName` states when the lookup does succeed. `NameHidesTableName` and `TableNameShadowing` show that it can fail: register `foo` and then `Foo`, with a snake-case function that maps both to `foo`.

**MergeFieldMaps.** Its doc comment speaks of "a new map which is a copy of dest", but the code writes into `dest` and returns it. The model follows the code, and the method returns `dest` itself.

Assumptions about declarations outside `registry.go`:
- `ExprSep` is `"."` and `sqlSep` is `"__"`.
- The option flags are the bits 1, 2, 4, 8 and 16, in the order transient, mixin, manual, system, many2many-link.
- A fields collection is looked up by name and then by json name.

## Model

| member | source | states |
|---|---|---|
| Registry.ModelCollection.constructor | hexya/models/registry.go:95-101 | the new registry is empty in all three maps and valid |
| Registry.ModelCollection.Get | hexya/models/registry.go:46-52 | found iff the key is in the name map or the table-name map; the name-map entry wins; the model found carries the key as its name or table name |
| Registry.ModelCollection.MustGet | hexya/models/registry.go:56-62 | succeeds exactly when `Get` finds a model, and returns that model |
| Registry.ModelCollection.GetSequence | hexya/models/registry.go:65-71 | found iff the name is a key of the sequences map; the sequence found is the one stored under that name, and carries that name |
| Registry.ModelCollection.MustGetSequence | hexya/models/registry.go:75-81 | succeeds exactly when `GetSequence` finds the sequence, and returns it |
| Registry.ModelCollection.Add | hexya/models/registry.go:84-92 | fatal iff the name is already known as a name or a table name, and then nothing changes; otherwise both maps gain exactly the new entry, the back-references point to the model, `Get(name)` finds it, sequences are untouched and validity is preserved |
| Registry.ModelCollection.FoundByName | hexya/models/registry.go:46-52 | every registered model is found by `MustGet` under its name |
| Registry.ModelCollection.FoundByTableName | hexya/models/registry.go:46-52 | a model is found under its table name when it holds that table-name slot and no other model has that name |
| Registry.ModelCollection.NameHidesTableName | hexya/models/registry.go:46-52 | a registered model named like another model's table name is what `Get` returns for that table name |
| Registry.TableNameShadowing | hexya/models/registry.go:84-92 | two registrations that leave a model's table name resolving to a different model |
| Registry.CreateModel | hexya/models/registry.go:431-458 | fatal, with the registry unchanged, iff the name is known; otherwise a fresh model with the given name and options, table name `snakeCase(name)`, no mixins, only the `ID`/`id` field, registered under both keys |
| Registry.CreatedModelFields | hexya/models/registry.go:440-457 | a created model declares `ID` (json `id`, required, no-copy, Integer, `int64`, non-relational), so `HasParentField` is false, and `IsMixin`, `IsManual`, `IsSystem` and `IsM2MLink` test its options |
| Registry.NewModel | hexya/models/registry.go:393-397 | a created model with no option that then holds exactly one mixin, `ModelMixin`; fatal when `ModelMixin` is unknown |
| Registry.NewMixinModel | hexya/models/registry.go:401-404 | a created model with the mixin option and no mixin |
| Registry.NewTransientModel | hexya/models/registry.go:408-412 | a created transient model that holds exactly one mixin, `BaseMixin` |
| Registry.NewManualModel | hexya/models/registry.go:416-420 | a created manual model that holds exactly one mixin, `CommonMixin` |
| Registry.NewSequence | hexya/models/registry.go:467-475 | the sequence `name` with json name `snakeCase(name) + "_manseq"` replaces any previous entry and is then what `MustGetSequence(name)` returns |
| Models.FieldsCollection.MustGet | hexya/models/registry.go:134 | succeeds exactly when the field is declared, and returns it |
| Models.Model.InheritModel | hexya/models/registry.go:425-427 | the mixin list gains exactly the given model at its end |
| Models.Model.HasParentField | hexya/models/registry.go:305-308 | true iff `Parent` is declared as a field name or a json name |
| Models.Model.GetRelatedModelInfo | hexya/models/registry.go:123-144 | the empty path resolves to the model itself; resolution never leaves the closed set of models |
| PathProperties.RelatedModelInfoIsWalk | hexya/models/registry.go:123-144 | on a joined path, resolution equals the segment-by-segment walk: re-joining and re-splitting the tail at each step loses nothing |
| PathProperties.WalkChain | hexya/models/registry.go:136-143 | along a chain of relational fields, resolution without `skipLast` reaches the model at the far end |
| PathProperties.WalkSkipLast | hexya/models/registry.go:134-139 | with `skipLast`, a chain followed by a declared field resolves to the model that declares that field, relational or not |
| PathProperties.WalkStopsAtScalar | hexya/models/registry.go:134-139 | a declared non-relational field ends resolution at its model, whatever follows it and whatever `skipLast` is |
| PathProperties.SkipLastIsPrefix | hexya/models/registry.go:118-143 | a successful `skipLast` resolution equals plain resolution of the path without its last segment |
| Models.Model.RelatedFieldInfoIsLookup | hexya/models/registry.go:148-159 | `GetRelatedFieldInfo` succeeds iff the `skipLast` parent resolves and declares the last segment, and returns that field |
| PathProperties.RelatedFieldOfChain | hexya/models/registry.go:148-159 | `GetRelatedFieldInfo` on a chain of relational fields followed by a field name yields that field of the model at the far end |
| GoStrings.Split | hexya/models/registry.go:132 | at least one part; no part contains the separator; joining the parts gives back the input |
| GoStrings.SplitJoin | hexya/models/registry.go:140-142 | splitting the join of separator-free parts gives back the parts |
| Models.Model.ScanToFieldMap | hexya/models/registry.go:164-194 | the map holds the old entries overwritten by each column under its `ColumnKey` (SQL NULL as `nil`); it then fails iff some entry cannot be converted, and on success holds the converted map |
| FieldMapProperties.StoreRowKeys | hexya/models/registry.go:184-188 | storing a row adds exactly the keys of its columns |
| FieldMapProperties.StoreRowLastWins | hexya/models/registry.go:184-188 | the last column with a given key decides its value; NULL is stored as `nil` |
| FieldMapProperties.StoreRowUntouched | hexya/models/registry.go:184-188 | a key that no column maps to keeps its entry or its absence |
| FieldMapProperties.ColumnKeyOfPlainName | hexya/models/registry.go:185 | a column name without `__` is its own key |
| FieldMapProperties.ColumnKeyOfAlias | hexya/models/registry.go:185 | the alias `a__b` is stored under the path `a.b` |
| Models.Model.ConvertValuesToFieldType | hexya/models/registry.go:198-247 | the key set never changes; fatal iff some entry's field is unknown or its value cannot be converted; otherwise every entry holds its converted value |
| Models.Model.ConvertEntries | hexya/models/registry.go:200-246 | the loop, entry by entry in any order: same keys; stops with a failure iff some entry's conversion fails; otherwise returns every entry converted |
| Models.ConvertValue | hexya/models/registry.go:201-245 | a conversion fails only for a record set whose target type is neither a `sql.Scanner`, nor `int64`, nor `[]int64` |
| FieldMapProperties.FalseConvertsAsNil | hexya/models/registry.go:201-204 | `false` converts exactly like `nil` |
| FieldMapProperties.NilConversion | hexya/models/registry.go:213-220 | `nil` becomes "no value" for a non-required foreign-key field and the zero value of the field's type otherwise |
| FieldMapProperties.WellTypedValueKept | hexya/models/registry.go:207-211 | a value that already has the field's type is kept |
| FieldMapProperties.RecordSetConversion | hexya/models/registry.go:228-234 | a record set for a non-scanner field is encoded by `ConvertRelationFieldValue` |
| FieldMapProperties.ConversionFailsExactly | hexya/models/registry.go:228-234 | the conversion is fatal exactly for a record set whose target is not its own type, not a scanner, and neither `int64` nor `[]int64` |
| FieldMapProperties.ConvertedValueType | hexya/models/registry.go:212-243 | without a scanner, a successful conversion has the field's type, or is "no value", or is the input that reflection could not convert |
| Models.ConvertRelationFieldValue | hexya/models/registry.go:252-270 | succeeds iff the target is `int64` or `[]int64`; the result has the target type, except for "no value" on an `int64` target with no ids; `int64` receives the first id, `[]int64` all ids in order |
| Models.Model.JSONizeFieldMap | hexya/models/registry.go:331-338 | the result's keys are the jsonized keys, each holding the value of an entry whose key jsonizes to it; a map whose keys are already json names comes back equal |
| FieldMapProperties.JSONizedValues | hexya/models/registry.go:331-338 | when jsonizing is one-to-one on the keys, each value sits under its key's json name |
| FieldMapProperties.JSONizedKeysAreJSON | hexya/models/registry.go:320-338 | when json names jsonize to themselves, every key of the result is a json name |
| Models.Model.Field | hexya/models/registry.go:341-346 | the segments are separator-free, at least one, and join back to the name |
| Models.Model.FilteredOn | hexya/models/registry.go:350-359 | as many predicates as the input, each equal to the input's predicate at the same index with `field` put in front of its path |
| Models.Model.MergeFieldMaps | hexya/models/registry.go:366-372 | fatal iff some key of `src` names no field; otherwise returns `dest` itself, whose keys are its old keys plus the json names, each json name holding a `src` value whose field has that name, every other key unchanged |
| FieldMapProperties.MergedValues | hexya/models/registry.go:366-372 | with distinct json names, `dest[json(k)] == src[k]` for every key of `src`, other keys keep their values, and no other key is added |
| FieldMapProperties.OptionFlagsDistinct | hexya/models/registry.go:273-302 | the option tests `IsMixin`, `IsManual`, `IsSystem` and `IsM2MLink` (and the transient test) are bit tests of distinct single-bit flags: a model with one flag answers only its own test, and a model with no option answers none |

## Left out

- The `sync.RWMutex` and the `bootstrapped` flag of the registry are not modelled. Concurrency is outside the model, and the code never reads the flag.
- The SQL cursor (`Columns`, `Scan`, `Err`) in `scanToFieldMap` is I/O. `ScanToFieldMap` receives the scanned row as a sequence of (column, optional value) pairs, with SQL NULL as `None`.
- Go reflection is replaced by type tags (`GoType`) and an abstract `Reflection` record:
  - `ConvertibleTo`/`Convert` become a partial `convert`;
  - a type implementing `sql.Scanner` is a predicate, and its `Scan` is an opaque function returning a value;
  - `reflect.Zero` yields a fixed zero per tag.
- `Models.ConvertValue`: a scanner's `Scan` error, which the code ignores, is not modelled.
- `Create` and `Search` call into the environment's record pools, which are not part of this model.
- `Underlying` is the identity on a model, so `InheritModel` takes the `Model` directly.
- `Sequence.NextValue` is a database adapter call and is not modelled.
- Access-control lists and record-rule registries are left out. They are opaque handles from other packages, and no operation here reads them.
- `strutils.SnakeCaseString` and `jsonizePath` (through `JSONizeFieldName`) are defined elsewhere. They are function parameters, and the only thing assumed about jsonizing is that a json name comes back unchanged.
- `jsonizeExpr`, which `getRelatedModelInfo` applies to the split path before its lookups, is defined elsewhere and not modelled. The model assumes it neither fails nor changes which field a segment names. Field lookups accept field names and json names alike.
- `FieldsCollection` is defined outside `registry.go`. It is modelled as two maps; its `add` only writes both maps.
- `Fields()` and `Methods()` are plain accessors, available as the `fields` and `methods` constants of `Model`.
- `Models.Model.MergeFieldMaps`: `src` is taken as a value, so the aliasing case where `src` and `dest` are the same map is not modelled. When several keys share a json name, only the weaker property holds: the winning value comes from one of them.
- `Models.Model.JSONizeFieldMap`: `jsonize` is total, so the panic of `JSONizeFieldName` on a key that is not a valid path is not modelled; the model always succeeds.
- `Models.Model.JSONizeFieldMap`: when several keys jsonize to the same name, only the weaker property holds, because the winner depends on map iteration order.
- A predicate that holds a nested condition keeps only its `isCond` flag; the nested condition itself is dropped, since `FilteredOn` only prefixes paths.
- `Registry.ModelCollection.GetSequence`: the code looks up the same key twice; the model does it once, since the second lookup cannot succeed where the first failed.
