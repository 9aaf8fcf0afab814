/** Models, their fields, path resolution over relational fields and the
    conversion of row values to field types (hexya/models/registry.go). */
module Models {
  import opened Wrappers
  import opened GoStrings
  import opened GoValues
  import opened Conditions

  /** Separator between the segments of a field path (`ExprSep`). */
  const ExprSep: char := '.'

  /** Separator that SQL column aliases use in place of `ExprSep` (`sqlSep`). */
  const SqlSep: string := "__"

  /** The Go type `Option`: a set of bit flags. */
  type ModelOption = bv64

  const TransientModel: ModelOption := 1
  const MixinModel: ModelOption := 2
  const ManualModel: ModelOption := 4
  const SystemModel: ModelOption := 8
  const Many2ManyLinkModel: ModelOption := 16

  /** `options & flag > 0`. */
  predicate HasOption(options: ModelOption, flag: ModelOption)
  {
    options & flag > 0
  }

  /** The metadata of one field. */
  datatype Field = Field(
    name: string,
    json: string,
    model: Model,
    fieldType: FieldType,
    relatedModel: Model?,
    required: bool,
    noCopy: bool,
    goType: GoType)

  /** The fields of one model, keyed by name and by json name. */
  class FieldsCollection {
    var model: Model?
    var registryByName: map<string, Field>
    var registryByJSON: map<string, Field>

    constructor ()
      ensures model == null && registryByName == map[] && registryByJSON == map[]
    {
      model := null;
      registryByName := map[];
      registryByJSON := map[];
    }

    /** The field called `name`, looked up by name first and then by json name. */
    function Get(name: string): Option<Field>
      reads this
    {
      if name in registryByName then Some(registryByName[name])
      else if name in registryByJSON then Some(registryByJSON[name])
      else None
    }

    /** As `Get`, but a missing field is fatal. */
    function MustGet(name: string): (r: Result<Field>)
      reads this
      ensures r.Success? <==> Get(name).Some?
      ensures r.Success? ==> Get(name) == Some(r.value)
    {
      match Get(name)
      case Some(fi) => Success(fi)
      case None => Failure("Unknown field")
    }

    /** Registers `fi` under its name and its json name. */
    method Add(fi: Field)
      modifies this`registryByName, this`registryByJSON
      ensures registryByName == old(registryByName)[fi.name := fi]
      ensures registryByJSON == old(registryByJSON)[fi.json := fi]
    {
      registryByName := registryByName[fi.name := fi];
      registryByJSON := registryByJSON[fi.json := fi];
    }
  }

  /** The methods of one model; only the back-reference to the owner is modelled. */
  class MethodsCollection {
    var model: Model?

    constructor ()
      ensures model == null
    {
      model := null;
    }
  }

  /** A FieldMap that is passed by pointer and updated in place. */
  class FieldMap {
    var values: map<string, Value>

    constructor (values: map<string, Value>)
      ensures this.values == values
    {
      this.values := values;
    }
  }

  /** `U` holds the fields collection of every model that a field of a
      collection in `U` relates to: path resolution never leaves `U`. */
  ghost predicate Closed(U: set<FieldsCollection>)
    reads U
  {
    forall fc: FieldsCollection, k: string ::
      fc in U && fc.Get(k).Some? && fc.Get(k).value.relatedModel != null ==>
        fc.Get(k).value.relatedModel.fields in U
  }

  /** The last element of a non-empty sequence. */
  function Last<T>(s: seq<T>): T
    requires |s| > 0
  {
    s[|s| - 1]
  }

  /** The json names of the keys in `keys`, for those that `jsonOf` knows. */
  ghost function JsonNames(jsonOf: map<string, string>, keys: set<string>): set<string>
  {
    set k | k in keys && k in jsonOf :: jsonOf[k]
  }

  /** `result` is `before` after copying the entries of `src` whose keys are in
      `done`, each under its json name `jsonOf[k]`: keys reached by no copied
      entry keep their value, and each reached key holds the value of some
      entry of `src` whose json name it is (which one, when several share a
      json name, depends on the map iteration order). */
  ghost predicate IsMergeOf(jsonOf: map<string, string>, before: map<string, Value>, src: map<string, Value>,
                            done: set<string>, result: map<string, Value>)
  {
    && result.Keys == before.Keys + JsonNames(jsonOf, done)
    && (forall j :: j in result && j !in JsonNames(jsonOf, done) ==> j in before && result[j] == before[j])
    && (forall j :: j in JsonNames(jsonOf, done) ==>
          exists k :: k in done && k in src && k in jsonOf && jsonOf[k] == j && result[j] == src[k])
  }

  /** Copying one more pending entry `k` of `src` under `jsonOf[k]` extends a merge. */
  lemma MergeStep(jsonOf: map<string, string>, before: map<string, Value>, src: map<string, Value>,
                  pending: set<string>, result: map<string, Value>, k: string)
    requires IsMergeOf(jsonOf, before, src, src.Keys - pending, result)
    requires pending <= src.Keys && k in pending && k in jsonOf
    ensures IsMergeOf(jsonOf, before, src, src.Keys - (pending - {k}), result[jsonOf[k] := src[k]])
  {
  }

  /** `result` is `fMap` with every key `k` replaced by `jsonize(k)`; each new
      key holds the value of some entry of `fMap` whose key jsonizes to it. */
  ghost predicate IsJSONized(fMap: map<string, Value>, jsonize: string -> string, result: map<string, Value>)
  {
    && result.Keys == (set k | k in fMap :: jsonize(k))
    && (forall j :: j in result ==> exists k :: k in fMap && jsonize(k) == j && result[j] == fMap[k])
  }

  /** The value a scanned column holds: SQL NULL (`None`) scans to `nil`. */
  function Scanned(v: Option<Value>): Value
  {
    match v
    case None => Nil
    case Some(x) => x
  }

  /** The FieldMap key of a column: every `sqlSep` becomes `ExprSep`. */
  function ColumnKey(column: string): string
  {
    Replace(column, SqlSep, [ExprSep])
  }

  /** `fm` after storing the columns of `row` one after the other. */
  function StoreRow(fm: map<string, Value>, row: seq<(string, Option<Value>)>): map<string, Value>
  {
    if |row| == 0 then fm
    else StoreRow(fm, row[..|row| - 1])[ColumnKey(Last(row).0) := Scanned(Last(row).1)]
  }

  /** `convertRelationFieldValue`: encodes a record set for a relation field of
      type `target`; an `int64` field receives at most one id (none for an
      empty set), an `[]int64` field the ids in order. Any other target is an
      error (which the caller escalates to a panic). */
  function ConvertRelationFieldValue(rs: RecordSet, target: GoType): (r: Result<Value>)
    ensures r.Success? <==> target == Int64Type || target == Int64SliceType
    ensures r.Success? ==>
      TypeOf(r.value) == Some(target) || (target == Int64Type && |rs.ids| == 0 && r.value == NoValue)
    ensures r.Success? ==>
      RelationIds(r.value) == (if target == Int64Type then rs.ids[..if |rs.ids| > 0 then 1 else 0] else rs.ids)
  {
    var ids := rs.ids;
    if target == Int64Type then
      if |ids| > 0 then Success(Int64(ids[0])) else Success(NoValue)
    else if target == Int64SliceType then Success(Int64Slice(ids))
    else Failure("Non consistent type")
  }

  /** The ids that a relation field value designates. */
  function RelationIds(v: Value): seq<int64>
  {
    match v
    case Int64(i) => [i]
    case Int64Slice(ids) => ids
    case Records(rs) => rs.ids
    case _ => []
  }

  /** The body of the loop of `convertValuesToFieldType` for one entry whose
      field is `fi`: `false` counts as `nil`; a value already of the field's
      type is kept; `nil` becomes "no value" for a nullable foreign key and the
      zero value otherwise; a `sql.Scanner` type decodes the value itself; a
      record set is encoded by `ConvertRelationFieldValue`; anything else is
      converted when reflection allows it and kept otherwise. It fails only on
      a record set whose target type is neither `int64` nor `[]int64`. */
  function ConvertValue(fi: Field, value: Value, refl: Reflection): (r: Result<Value>)
    ensures r.Failure? ==>
      value.Records? && !refl.implementsScanner(fi.goType) &&
      fi.goType != Int64Type && fi.goType != Int64SliceType
  {
    var v := if value == Bool(false) then Nil else value;
    if TypeOf(v) == Some(fi.goType) then Success(v)
    else if v == Nil then
      Success(if IsFKRelationType(fi.fieldType) && !fi.required then NoValue else Zero(fi.goType))
    else if refl.implementsScanner(fi.goType) then Success(refl.scan(fi.goType, v))
    else if v.Records? then ConvertRelationFieldValue(v.records, fi.goType)
    else match refl.convert(v, fi.goType)
      case Some(c) => Success(c)
      case None => Success(v)
  }

  /** No outcome of `t` is a failure. */
  ghost predicate AllSucceed(t: map<string, Result<Value>>)
  {
    forall k :: k in t ==> t[k].Success?
  }

  /** The values of a table of successful outcomes. */
  ghost function Outcomes(t: map<string, Result<Value>>): map<string, Value>
    requires AllSucceed(t)
  {
    map k | k in t :: t[k].value
  }

  /** A map holding the value of every outcome of `t` is its table of values. */
  lemma SucceededPointwise(t: map<string, Result<Value>>, values: map<string, Value>)
    requires values.Keys == t.Keys
    requires forall k :: k in t ==> t[k] == Success(values[k])
    ensures AllSucceed(t) && values == Outcomes(t)
  {
  }

  /** A business object definition. */
  class Model {
    const name: string
    const options: ModelOption
    const tableName: string
    const fields: FieldsCollection
    const methods: MethodsCollection
    var mixins: seq<Model>

    constructor (name: string, options: ModelOption, tableName: string,
                 fields: FieldsCollection, methods: MethodsCollection)
      ensures this.name == name && this.options == options && this.tableName == tableName
      ensures this.fields == fields && this.methods == methods && mixins == []
    {
      this.name := name;
      this.options := options;
      this.tableName := tableName;
      this.fields := fields;
      this.methods := methods;
      mixins := [];
    }

    /** `getRelatedModelInfo`: the model reached by following `path` from this
        model through relational fields. It stops at the first non-relational
        field, does not follow the last segment when `skipLast` holds, and an
        unknown field on the way is fatal. */
    function GetRelatedModelInfo(path: string, skipLast: bool, ghost U: set<FieldsCollection>): (r: Result<Model>)
      requires fields in U && Closed(U)
      reads U
      ensures path == "" ==> r == Success(this)
      ensures r.Success? ==> r.value.fields in U
      decreases |path|
    {
      if path == "" then Success(this)
      else
        var exprs := Split(path, ExprSep);
        var fi :- fields.MustGet(exprs[0]);
        if fi.relatedModel == null || (|exprs| == 1 && skipLast) then Success(this)
        else if |exprs| > 1 then
          var rest := Join(exprs[1..], ExprSep);
          assert path == exprs[0] + [ExprSep] + rest;
          fi.relatedModel.GetRelatedModelInfo(rest, skipLast, U)
        else Success(fi.relatedModel)
    }

    /** `getRelatedFieldInfo`: the field that the last segment of `path` names
        in the model owning it, which is the model `GetRelatedModelInfo`
        reaches with `skipLast`; fatal when either lookup fails. */
    function GetRelatedFieldInfo(path: string, ghost U: set<FieldsCollection>): (r: Result<Field>)
      requires fields in U && Closed(U)
      reads U
    {
      var colExprs := Split(path, ExprSep);
      var rmi :- if |colExprs| > 1 then GetRelatedModelInfo(path, true, U) else Success(this);
      rmi.fields.MustGet(colExprs[|colExprs| - 1])
    }

    /** What `GetRelatedFieldInfo` finds: it succeeds iff the model that
        `GetRelatedModelInfo` reaches with `skipLast` declares the last segment
        of the path, and returns that field. */
    lemma RelatedFieldInfoIsLookup(path: string, U: set<FieldsCollection>)
      requires fields in U && Closed(U)
      ensures var parent := GetRelatedModelInfo(path, true, U);
        GetRelatedFieldInfo(path, U).Success? <==>
          parent.Success? && parent.value.fields.Get(Last(Split(path, ExprSep))).Some?
      ensures var parent := GetRelatedModelInfo(path, true, U);
        GetRelatedFieldInfo(path, U).Success? ==>
          parent.value.fields.Get(Last(Split(path, ExprSep))) == Some(GetRelatedFieldInfo(path, U).value)
    {
    }

    /** The conversion of the entry `colName` of a FieldMap holding `value`. */
    function ConvertEntry(colName: string, value: Value, refl: Reflection, ghost U: set<FieldsCollection>): Result<Value>
      requires fields in U && Closed(U)
      reads U
    {
      match GetRelatedFieldInfo(colName, U)
      case Failure(e) => Failure(e)
      case Success(fi) => ConvertValue(fi, value, refl)
    }

    /** The outcome of converting each entry of `fm`. */
    ghost function Conversions(fm: map<string, Value>, refl: Reflection, U: set<FieldsCollection>): map<string, Result<Value>>
      requires fields in U && Closed(U)
      reads U
    {
      map k | k in fm :: ConvertEntry(k, fm[k], refl, U)
    }

    /** `convertValuesToFieldType`: converts every entry of `fMap` in place, in
        an unspecified order. The key set never changes; it panics exactly
        when some entry cannot be converted, leaving the entries converted so
        far in the map. */
    method ConvertValuesToFieldType(fMap: FieldMap, refl: Reflection, ghost U: set<FieldsCollection>) returns (res: Outcome)
      requires fields in U && Closed(U)
      modifies fMap
      ensures fMap.values.Keys == old(fMap.values).Keys
      ensures res.Pass? <==> old(AllSucceed(Conversions(fMap.values, refl, U)))
      ensures res.Pass? ==> fMap.values == old(Outcomes(Conversions(fMap.values, refl, U)))
    {
      var values;
      values, res := ConvertEntries(fMap.values, refl, U);
      fMap.values := values;
    }

    /** The loop of `convertValuesToFieldType`: the entries of `fm` converted
        one by one, in an unspecified order, up to the first that cannot be. */
    method ConvertEntries(fm: map<string, Value>, refl: Reflection, ghost U: set<FieldsCollection>)
      returns (values: map<string, Value>, res: Outcome)
      requires fields in U && Closed(U)
      ensures values.Keys == fm.Keys
      ensures res.Pass? <==> AllSucceed(Conversions(fm, refl, U))
      ensures res.Pass? ==> values == Outcomes(Conversions(fm, refl, U))
    {
      ghost var target := ConversionTable(fm, refl, U);
      values := fm;
      var pending := fm.Keys;
      while pending != {}
        invariant pending <= fm.Keys && values.Keys == fm.Keys
        invariant forall k :: k in fm && k !in pending ==> target[k] == Success(values[k])
        decreases pending
      {
        var colName :| colName in pending;
        var val := ConvertEntry(colName, fm[colName], refl, U);
        if val.Failure? {
          TableIsConversions(fm, target, refl, U);
          assert !target[colName].Success?;
          return values, Fail(val.error);
        }
        values := values[colName := val.value];
        pending := pending - {colName};
      }
      SucceededPointwise(target, values);
      TableIsConversions(fm, target, refl, U);
      res := Pass;
    }

    /** The conversion outcomes of `fm` as a table. This lemma exists to keep
        `ConvertEntries` cheap to verify: its quantifier fires only on a
        `ConvertEntry` term that the loop computes, so the solver does not
        unfold every entry's conversion at every lookup in the table. */
    lemma ConversionTable(fm: map<string, Value>, refl: Reflection, U: set<FieldsCollection>)
      returns (t: map<string, Result<Value>>)
      requires fields in U && Closed(U)
      ensures t.Keys == fm.Keys
      ensures forall k {:trigger ConvertEntry(k, fm[k], refl, U)} :: k in fm ==> t[k] == ConvertEntry(k, fm[k], refl, U)
    {
      t := Conversions(fm, refl, U);
    }

    /** The counterpart of `ConversionTable`: a table given entry by entry
        under that trigger is `Conversions(fm)`, which links the loop's table
        back to the specification of `ConvertEntries`. */
    lemma TableIsConversions(fm: map<string, Value>, t: map<string, Result<Value>>, refl: Reflection,
                             U: set<FieldsCollection>)
      requires fields in U && Closed(U)
      requires t.Keys == fm.Keys
      requires forall k {:trigger ConvertEntry(k, fm[k], refl, U)} :: k in fm ==> t[k] == ConvertEntry(k, fm[k], refl, U)
      ensures t == Conversions(fm, refl, U)
    {
    }

    /** `scanToFieldMap` without the cursor: stores each column of `row` in
        `dest` under its `ColumnKey` (SQL NULL as `nil`), then converts the
        whole map to the field types. */
    method ScanToFieldMap(row: seq<(string, Option<Value>)>, dest: FieldMap, refl: Reflection,
                          ghost U: set<FieldsCollection>) returns (res: Outcome)
      requires fields in U && Closed(U)
      modifies dest
      ensures dest.values.Keys == StoreRow(old(dest.values), row).Keys
      ensures res.Pass? <==> AllSucceed(Conversions(StoreRow(old(dest.values), row), refl, U))
      ensures res.Pass? ==> dest.values == Outcomes(Conversions(StoreRow(old(dest.values), row), refl, U))
    {
      var i := 0;
      while i < |row|
        invariant 0 <= i <= |row|
        invariant dest.values == StoreRow(old(dest.values), row[..i])
      {
        assert row[..i + 1][..i] == row[..i];
        dest.values := dest.values[ColumnKey(row[i].0) := Scanned(row[i].1)];
        i := i + 1;
      }
      assert row[..|row|] == row;
      res := ConvertValuesToFieldType(dest, refl, U);
    }

    predicate IsMixin() { HasOption(options, MixinModel) }
    predicate IsManual() { HasOption(options, ManualModel) }
    predicate IsSystem() { HasOption(options, SystemModel) }
    predicate IsM2MLink() { HasOption(options, Many2ManyLinkModel) }

    /** `hasParentField`: a field named (or json-named) `Parent` is declared. */
    predicate HasParentField()
      reads fields
      ensures HasParentField() <==> "Parent" in fields.registryByName || "Parent" in fields.registryByJSON
    {
      fields.Get("Parent").Some?
    }

    /** `JSONizeFieldMap`: a fresh map with every key rewritten by `jsonize`,
        which stands for `jsonizePath` on this model. A map whose keys are all
        already json names comes back unchanged. */
    method JSONizeFieldMap(fMap: map<string, Value>, jsonize: string -> string) returns (res: map<string, Value>)
      ensures IsJSONized(fMap, jsonize, res)
      ensures (forall k :: k in fMap ==> jsonize(k) == k) ==> res == fMap
    {
      res := map[];
      var pending := fMap.Keys;
      while pending != {}
        invariant pending <= fMap.Keys
        invariant res.Keys == (set k | k in fMap && k !in pending :: jsonize(k))
        invariant forall j :: j in res ==>
          exists k :: k in fMap && k !in pending && jsonize(k) == j && res[j] == fMap[k]
        decreases pending
      {
        var f :| f in pending;
        res := res[jsonize(f) := fMap[f]];
        pending := pending - {f};
      }
    }

    /** `Field`: a condition field whose segments are those of `name`. */
    function Field(name: string): (r: ConditionField)
      ensures |r.exprs| >= 1 && Join(r.exprs, ExprSep) == name
      ensures forall i :: 0 <= i < |r.exprs| ==> ExprSep !in r.exprs[i]
    {
      ConditionField(Split(name, ExprSep))
    }

    /** `FilteredOn`: a new condition whose predicates are those of `condition`,
        in order, each with `field` put in front of its path. */
    method FilteredOn(field: string, condition: Condition) returns (res: Condition)
      ensures |res.predicates| == |condition.predicates|
      ensures forall i :: 0 <= i < |condition.predicates| ==>
        res.predicates[i] == condition.predicates[i].(exprs := [field] + condition.predicates[i].exprs)
    {
      var n := |condition.predicates|;
      var preds := new Predicate[n];
      var i := 0;
      for k := 0 to n
        invariant i == k
        invariant forall j :: 0 <= j < i ==>
          preds[j] == condition.predicates[j].(exprs := [field] + condition.predicates[j].exprs)
      {
        var p := condition.predicates[k];
        p := p.(exprs := [field] + p.exprs);
        preds[i] := p;
        i := i + 1;
      }
      res := Condition(preds[..]);
    }

    /** The json name of every key of `keys` that names a field. */
    function JsonNameMap(keys: set<string>): map<string, string>
      reads fields
    {
      map k | k in keys && fields.Get(k).Some? :: fields.Get(k).value.json
    }

    /** `MergeFieldMaps`: copies every entry of `src` into `dest` under the json
        name of its field and returns `dest` itself; an unknown field is fatal. */
    method MergeFieldMaps(dest: FieldMap, src: map<string, Value>) returns (r: Result<FieldMap>)
      modifies dest
      ensures r.Success? <==> forall k :: k in src ==> fields.Get(k).Some?
      ensures r.Success? ==> r.value == dest && IsMergeOf(JsonNameMap(src.Keys), old(dest.values), src, src.Keys, dest.values)
    {
      ghost var before := dest.values;
      ghost var jsonOf := JsonNameMap(src.Keys);
      var pending := src.Keys;
      while pending != {}
        invariant pending <= src.Keys
        invariant src.Keys - pending <= jsonOf.Keys
        invariant IsMergeOf(jsonOf, before, src, src.Keys - pending, dest.values)
        decreases pending
      {
        var k :| k in pending;
        var fi := fields.MustGet(k);
        if fi.Failure? {
          return Failure(fi.error);
        }
        assert jsonOf[k] == fi.value.json;
        MergeStep(jsonOf, before, src, pending, dest.values, k);
        dest.values := dest.values[fi.value.json := src[k]];
        pending := pending - {k};
      }
      assert src.Keys - pending == src.Keys;
      r := Success(dest);
    }

    /** `InheritModel`: appends `mixin` to the mixins of this model. */
    method InheritModel(mixin: Model)
      modifies this
      ensures mixins == old(mixins) + [mixin]
    {
      mixins := mixins + [mixin];
    }
  }
}
