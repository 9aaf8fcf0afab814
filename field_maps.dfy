/** Properties of the FieldMap operations: storing a scanned row, converting
    values to field types, renaming keys to json names and merging. */
module FieldMapProperties {
  import opened Wrappers
  import opened GoStrings
  import opened GoValues
  import opened Models

  /** The FieldMap keys of the columns of `row`. */
  ghost function RowKeys(row: seq<(string, Option<Value>)>): set<string>
  {
    set i | 0 <= i < |row| :: ColumnKey(row[i].0)
  }

  /** Storing a row adds exactly the keys of its columns. */
  lemma {:induction false} StoreRowKeys(fm: map<string, Value>, row: seq<(string, Option<Value>)>)
    ensures StoreRow(fm, row).Keys == fm.Keys + RowKeys(row)
  {
    if |row| > 0 {
      var init := row[..|row| - 1];
      StoreRowKeys(fm, init);
      forall k | k in RowKeys(row) ensures k in RowKeys(init) + {ColumnKey(Last(row).0)} {
        var i :| 0 <= i < |row| && ColumnKey(row[i].0) == k;
        if i < |row| - 1 {
          assert init[i] == row[i];
        }
      }
      forall k | k in RowKeys(init) ensures k in RowKeys(row) {
        var i :| 0 <= i < |init| && ColumnKey(init[i].0) == k;
        assert row[i] == init[i];
      }
    }
  }

  /** The last column of a row with a given key decides the value stored
      under it; SQL NULL is stored as `nil`. */
  lemma {:induction false} StoreRowLastWins(fm: map<string, Value>, row: seq<(string, Option<Value>)>, i: nat)
    requires i < |row|
    requires forall j :: i < j < |row| ==> ColumnKey(row[j].0) != ColumnKey(row[i].0)
    ensures ColumnKey(row[i].0) in StoreRow(fm, row)
    ensures StoreRow(fm, row)[ColumnKey(row[i].0)] == Scanned(row[i].1)
  {
    if i < |row| - 1 {
      var init := row[..|row| - 1];
      assert init[i] == row[i];
      StoreRowLastWins(fm, init, i);
    }
  }

  /** A key that no column of the row maps to keeps its entry, or its absence. */
  lemma {:induction false} StoreRowUntouched(fm: map<string, Value>, row: seq<(string, Option<Value>)>, k: string)
    requires forall j :: 0 <= j < |row| ==> ColumnKey(row[j].0) != k
    ensures k in StoreRow(fm, row) <==> k in fm
    ensures k in fm ==> StoreRow(fm, row)[k] == fm[k]
  {
    if |row| > 0 {
      var init := row[..|row| - 1];
      assert forall j :: 0 <= j < |init| ==> init[j] == row[j];
      StoreRowUntouched(fm, init, k);
    }
  }

  /** A column name without `sqlSep` is its own FieldMap key. */
  lemma ColumnKeyOfPlainName(column: string)
    requires forall i: nat :: !OccursAt(column, SqlSep, i)
    ensures ColumnKey(column) == column
  {
    ReplaceAbsent(column, SqlSep, [ExprSep]);
  }

  /** A column alias `a__b` names the path `a.b`. */
  lemma ColumnKeyOfAlias(a: string, b: string)
    requires forall i: nat :: !OccursAt(a, SqlSep, i)
    requires forall i: nat :: !OccursAt(b, SqlSep, i)
    requires |a| > 0 && a[|a| - 1] != '_' && |b| > 0 && b[0] != '_'
    ensures ColumnKey(a + SqlSep + b) == a + [ExprSep] + b
  {
    var rest := SqlSep + b;
    assert a + SqlSep + b == a + rest;
    ReplacePrefix(a, rest, SqlSep, [ExprSep]);
    assert rest[..2] == SqlSep && rest[2..] == b;
    ReplaceAbsent(b, SqlSep, [ExprSep]);
    assert Replace(rest, SqlSep, [ExprSep]) == [ExprSep] + b;
  }

  /** Leading characters that start no occurrence, not even one that runs into
      what follows them, are copied unchanged. */
  lemma {:induction false} ReplacePrefix(a: string, rest: string, pattern: string, replacement: string)
    requires |pattern| == 2 && pattern[0] == pattern[1]
    requires forall i: nat :: !OccursAt(a, pattern, i)
    requires |a| > 0 && a[|a| - 1] != pattern[0]
    ensures Replace(a + rest, pattern, replacement) == a + Replace(rest, pattern, replacement)
    decreases |a|
  {
    var s := a + rest;
    if |a| == 1 {
      if |s| >= 2 {
        assert s[..2] != pattern by { assert s[0] == a[0]; }
        assert s[1..] == rest;
      }
    } else {
      assert !OccursAt(a, pattern, 0);
      assert s[..2] == a[..2];
      forall i: nat ensures !OccursAt(a[1..], pattern, i) {
        assert !OccursAt(a, pattern, i + 1);
      }
      ReplacePrefix(a[1..], rest, pattern, replacement);
      assert s[1..] == a[1..] + rest;
      assert [s[0]] + a[1..] == a;
    }
  }

  /** `false` is converted exactly as `nil` is. */
  lemma FalseConvertsAsNil(fi: Field, refl: Reflection)
    ensures ConvertValue(fi, Bool(false), refl) == ConvertValue(fi, Nil, refl)
  {
  }

  /** `nil` (and so `false`) becomes the "no value" marker for a nullable
      foreign key and the zero value of the field's type otherwise. */
  lemma NilConversion(fi: Field, value: Value, refl: Reflection)
    requires value == Nil || value == Bool(false)
    ensures ConvertValue(fi, value, refl) ==
      Success(if IsFKRelationType(fi.fieldType) && !fi.required then NoValue else Zero(fi.goType))
  {
  }

  /** A value that already has the field's type is kept as it is. */
  lemma WellTypedValueKept(fi: Field, value: Value, refl: Reflection)
    requires TypeOf(value) == Some(fi.goType) && value != Bool(false)
    ensures ConvertValue(fi, value, refl) == Success(value)
  {
  }

  /** A record set for a field whose type is not a `sql.Scanner` is encoded
      by `ConvertRelationFieldValue`. */
  lemma RecordSetConversion(fi: Field, rs: RecordSet, refl: Reflection)
    requires fi.goType != RecordCollectionType && !refl.implementsScanner(fi.goType)
    ensures ConvertValue(fi, Records(rs), refl) == ConvertRelationFieldValue(rs, fi.goType)
  {
  }

  /** The conversion panics exactly for a record set whose target type is
      neither a record set, nor a `sql.Scanner`, nor `int64` or `[]int64`. */
  lemma ConversionFailsExactly(fi: Field, value: Value, refl: Reflection)
    ensures ConvertValue(fi, value, refl).Failure? <==>
      value.Records? && fi.goType != RecordCollectionType && !refl.implementsScanner(fi.goType) &&
      fi.goType != Int64Type && fi.goType != Int64SliceType
  {
  }

  /** For a field type that is not a `sql.Scanner`, and a reflection whose
      conversions produce values of the requested type, a successful
      conversion yields a value of the field's type or the "no value" marker,
      or keeps the input when reflection cannot convert it. */
  lemma ConvertedValueType(fi: Field, value: Value, refl: Reflection)
    requires !refl.implementsScanner(fi.goType)
    requires forall c :: refl.convert(value, fi.goType) == Some(c) ==> TypeOf(c) == Some(fi.goType)
    requires ConvertValue(fi, value, refl).Success?
    ensures var c := ConvertValue(fi, value, refl).value;
      TypeOf(c) == Some(fi.goType) || c == NoValue ||
      (c == value && !value.Records? && refl.convert(value, fi.goType).None?)
  {
  }

  /** With a `jsonize` that is one-to-one on the keys, every entry keeps its
      value under its json name. */
  lemma JSONizedValues(fMap: map<string, Value>, jsonize: string -> string, res: map<string, Value>)
    requires IsJSONized(fMap, jsonize, res)
    requires forall k1, k2 :: k1 in fMap && k2 in fMap && jsonize(k1) == jsonize(k2) ==> k1 == k2
    ensures forall k :: k in fMap ==> jsonize(k) in res && res[jsonize(k)] == fMap[k]
  {
  }

  /** When `jsonize` leaves json names unchanged, every key of a jsonized map
      is a json name: jsonizing it again changes nothing. */
  lemma JSONizedKeysAreJSON(fMap: map<string, Value>, jsonize: string -> string, res: map<string, Value>)
    requires IsJSONized(fMap, jsonize, res)
    requires forall k :: k in fMap ==> jsonize(jsonize(k)) == jsonize(k)
    ensures forall j :: j in res ==> jsonize(j) == j
  {
  }

  /** When distinct keys of `src` have distinct json names, a complete merge
      holds every entry of `src` under its json name, and `before` elsewhere. */
  lemma MergedValues(jsonOf: map<string, string>, before: map<string, Value>, src: map<string, Value>,
                     result: map<string, Value>)
    requires IsMergeOf(jsonOf, before, src, src.Keys, result)
    requires src.Keys <= jsonOf.Keys
    requires forall k1, k2 :: k1 in src && k2 in src && jsonOf[k1] == jsonOf[k2] ==> k1 == k2
    ensures result.Keys == before.Keys + (set k | k in src :: jsonOf[k])
    ensures forall k :: k in src ==> result[jsonOf[k]] == src[k]
    ensures forall j :: j in before && (forall k :: k in src ==> jsonOf[k] != j) ==> result[j] == before[j]
  {
  }

  /** The option flags are distinct single bits: a model created with one of
      them answers the option tests for that one only. */
  lemma OptionFlagsDistinct(flag: ModelOption)
    requires flag in {TransientModel, MixinModel, ManualModel, SystemModel, Many2ManyLinkModel}
    ensures HasOption(flag, TransientModel) <==> flag == TransientModel
    ensures HasOption(flag, MixinModel) <==> flag == MixinModel
    ensures HasOption(flag, ManualModel) <==> flag == ManualModel
    ensures HasOption(flag, SystemModel) <==> flag == SystemModel
    ensures HasOption(flag, Many2ManyLinkModel) <==> flag == Many2ManyLinkModel
    ensures !HasOption(0, flag)
  {
  }
}
