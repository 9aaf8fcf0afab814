/** The query-condition values that `Model.Field` and `Model.FilteredOn` build. */
module Conditions {
  import opened GoValues

  /** A path of field names, one per segment, that a condition starts from. */
  datatype ConditionField = ConditionField(exprs: seq<string>)

  /** One predicate of a condition: the field path it applies to and the
      attributes that `FilteredOn` carries over unchanged. */
  datatype Predicate = Predicate(
    exprs: seq<string>,
    operator: string,
    arg: Value,
    isOr: bool,
    isNot: bool,
    isCond: bool)

  datatype Condition = Condition(predicates: seq<Predicate>)
}
