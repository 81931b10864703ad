/**
 * The host platform's dataset vocabulary, as the grid control sees it:
 * records, column metadata, the sort list and filter expressions.
 * These are values owned by the host; the control only reads them or
 * hands new ones back.
 */
module DataSetApi {

  datatype Option<+T> = None | Some(value: T)

  /** JavaScript's `undefined`/`null` versus a present value. */
  function Lookup<K, V>(m: map<K, V>, k: K): Option<V>
  {
    if k in m then Some(m[k]) else None
  }

  /**
   * One host record. Only what the control reads is modelled: its id and the
   * value of its `HighlightIndicator` field (`None` for null/undefined).
   */
  datatype EntityRecord = EntityRecord(recordId: string, highlightIndicator: Option<string>)

  /** Host column metadata. */
  datatype Column = Column(
    name: string,
    displayName: string,
    order: int,
    isHidden: bool,
    disableSorting: bool)

  /** Host sort directions: 0 ascending, 1 descending. */
  const SortAscending: int := 0
  const SortDescending: int := 1

  /** One entry of the host's sort list. */
  datatype SortStatus = SortStatus(name: string, sortDirection: int)

  /** Host condition operators used by the control. */
  const OperatorEqual: int := 0
  const OperatorContains: int := 8

  /** Host filter operator joining conditions: 0 is And, 1 is Or. */
  const FilterAnd: int := 0

  /** A condition's value: one string or a list of strings. */
  datatype FilterValue = Single(value: string) | Many(values: seq<string>)

  datatype ConditionExpression = ConditionExpression(
    attributeName: string,
    conditionOperator: int,
    value: FilterValue)

  datatype FilterExpression = FilterExpression(
    filterOperator: int,
    conditions: seq<ConditionExpression>)
}
