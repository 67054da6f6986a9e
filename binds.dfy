/**
 * Bind values and records as the filters and the statement builder see
 * them (src/database/BindValue.ts and src/model/Record.ts are not part of
 * this model). Column values are integers.
 */
module Binds {
  import opened Wrappers

  /** A named bind value; `None` stands for a null name or a null/undefined value. */
  datatype BindValue = BindValue(name: Option<string>, value: Option<int>)

  /** A record: the value of each column it holds. */
  type Record = map<string, int>

  /** `record.getValue(column)`: `None` (undefined) for a column the record does not hold. */
  function ValueOf(record: Record, column: string): (r: Option<int>)
    ensures r.Some? <==> column in record
    ensures r.Some? ==> r.value == record[column]
  {
    if column in record then Some(record[column]) else None
  }
}
