/** `DbPreparedQuerySequenceCommand<T>`: each row becomes the conversion of its first
    column. The command keeps no cache. */
module SequenceMode {
  import opened Outcomes
  import opened Values
  import opened Statement
  import opened QueryCommand

  /** `CreateItem`: the row's first value is read, the NULL marker made null, and the
      result converted to the item type. */
  function CreateItem<T>(convert: Value -> Result<T>, columns: seq<string>, row: seq<Value>): (r: Result<T>)
    ensures |row| == 0 ==> r == Failure(IndexOutOfRange(0))
    ensures |row| > 0 ==> r == Coerce(convert, row[0])
  {
    match Cell(row, 0)
    case Failure(e) => Failure(e)
    case Success(v) => Coerce(convert, v)
  }

  /** `CreateItem` as the per-row step of the reader loop; the cache is unit. */
  function Creator<T>(convert: Value -> Result<T>): (C: ((), seq<string>, seq<Value>) -> ((), Result<T>))
  {
    (u, columns, row) => ((), CreateItem(convert, columns, row))
  }

  /** Only column 0 is read: rows that agree there give the same item whatever the other
      columns and the column names hold. */
  lemma OnlyFirstColumn<T>(convert: Value -> Result<T>, columns: seq<string>, other: seq<string>, row: seq<Value>, row': seq<Value>)
    requires |row| > 0 && |row'| > 0 && row[0] == row'[0]
    ensures CreateItem(convert, columns, row) == CreateItem(convert, other, row')
  {
  }

  /** The list is the first-column values, converted, in row order; it exists exactly when
      every row has a first column that converts. Otherwise the error is that of the first
      row without a first column (IndexOutOfRange) or whose first column does not convert. */
  lemma {:induction false} Rows<T>(convert: Value -> Result<T>, columns: seq<string>, rows: seq<seq<Value>>)
    ensures var r := ReadRows((), columns, rows, Creator(convert));
      && (r.1.Success? <==> forall i :: 0 <= i < |rows| ==>
            |rows[i]| > 0 && Coerce(convert, rows[i][0]).Success?)
      && (r.1.Success? ==> forall i :: 0 <= i < |rows| ==>
            |rows[i]| > 0 && Coerce(convert, rows[i][0]) == Success(r.1.value[i]))
      && (r.1.Failure? ==>
            exists j :: 0 <= j < |rows|
              && (forall i :: 0 <= i < j ==> |rows[i]| > 0 && Coerce(convert, rows[i][0]).Success?)
              && (|rows[j]| == 0 ==> r.1.error == IndexOutOfRange(0))
              && (|rows[j]| > 0 ==> Coerce(convert, rows[j][0]) == Failure(r.1.error)))
  {
    var create := Creator(convert);
    assert forall row :: create((), columns, row) == ((), CreateItem(convert, columns, row));
    ReadRowsSettled((), columns, rows, create);
  }
}
