/** The database statement handle (`IDbCommand`) and the reader's result set, as data.
    The handle keeps its parameter list and a log of the calls made on it, so that the
    order in which the commands talk to the driver can be stated. */
module Statement {
  import opened Outcomes
  import opened Values

  /** An `IDbDataParameter`: its name and its current value. */
  datatype Placeholder = Placeholder(name: string, value: Value)

  /** The driver calls a prepared command makes on its handle. */
  datatype Call =
    | AddCall(name: string)            // Parameters.Add of a freshly created parameter
    | SetCall(slot: nat, value: Value) // assigning a parameter's Value
    | PrepareCall                      // Prepare()
    | NonQueryCall                     // ExecuteNonQuery()
    | ReaderCall                       // ExecuteReader()
    | ScalarCall                       // ExecuteScalar()

  /** An opaque transaction handle. */
  type TransactionId = nat

  datatype Handle = Handle(
    sql: string,
    transaction: Option<TransactionId>,
    params: seq<Placeholder>,
    calls: seq<Call>)

  /** What `ExecuteReader` produces: the column names, the rows in read order, and the
      exception (if any) the reader raises when asked to advance past the last row it
      delivered. */
  datatype ResultSet = ResultSet(columns: seq<string>, rows: seq<seq<Value>>, failure: Option<Error>)

  /** Creating a command on the connection, then setting its transaction and its text. */
  function Create(sql: string, transaction: Option<TransactionId>): (h: Handle)
    ensures h.params == [] && h.calls == []
    ensures h.sql == sql && h.transaction == transaction
  {
    Handle(sql, transaction, [], [])
  }

  /** Records a call on the handle that does not alter its parameter list. */
  function Invoke(h: Handle, call: Call): (r: Handle)
    ensures r.sql == h.sql && r.transaction == h.transaction && r.params == h.params
    ensures r.calls == h.calls + [call]
  {
    h.(calls := h.calls + [call])
  }

  /** `CreateParameter()`, naming it, and `Parameters.Add`: a new placeholder holding null
      is appended to the parameter list. */
  function AddParameter(h: Handle, name: string): (r: Handle)
    ensures r.sql == h.sql && r.transaction == h.transaction
    ensures r.params == h.params + [Placeholder(name, Null)]
    ensures r.calls == h.calls + [AddCall(name)]
  {
    h.(params := h.params + [Placeholder(name, Null)], calls := h.calls + [AddCall(name)])
  }

  /** Assigning `Value` on the placeholder at `slot`; its name and every other slot are kept. */
  function SetValue(h: Handle, slot: nat, v: Value): (r: Handle)
    requires slot < |h.params|
    ensures r.sql == h.sql && r.transaction == h.transaction
    ensures |r.params| == |h.params|
    ensures r.params[slot] == Placeholder(h.params[slot].name, v)
    ensures forall s :: 0 <= s < |h.params| && s != slot ==> r.params[s] == h.params[s]
    ensures r.calls == h.calls + [SetCall(slot, v)]
  {
    h.(params := h.params[slot := Placeholder(h.params[slot].name, v)],
       calls := h.calls + [SetCall(slot, v)])
  }

  /** Reading the value at index `i` of the current row: out-of-range indices throw. */
  function Cell(row: seq<Value>, i: nat): (r: Result<Value>)
    ensures r.Success? <==> i < |row|
    ensures r.Success? ==> r.value == row[i]
    ensures r.Failure? ==> r.error == IndexOutOfRange(i)
  {
    if i < |row| then Success(row[i]) else Failure(IndexOutOfRange(i))
  }
}
