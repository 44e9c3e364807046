/** `DbPreparedQueryScalar<T>`: rebind, fetch a single value, convert it. */
module ScalarCommand {
  import opened Outcomes
  import opened Values
  import opened Shapes
  import opened Statement
  import opened PreparedCommand

  /** `Execute`: the placeholders are rebound before the fetch, a rejected rebind throws
      before the driver is called, and the fetched value is converted after DBNull
      normalisation. `scalar` is the driver's `ExecuteScalar` on the rebound placeholders. */
  function Execute<T>(p: Prepared, values: Option<Obj>,
                      scalar: seq<Placeholder> -> Result<Value>,
                      convert: Value -> Result<T>): (r: (Prepared, Result<T>))
    requires Valid(p)
    requires values.Some? ==> WellFormed(values.value)
    ensures Valid(r.0)
    ensures AssignParameters(p, values).Failure? ==>
      r == (p, Failure(AssignParameters(p, values).error))
    ensures AssignParameters(p, values).Success? ==>
      var rebound := AssignParameters(p, values).value;
      && r.0 == Prepared(Invoke(rebound.handle, ScalarCall), rebound.mapping)
      && (scalar(rebound.handle.params).Failure? ==> r.1 == Failure(scalar(rebound.handle.params).error))
      && (scalar(rebound.handle.params).Success? ==>
            var v := scalar(rebound.handle.params).value;
            && (v == DBNull ==> r.1 == convert(Null))
            && (v != DBNull ==> r.1 == convert(v)))
  {
    match AssignParameters(p, values)
    case Failure(e) => (p, Failure(e))
    case Success(rebound) =>
      var command := Prepared(Invoke(rebound.handle, ScalarCall), rebound.mapping);
      match scalar(rebound.handle.params)
      case Failure(e) => (command, Failure(e))
      case Success(v) => (command, Coerce(convert, v))
  }

  /** Values passed to a command prepared without a preparation object are rejected with
      InvalidOperationException before anything reaches the driver. */
  lemma UndeclaredValuesRejected<T>(sql: string, transaction: Option<TransactionId>, values: Obj,
                                    scalar: seq<Placeholder> -> Result<Value>, convert: Value -> Result<T>)
    requires WellFormed(values)
    ensures var p := Construct(sql, transaction, None);
      && Execute(p, Some(values), scalar, convert) == (p, Failure(InvalidOperation(NotDeclaredMessage)))
      && ScalarCall !in Execute(p, Some(values), scalar, convert).0.handle.calls
  {
  }
}
