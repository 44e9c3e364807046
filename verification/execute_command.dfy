/** `DbPreparedExecuteCommand`: rebind, run as a non-query, return the affected-row count. */
module ExecuteCommand {
  import opened Outcomes
  import opened Values
  import opened Shapes
  import opened Statement
  import opened PreparedCommand

  /** `Execute`: the placeholders are rebound before the non-query runs, a rejected rebind
      throws before the driver is called, and the result is exactly the driver's count.
      `nonQuery` is the driver's `ExecuteNonQuery` on the rebound placeholders. */
  function Execute(p: Prepared, values: Option<Obj>, nonQuery: seq<Placeholder> -> Result<int>): (r: (Prepared, Result<int>))
    requires Valid(p)
    requires values.Some? ==> WellFormed(values.value)
    ensures Valid(r.0)
    ensures AssignParameters(p, values).Failure? ==>
      r == (p, Failure(AssignParameters(p, values).error))
    ensures AssignParameters(p, values).Success? ==>
      var rebound := AssignParameters(p, values).value;
      && r.0 == Prepared(Invoke(rebound.handle, NonQueryCall), rebound.mapping)
      && r.1 == nonQuery(rebound.handle.params)
  {
    match AssignParameters(p, values)
    case Failure(e) => (p, Failure(e))
    case Success(rebound) =>
      (Prepared(Invoke(rebound.handle, NonQueryCall), rebound.mapping), nonQuery(rebound.handle.params))
  }

  /** Without a values object the placeholders keep the values they held, and the driver
      runs against exactly those. */
  lemma NoValuesKeepsBinding(p: Prepared, nonQuery: seq<Placeholder> -> Result<int>)
    requires Valid(p)
    ensures Execute(p, None, nonQuery).0.handle.params == p.handle.params
    ensures Execute(p, None, nonQuery).1 == nonQuery(p.handle.params)
  {
  }

  /** One prepared command executed with two values objects of the preparation object's
      type: each execution runs against the placeholders holding that object's values. */
  lemma {:induction false} RebindsInTurn(sql: string, transaction: Option<TransactionId>, prototype: Obj,
                                         first: Obj, second: Obj, nonQuery: seq<Placeholder> -> Result<int>)
    requires WellFormed(prototype) && WellFormed(first) && WellFormed(second)
    requires first.shape == prototype.shape && second.shape == prototype.shape
    ensures var p := Construct(sql, transaction, Some(prototype));
            var one := Execute(p, Some(first), nonQuery);
            var two := Execute(one.0, Some(second), nonQuery);
      && p.mapping.Some?
      && BoundTo(one.0.handle.params, p.mapping.value, first)
      && one.1 == nonQuery(one.0.handle.params)
      && BoundTo(two.0.handle.params, p.mapping.value, second)
      && two.1 == nonQuery(two.0.handle.params)
  {
    var p := Construct(sql, transaction, Some(prototype));
    var one := Execute(p, Some(first), nonQuery);
    Rebinds(p, first);
    Rebinds(one.0, second);
  }

  /** Rebinding a command built from a preparation object of the same type as `values`
      leaves the placeholders holding `values`'s property values. */
  lemma Rebinds(p: Prepared, values: Obj)
    requires Valid(p) && WellFormed(values)
    requires p.mapping.Some? && p.mapping.value.owner == values.shape
    requires |p.handle.params| == |p.mapping.value.pairs|
    requires forall k :: 0 <= k < |p.mapping.value.pairs| ==> p.mapping.value.pairs[k].slot == k
    ensures AssignParameters(p, Some(values)).Success?
    ensures BoundTo(AssignParameters(p, Some(values)).value.handle.params, p.mapping.value, values)
  {
  }
}
