/** `DbPreparedQueryCommand<T>`: rebind, run the statement as a reader, and materialise one
    item per row in read order. The per-row step (`CreateItem`) is a function parameter
    that also threads the variant's binding cache from row to row and across executions. */
module QueryCommand {
  import opened Outcomes
  import opened Values
  import opened Shapes
  import opened Statement
  import opened PreparedCommand

  /** A query command: the prepared base and the variant's cache. */
  datatype QueryState<C> = QueryState(command: Prepared, cache: C)

  /** The reader loop: while the reader advances to another row, the item built from that
      row is appended to the list. The first exception stops the loop and no list is returned; the
      cache as the last `CreateItem` left it is kept either way. */
  function ReadRows<C, T>(cache: C, columns: seq<string>, rows: seq<seq<Value>>,
                          create: (C, seq<string>, seq<Value>) -> (C, Result<T>)): (r: (C, Result<seq<T>>))
    ensures rows == [] ==> r == (cache, Success([]))
    ensures r.1.Success? ==> |r.1.value| == |rows|
    ensures r.1.Success? && rows != [] ==>
      create(cache, columns, rows[0]).1 == Success(r.1.value[0])
    decreases |rows|
  {
    if rows == [] then (cache, Success([]))
    else
      var first := create(cache, columns, rows[0]);
      if first.1.Failure? then (first.0, Failure(first.1.error))
      else
        var rest := ReadRows(first.0, columns, rows[1..], create);
        if rest.1.Failure? then rest
        else (rest.0, Success([first.1.value] + rest.1.value))
  }

  /** `create` leaves the cache `cache` as it is on every row of `columns`. */
  ghost predicate Settled<C, T>(cache: C, columns: seq<string>, create: (C, seq<string>, seq<Value>) -> (C, Result<T>))
  {
    forall row :: create(cache, columns, row).0 == cache
  }

  /** Once the cache is settled, the loop produces item i from row i alone: the list
      exists exactly when every row materialises, and then item i is row i's item;
      otherwise the error raised is that of the first row that does not materialise. */
  lemma {:induction false} ReadRowsSettled<C, T>(cache: C, columns: seq<string>, rows: seq<seq<Value>>,
                                                 create: (C, seq<string>, seq<Value>) -> (C, Result<T>))
    requires Settled(cache, columns, create)
    ensures ReadRows(cache, columns, rows, create).0 == cache
    ensures ReadRows(cache, columns, rows, create).1.Success? <==>
      forall i :: 0 <= i < |rows| ==> create(cache, columns, rows[i]).1.Success?
    ensures ReadRows(cache, columns, rows, create).1.Success? ==>
      forall i :: 0 <= i < |rows| ==>
        ReadRows(cache, columns, rows, create).1.value[i] == create(cache, columns, rows[i]).1.value
    ensures ReadRows(cache, columns, rows, create).1.Failure? ==>
      exists j :: 0 <= j < |rows|
        && (forall i :: 0 <= i < j ==> create(cache, columns, rows[i]).1.Success?)
        && create(cache, columns, rows[j]).1 == Failure(ReadRows(cache, columns, rows, create).1.error)
    decreases |rows|
  {
    if rows != [] {
      ReadRowsSettled(cache, columns, rows[1..], create);
      var r := ReadRows(cache, columns, rows, create);
      var first := create(cache, columns, rows[0]);
      assert first.0 == cache;
      if first.1.Success? {
        forall i | 1 <= i < |rows| ensures rows[1..][i - 1] == rows[i] { }
        if r.1.Failure? {
          var rest := ReadRows(cache, columns, rows[1..], create);
          assert rest == r;
          var j :| 0 <= j < |rows[1..]|
            && (forall i :: 0 <= i < j ==> create(cache, columns, rows[1..][i]).1.Success?)
            && create(cache, columns, rows[1..][j]).1 == Failure(rest.1.error);
          assert create(cache, columns, rows[j + 1]).1 == Failure(r.1.error);
        }
      } else {
        assert !create(cache, columns, rows[0]).1.Success?;
        assert create(cache, columns, rows[0]).1 == Failure(r.1.error);
      }
    }
  }

  /** When the cache the first row leaves is settled, and starting from it would have
      produced the same items, the whole loop behaves as if it had started from it: the
      cache is built on the first row and only reused afterwards. */
  lemma SettlesOnFirst<C, T>(cache: C, settled: C, columns: seq<string>, rows: seq<seq<Value>>,
                             create: (C, seq<string>, seq<Value>) -> (C, Result<T>))
    requires rows != []
    requires Settled(settled, columns, create)
    requires forall row :: create(cache, columns, row) == create(settled, columns, row)
    ensures ReadRows(cache, columns, rows, create) == ReadRows(settled, columns, rows, create)
  {
    assert create(cache, columns, rows[0]) == create(settled, columns, rows[0]);
  }

  /** With a settled cache and another result set whose rows are the same, the column
      names of the new result set make no difference. */
  lemma {:induction false} ReadRowsIgnoresColumns<C, T>(cache: C, columns: seq<string>, later: seq<string>, rows: seq<seq<Value>>,
                                     create: (C, seq<string>, seq<Value>) -> (C, Result<T>))
    requires Settled(cache, columns, create) && Settled(cache, later, create)
    requires forall row :: create(cache, columns, row) == create(cache, later, row)
    ensures ReadRows(cache, columns, rows, create) == ReadRows(cache, later, rows, create)
    decreases |rows|
  {
    if rows != [] {
      ReadRowsIgnoresColumns(cache, columns, later, rows[1..], create);
    }
  }

  /** `Execute` of a query command: rebind the placeholders, then — only if that succeeded —
      run the reader against the rebound placeholders and read every row. When every
      delivered row materialised and the reader then fails to advance, that failure is
      raised, and the cache the rows built stays behind. */
  function Execute<C, T>(s: QueryState<C>, values: Option<Obj>,
                         run: seq<Placeholder> -> Result<ResultSet>,
                         create: (C, seq<string>, seq<Value>) -> (C, Result<T>)): (r: (QueryState<C>, Result<seq<T>>))
    requires Valid(s.command)
    requires values.Some? ==> WellFormed(values.value)
    ensures Valid(r.0.command)
    ensures AssignParameters(s.command, values).Failure? ==>
      r == (s, Failure(AssignParameters(s.command, values).error))
    ensures AssignParameters(s.command, values).Success? ==>
      var rebound := AssignParameters(s.command, values).value;
      && r.0.command == Prepared(Invoke(rebound.handle, ReaderCall), rebound.mapping)
      && (run(rebound.handle.params).Failure? ==>
            r.0.cache == s.cache && r.1 == Failure(run(rebound.handle.params).error))
      && (run(rebound.handle.params).Success? ==>
            var rs := run(rebound.handle.params).value;
            var read := ReadRows(s.cache, rs.columns, rs.rows, create);
            && r.0.cache == read.0
            && (read.1.Failure? || rs.failure.None? ==> r.1 == read.1)
            && (read.1.Success? && rs.failure.Some? ==> r.1 == Failure(rs.failure.value)))
  {
    match AssignParameters(s.command, values)
    case Failure(e) => (s, Failure(e))
    case Success(rebound) =>
      var command := Prepared(Invoke(rebound.handle, ReaderCall), rebound.mapping);
      match run(rebound.handle.params)
      case Failure(e) => (QueryState(command, s.cache), Failure(e))
      case Success(rs) =>
        var read := ReadRows(s.cache, rs.columns, rs.rows, create);
        if read.1.Success? && rs.failure.Some? then (QueryState(command, read.0), Failure(rs.failure.value))
        else (QueryState(command, read.0), read.1)
  }
}
