/** `DbPreparedQueryNonAnonymousCommand<T>`: rows become fresh default instances of `T`
    whose writable properties are set from the columns of the same name. */
module PropertyMode {
  import opened Outcomes
  import opened Values
  import opened Shapes
  import opened Statement
  import opened ColumnBinding
  import opened PreparedCommand
  import opened QueryCommand

  /** The target type `T`: its public properties, and the property values a `new T()` has. */
  datatype Target = Target(shape: Shape, defaults: seq<Value>)

  /** The cached column→property list (`_IndexedProperties`), absent until the first row. */
  type Cache = Option<seq<ColumnBinding>>

  const NoMatchMessage := "No properties on the object type matches columns in the result"

  /** Finding the item type's public property by name and then testing that it can be
      written: the position of the property of that name, when it exists and is writable. */
  function WritableProperty(shape: Shape, name: string): (r: Option<nat>)
    ensures r.Some? ==> r.value < |shape| && shape[r.value].name == name && shape[r.value].canWrite
    ensures r.Some? <==> Lookup(Names(shape), name).Some? && shape[Lookup(Names(shape), name).value].canWrite
    ensures r.Some? ==> r == Lookup(Names(shape), name)
  {
    match Lookup(Names(shape), name)
    case None => None
    case Some(p) => if shape[p].canWrite then Some(p) else None
  }

  /** `CreateIndexedProperties`: a pair (i, p) is listed exactly when column i's name is the
      name of property p and p is writable; columns come in increasing order, all in range. */
  function CreateIndexedProperties(shape: Shape, columns: seq<string>): (r: seq<ColumnBinding>)
    ensures ColumnsIncrease(r)
    ensures forall k :: 0 <= k < |r| ==>
      && r[k].column < |columns|
      && r[k].slot < |shape|
      && shape[r[k].slot].name == columns[r[k].column]
      && shape[r[k].slot].canWrite
      && WritableProperty(shape, columns[r[k].column]) == Some(r[k].slot)
    ensures forall i, p :: 0 <= i < |columns| && WritableProperty(shape, columns[i]) == Some(p) ==>
      ColumnBinding(i, p) in r
  {
    var lookup := name => WritableProperty(shape, name);
    var r := MatchColumns(lookup, columns, 0);
    assert forall i, p :: 0 <= i < |columns| && WritableProperty(shape, columns[i]) == Some(p) ==>
      Matches(lookup, columns, i, p);
    r
  }

  /** `CreateItem` in property mode. The index list is built on the first call only and
      kept even when the call throws; an empty list throws InvalidOperationException on
      every row; otherwise the item is a fresh default instance with each mapped property
      set from its column. */
  function CreateItem(t: Target, cache: Cache, columns: seq<string>, row: seq<Value>): (r: (Cache, Result<Obj>))
    ensures cache.Some? ==> r.0 == cache
    ensures cache.None? ==> r.0 == Some(CreateIndexedProperties(t.shape, columns))
    ensures r.0.value == [] ==> r.1 == Failure(InvalidOperation(NoMatchMessage))
    ensures r.0.value != [] ==>
      (r.1.Success? <==> AllFit(r.0.value, |row|, |t.defaults|))
    ensures r.1.Success? ==>
      && r.1.value.shape == t.shape
      && |r.1.value.values| == |t.defaults|
      && Filled(t.defaults, r.0.value, row, r.1.value.values)
  {
    var indexed := if cache.Some? then cache.value else CreateIndexedProperties(t.shape, columns);
    if |indexed| == 0 then (Some(indexed), Failure(InvalidOperation(NoMatchMessage)))
    else
      match Fill(t.defaults, indexed, row)
      case Failure(e) => (Some(indexed), Failure(e))
      case Success(values) => (Some(indexed), Success(Obj(t.shape, values)))
  }

  /** `CreateItem` as the per-row step of the reader loop. */
  function Creator(t: Target): (C: (Cache, seq<string>, seq<Value>) -> (Cache, Result<Obj>))
  {
    (cache, columns, row) => CreateItem(t, cache, columns, row)
  }

  /** Every row has one cell per column, and a default instance one value per property. */
  predicate Rectangular(t: Target, columns: seq<string>, rows: seq<seq<Value>>)
  {
    && |t.defaults| == |t.shape|
    && forall i :: 0 <= i < |rows| ==> |rows[i]| == |columns|
  }

  /** The first execution that reads rows. The index list is computed from the columns on
      the first row and cached. If it is empty the execution throws InvalidOperationException;
      otherwise item i is the default instance filled from row i alone, and for a
      well-formed result set every row materialises. */
  lemma {:induction false} FirstRead(t: Target, columns: seq<string>, rows: seq<seq<Value>>)
    requires rows != []
    ensures var indexed := CreateIndexedProperties(t.shape, columns);
            var r := ReadRows(None, columns, rows, Creator(t));
      && r.0 == Some(indexed)
      && (indexed == [] ==> r.1 == Failure(InvalidOperation(NoMatchMessage)))
      && (indexed != [] ==>
            (r.1.Success? <==> forall i :: 0 <= i < |rows| ==> AllFit(indexed, |rows[i]|, |t.defaults|)))
      && (indexed != [] && Rectangular(t, columns, rows) ==> r.1.Success?)
      && (r.1.Success? ==> forall i :: 0 <= i < |rows| ==>
            && r.1.value[i].shape == t.shape
            && Fill(t.defaults, indexed, rows[i]) == Success(r.1.value[i].values))
  {
    var indexed := CreateIndexedProperties(t.shape, columns);
    var create := Creator(t);
    var cache: Cache := Some(indexed);
    CreatorSettles(t, None, indexed, columns);
    SettlesOnFirst(None, cache, columns, rows, create);
    ReadRowsSettled(cache, columns, rows, create);
    var r := ReadRows(cache, columns, rows, create);
    if indexed == [] {
      assert !create(cache, columns, rows[0]).1.Success?;
    }
    if indexed != [] && Rectangular(t, columns, rows) {
      forall i | 0 <= i < |rows| ensures AllFit(indexed, |rows[i]|, |t.defaults|) {
        assert forall k :: 0 <= k < |indexed| ==> Fits(indexed[k], |rows[i]|, |t.defaults|);
      }
    }
  }

  /** `CreateItem` with the list `indexed` cached keeps the cache, and with nothing cached
      yet behaves as if `CreateIndexedProperties` of the columns were cached. */
  lemma CreatorSettles(t: Target, start: Cache, indexed: seq<ColumnBinding>, columns: seq<string>)
    requires start.Some? ==> start == Some(indexed)
    requires start.None? ==> indexed == CreateIndexedProperties(t.shape, columns)
    ensures Settled(Some(indexed), columns, Creator(t))
    ensures forall row :: Creator(t)(start, columns, row) == Creator(t)(Some(indexed), columns, row)
  {
    var create := Creator(t);
    forall row ensures create(start, columns, row) == create(Some(indexed), columns, row)
                    && create(Some(indexed), columns, row).0 == Some(indexed) {
      assert create(start, columns, row) == CreateItem(t, start, columns, row);
      assert create(Some(indexed), columns, row) == CreateItem(t, Some(indexed), columns, row);
    }
  }

  /** Later executions reuse the cached list: the column names of their result sets are
      never looked at again, and each row is filled through the cached list. */
  lemma {:induction false} LaterRead(t: Target, indexed: seq<ColumnBinding>, columns: seq<string>, rows: seq<seq<Value>>)
    ensures var r := ReadRows(Some(indexed), columns, rows, Creator(t));
      && r == ReadRows(Some(indexed), [], rows, Creator(t))
      && r.0 == Some(indexed)
      && (indexed == [] && rows != [] ==> r.1 == Failure(InvalidOperation(NoMatchMessage)))
      && (r.1.Success? ==> forall i :: 0 <= i < |rows| ==>
            && r.1.value[i].shape == t.shape
            && Fill(t.defaults, indexed, rows[i]) == Success(r.1.value[i].values))
  {
    var create := Creator(t);
    var cache: Cache := Some(indexed);
    assert forall cols, row :: create(cache, cols, row) == CreateItem(t, cache, cols, row);
    assert Settled(cache, columns, create);
    assert Settled(cache, [], create);
    ReadRowsIgnoresColumns(cache, columns, [], rows, create);
    ReadRowsSettled(cache, columns, rows, create);
    if indexed == [] && rows != [] {
      assert !create(cache, columns, rows[0]).1.Success?;
    }
  }

  /** With distinct column names, a full row sets each writable property a column names to
      that column's value (DBNull read as null) and leaves every other property at its
      default. */
  lemma DistinctColumns(t: Target, columns: seq<string>, row: seq<Value>)
    requires |t.defaults| == |t.shape| && |row| == |columns|
    requires DistinctNames(columns)
    ensures var f := Fill(t.defaults, CreateIndexedProperties(t.shape, columns), row);
      && f.Success?
      && (forall i, p :: 0 <= i < |columns| && WritableProperty(t.shape, columns[i]) == Some(p) ==>
            f.value[p] == Normalise(row[i]))
      && (forall p :: 0 <= p < |t.shape| && (t.shape[p].name !in columns || !t.shape[p].canWrite) ==>
            f.value[p] == t.defaults[p])
  {
    var indexed := CreateIndexedProperties(t.shape, columns);
    var lookup := name => WritableProperty(t.shape, name);
    forall i, j | 0 <= i < |columns| && 0 <= j < |columns| && lookup(columns[i]).Some?
                  && lookup(columns[i]) == lookup(columns[j])
      ensures i == j
    {
      assert columns[i] == t.shape[lookup(columns[i]).value].name == columns[j];
    }
    assert forall k :: 0 <= k < |indexed| ==> Matches(lookup, columns, indexed[k].column, indexed[k].slot);
    assert forall i, s :: 0 <= i && Matches(lookup, columns, i, s) ==> ColumnBinding(i, s) in indexed;
    assert DistinctMatches(indexed, lookup, columns, |t.defaults|);
    FillDistinct(t.defaults, indexed, lookup, columns, row);
  }

  /** The first execution over a well-formed result set with distinct column names, at least
      one of which names a writable property: every row materialises, and in item i each
      writable property named by column j holds row i's value of column j while every other
      property keeps its default. */
  lemma MatchedColumnsRead(t: Target, columns: seq<string>, rows: seq<seq<Value>>)
    requires rows != [] && Rectangular(t, columns, rows) && DistinctNames(columns)
    requires exists j :: 0 <= j < |columns| && WritableProperty(t.shape, columns[j]).Some?
    ensures var r := ReadRows(None, columns, rows, Creator(t));
      && r.1.Success? && |r.1.value| == |rows|
      && forall i :: 0 <= i < |rows| ==>
        && r.1.value[i].shape == t.shape
        && |r.1.value[i].values| == |t.shape|
        && (forall j, p :: 0 <= j < |columns| && WritableProperty(t.shape, columns[j]) == Some(p) ==>
              r.1.value[i].values[p] == Normalise(rows[i][j]))
        && (forall p :: 0 <= p < |t.shape| && (t.shape[p].name !in columns || !t.shape[p].canWrite) ==>
              r.1.value[i].values[p] == t.defaults[p])
  {
    var indexed := CreateIndexedProperties(t.shape, columns);
    var j :| 0 <= j < |columns| && WritableProperty(t.shape, columns[j]).Some?;
    assert ColumnBinding(j, WritableProperty(t.shape, columns[j]).value) in indexed;
    FirstRead(t, columns, rows);
    var r := ReadRows(None, columns, rows, Creator(t));
    forall i | 0 <= i < |rows|
      ensures && |r.1.value[i].values| == |t.shape|
              && (forall j, p :: 0 <= j < |columns| && WritableProperty(t.shape, columns[j]) == Some(p) ==>
                    r.1.value[i].values[p] == Normalise(rows[i][j]))
              && (forall p :: 0 <= p < |t.shape| && (t.shape[p].name !in columns || !t.shape[p].canWrite) ==>
                    r.1.value[i].values[p] == t.defaults[p])
    {
      DistinctColumns(t, columns, rows[i]);
    }
  }

  /** A first execution that reads rows leaves the index list built on its first row
      cached, however the execution ends. In particular, a reader that fails to advance
      after delivering rows that all materialise raises that failure and still leaves the
      list cached, and no list is returned while the reader reports a failure. */
  lemma FailsAfterRows(t: Target, s: QueryState<Cache>, run: seq<Placeholder> -> Result<ResultSet>)
    requires Valid(s.command) && s.cache.None?
    requires run(s.command.handle.params).Success? && run(s.command.handle.params).value.rows != []
    ensures var rs := run(s.command.handle.params).value;
            var indexed := CreateIndexedProperties(t.shape, rs.columns);
            var r := Execute(s, None, run, Creator(t));
      && r.0.cache == Some(indexed)
      && (rs.failure.Some? && indexed != [] && Rectangular(t, rs.columns, rs.rows) ==>
            r.1 == Failure(rs.failure.value))
      && (r.1.Success? ==> rs.failure.None?)
  {
    var rs := run(s.command.handle.params).value;
    assert AssignParameters(s.command, None) == Success(s.command);
    FirstRead(t, rs.columns, rs.rows);
  }
}
