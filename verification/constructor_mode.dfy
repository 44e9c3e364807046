/** `DbPreparedQueryAnonymousCommand<T>`: rows become instances built by invoking the first
    public constructor of `T`, each argument taken from the column of the same name. */
module ConstructorMode {
  import opened Outcomes
  import opened Values
  import opened Shapes
  import opened Statement
  import opened ColumnBinding
  import opened QueryCommand

  /** A constructor, described by its parameter names in slot order. */
  type Constructor = seq<string>

  /** The target type `T`, described by what `GetConstructors()` returns, in order. */
  datatype Class = Class(constructors: seq<Constructor>)

  /** An instance of `T`: the constructor invoked and the argument array it was given. */
  datatype Instance = Instance(ctor: Constructor, arguments: seq<Value>)

  /** The two caches of the command: `_Constructor` and `_IndexedParameters`. */
  datatype Cache = Cache(ctor: Option<Constructor>, indexed: Option<seq<ColumnBinding>>)

  const Empty := Cache(None, None)

  /** The first of the type's public constructors is used; a type without public
      constructors makes the lookup throw IndexOutOfRange. */
  function FindConstructor(c: Class): (r: Result<Constructor>)
    ensures r.Success? <==> |c.constructors| > 0
    ensures r.Success? ==> r.value == c.constructors[0]
    ensures r.Failure? ==> r.error == IndexOutOfRange(0)
  {
    if |c.constructors| > 0 then Success(c.constructors[0]) else Failure(IndexOutOfRange(0))
  }

  /** `CreateIndexedParameters`: a pair (i, s) is listed exactly when column i's name is the
      name of constructor parameter s; unmatched columns are skipped, columns come in
      increasing order, and every slot is below the parameter count. */
  function CreateIndexedParameters(ctor: Constructor, columns: seq<string>): (r: seq<ColumnBinding>)
    ensures ColumnsIncrease(r)
    ensures forall k :: 0 <= k < |r| ==>
      && r[k].column < |columns|
      && r[k].slot < |ctor|
      && ctor[r[k].slot] == columns[r[k].column]
      && Lookup(ctor, columns[r[k].column]) == Some(r[k].slot)
    ensures forall i, s :: 0 <= i < |columns| && Lookup(ctor, columns[i]) == Some(s) ==>
      ColumnBinding(i, s) in r
  {
    var lookup := name => Lookup(ctor, name);
    var r := MatchColumns(lookup, columns, 0);
    assert forall i, s :: 0 <= i < |columns| && Lookup(ctor, columns[i]) == Some(s) ==>
      Matches(lookup, columns, i, s);
    r
  }

  /** A fresh argument array of length `n`: every slot null. */
  function Nulls(n: nat): (r: seq<Value>)
    ensures |r| == n && forall s :: 0 <= s < n ==> r[s] == Null
  {
    seq(n, _ => Null)
  }

  /** `CreateItem` in constructor mode. The constructor and then the index list are each
      found once and cached; a type with no constructor throws and caches nothing. The
      argument array has one slot per constructor parameter, and there is no check that any
      column matched. */
  function CreateItem(c: Class, cache: Cache, columns: seq<string>, row: seq<Value>): (r: (Cache, Result<Instance>))
    ensures cache.ctor.None? && c.constructors == [] ==> r == (cache, Failure(IndexOutOfRange(0)))
    ensures cache.ctor.Some? || c.constructors != [] ==>
      var ctor := if cache.ctor.Some? then cache.ctor.value else c.constructors[0];
      var indexed := if cache.indexed.Some? then cache.indexed.value else CreateIndexedParameters(ctor, columns);
      && r.0 == Cache(Some(ctor), Some(indexed))
      && (r.1.Success? <==> AllFit(indexed, |row|, |ctor|))
      && (r.1.Success? ==>
            && r.1.value.ctor == ctor
            && |r.1.value.arguments| == |ctor|
            && Filled(Nulls(|ctor|), indexed, row, r.1.value.arguments))
  {
    var found := if cache.ctor.Some? then Success(cache.ctor.value) else FindConstructor(c);
    match found
    case Failure(e) => (cache, Failure(e))
    case Success(ctor) =>
      var indexed := if cache.indexed.Some? then cache.indexed.value else CreateIndexedParameters(ctor, columns);
      var next := Cache(Some(ctor), Some(indexed));
      match Fill(Nulls(|ctor|), indexed, row)
      case Failure(e) => (next, Failure(e))
      case Success(arguments) => (next, Success(Instance(ctor, arguments)))
  }

  /** `CreateItem` as the per-row step of the reader loop. */
  function Creator(c: Class): (C: (Cache, seq<string>, seq<Value>) -> (Cache, Result<Instance>))
  {
    (cache, columns, row) => CreateItem(c, cache, columns, row)
  }

  /** Every row has one cell per column. */
  predicate Rectangular(columns: seq<string>, rows: seq<seq<Value>>)
  {
    forall i :: 0 <= i < |rows| ==> |rows[i]| == |columns|
  }

  /** Once both caches are set, `CreateItem` keeps them, and an empty cache that would be
      filled with them behaves the same. */
  lemma CreatorSettles(c: Class, start: Cache, ctor: Constructor, indexed: seq<ColumnBinding>, columns: seq<string>)
    requires start.ctor.Some? ==> start.ctor.value == ctor
    requires start.ctor.None? ==> c.constructors != [] && c.constructors[0] == ctor
    requires start.indexed.Some? ==> start.indexed.value == indexed
    requires start.indexed.None? ==> indexed == CreateIndexedParameters(ctor, columns)
    ensures Settled(Cache(Some(ctor), Some(indexed)), columns, Creator(c))
    ensures forall row :: Creator(c)(start, columns, row) == Creator(c)(Cache(Some(ctor), Some(indexed)), columns, row)
  {
    var create := Creator(c);
    var full := Cache(Some(ctor), Some(indexed));
    forall row ensures create(start, columns, row) == create(full, columns, row)
                    && create(full, columns, row).0 == full {
      assert create(start, columns, row) == CreateItem(c, start, columns, row);
      assert create(full, columns, row) == CreateItem(c, full, columns, row);
    }
  }

  /** A type without public constructors throws on the first row of the first execution
      that reads rows, and nothing is cached. */
  lemma NoConstructor(c: Class, columns: seq<string>, rows: seq<seq<Value>>)
    requires rows != [] && c.constructors == []
    ensures ReadRows(Empty, columns, rows, Creator(c)) == (Empty, Failure(IndexOutOfRange(0)))
  {
    assert Creator(c)(Empty, columns, rows[0]) == CreateItem(c, Empty, columns, rows[0]);
  }

  /** The first execution that reads rows, for a type with a constructor: the first
      constructor and the column→slot list of the columns are cached, item i is that
      constructor applied to the argument array filled from row i alone, and a well-formed
      result set always materialises. */
  lemma {:induction false} FirstRead(c: Class, columns: seq<string>, rows: seq<seq<Value>>)
    requires rows != [] && c.constructors != []
    ensures var ctor := c.constructors[0];
            var indexed := CreateIndexedParameters(ctor, columns);
            var r := ReadRows(Empty, columns, rows, Creator(c));
      && r.0 == Cache(Some(ctor), Some(indexed))
      && (r.1.Success? <==> forall i :: 0 <= i < |rows| ==> AllFit(indexed, |rows[i]|, |ctor|))
      && (Rectangular(columns, rows) ==> r.1.Success?)
      && (r.1.Success? ==> forall i :: 0 <= i < |rows| ==>
            && r.1.value[i].ctor == ctor
            && Fill(Nulls(|ctor|), indexed, rows[i]) == Success(r.1.value[i].arguments))
  {
    var create := Creator(c);
    var ctor := c.constructors[0];
    var indexed := CreateIndexedParameters(ctor, columns);
    var full := Cache(Some(ctor), Some(indexed));
    CreatorSettles(c, Empty, ctor, indexed, columns);
    SettlesOnFirst(Empty, full, columns, rows, create);
    ReadRowsSettled(full, columns, rows, create);
    if Rectangular(columns, rows) {
      forall i | 0 <= i < |rows| ensures AllFit(indexed, |rows[i]|, |ctor|) {
        assert forall k :: 0 <= k < |indexed| ==> Fits(indexed[k], |rows[i]|, |ctor|);
      }
    }
  }

  /** Unlike property mode, a result set none of whose columns names a constructor
      parameter raises no error: every row becomes an instance whose arguments are all
      null. */
  lemma NoMatchNoError(c: Class, columns: seq<string>, rows: seq<seq<Value>>)
    requires rows != [] && c.constructors != []
    requires CreateIndexedParameters(c.constructors[0], columns) == []
    ensures var r := ReadRows(Empty, columns, rows, Creator(c));
      && r.1.Success?
      && forall i :: 0 <= i < |rows| ==> r.1.value[i] == Instance(c.constructors[0], Nulls(|c.constructors[0]|))
  {
    var ctor := c.constructors[0];
    FirstRead(c, columns, rows);
    var r := ReadRows(Empty, columns, rows, Creator(c));
    forall i | 0 <= i < |rows| ensures r.1.value[i] == Instance(ctor, Nulls(|ctor|)) {
      var arguments := r.1.value[i].arguments;
      assert forall s :: 0 <= s < |ctor| ==> Unwritten([], s);
      assert arguments == Nulls(|ctor|);
    }
  }

  /** With distinct column names, a full row puts each column's value (DBNull read as null)
      into the slot of the parameter it names, and every parameter no column names
      receives null. */
  lemma DistinctColumns(ctor: Constructor, columns: seq<string>, row: seq<Value>)
    requires |row| == |columns| && DistinctNames(columns)
    ensures var f := Fill(Nulls(|ctor|), CreateIndexedParameters(ctor, columns), row);
      && f.Success?
      && (forall i, s :: 0 <= i < |columns| && Lookup(ctor, columns[i]) == Some(s) ==> f.value[s] == Normalise(row[i]))
      && (forall s :: 0 <= s < |ctor| && ctor[s] !in columns ==> f.value[s] == Null)
  {
    var indexed := CreateIndexedParameters(ctor, columns);
    var lookup := name => Lookup(ctor, name);
    forall i, j | 0 <= i < |columns| && 0 <= j < |columns| && lookup(columns[i]).Some?
                  && lookup(columns[i]) == lookup(columns[j])
      ensures i == j
    {
      assert columns[i] == ctor[lookup(columns[i]).value] == columns[j];
    }
    assert forall k :: 0 <= k < |indexed| ==> Matches(lookup, columns, indexed[k].column, indexed[k].slot);
    assert forall i, s :: 0 <= i && Matches(lookup, columns, i, s) ==> ColumnBinding(i, s) in indexed;
    assert DistinctMatches(indexed, lookup, columns, |Nulls(|ctor|)|);
    FillDistinct(Nulls(|ctor|), indexed, lookup, columns, row);
  }

  /** The first execution over a well-formed result set with distinct column names, for a
      type with a constructor: every row materialises through the first constructor, and in
      item i each parameter named by column j receives row i's value of column j while every
      other parameter receives null. */
  lemma MatchedColumnsRead(c: Class, columns: seq<string>, rows: seq<seq<Value>>)
    requires rows != [] && c.constructors != [] && Rectangular(columns, rows) && DistinctNames(columns)
    ensures var ctor := c.constructors[0];
            var r := ReadRows(Empty, columns, rows, Creator(c));
      && r.1.Success? && |r.1.value| == |rows|
      && forall i :: 0 <= i < |rows| ==>
        && r.1.value[i].ctor == ctor
        && |r.1.value[i].arguments| == |ctor|
        && (forall j, s :: 0 <= j < |columns| && Lookup(ctor, columns[j]) == Some(s) ==>
              r.1.value[i].arguments[s] == Normalise(rows[i][j]))
        && (forall s :: 0 <= s < |ctor| && ctor[s] !in columns ==> r.1.value[i].arguments[s] == Null)
  {
    var ctor := c.constructors[0];
    FirstRead(c, columns, rows);
    var r := ReadRows(Empty, columns, rows, Creator(c));
    forall i | 0 <= i < |rows|
      ensures && |r.1.value[i].arguments| == |ctor|
              && (forall j, s :: 0 <= j < |columns| && Lookup(ctor, columns[j]) == Some(s) ==>
                    r.1.value[i].arguments[s] == Normalise(rows[i][j]))
              && (forall s :: 0 <= s < |ctor| && ctor[s] !in columns ==> r.1.value[i].arguments[s] == Null)
    {
      DistinctColumns(ctor, columns, rows[i]);
    }
  }
}
