/** The repository's test scenarios, stated over the model with the driver replaced by
    fixed answers. */
module Scenarios {
  import opened Outcomes
  import opened Values
  import opened Shapes
  import opened Statement
  import opened ColumnBinding
  import opened PreparedCommand
  import opened QueryCommand
  import PropertyMode
  import ConstructorMode
  import SequenceMode
  import ScalarCommand
  import ExecuteCommand

  /** A conversion to `int` for the scenarios: integers pass, anything else is rejected. */
  function ToInt(v: Value): (r: Result<int>)
    ensures v.Int? <==> r.Success?
  {
    if v.Int? then Success(v.i) else Failure(Conversion("not an integer"))
  }

  /** A conversion to `string` for the scenarios: strings pass, anything else is rejected. */
  function ToText(v: Value): (r: Result<string>)
    ensures v.Str? <==> r.Success?
  {
    if v.Str? then Success(v.s) else Failure(Conversion("not a string"))
  }

  const KeyValueColumns: seq<string> := ["Key", "Value"]
  const MagicRow: seq<Value> := [Str("Magic"), Int(42)]

  /** A driver whose reader always returns `rs`. */
  function Returns(rs: ResultSet): seq<Placeholder> -> Result<ResultSet>
  {
    _ => Success(rs)
  }

  /** A sequence of two elements is the display of them. */
  lemma Pair<T>(s: seq<T>, a: T, b: T)
    requires |s| == 2 && s[0] == a && s[1] == b
    ensures s == [a, b]
  {
  }

  /** A sequence of one element is the display of it. */
  lemma Single<T>(s: seq<T>, a: T)
    requires |s| == 1 && s[0] == a
    ensures s == [a]
  {
  }

  /** Two different names are distinct column names. */
  lemma TwoDistinct(columns: seq<string>)
    requires |columns| == 2 && columns[0] != columns[1]
    ensures DistinctNames(columns)
  {
  }

  /** Without values, executing against a driver that returns `rs`, whose reader ends
      without failure, reads `rs`. */
  lemma ReadsReturned<C, T>(s: QueryState<C>, rs: ResultSet, create: (C, seq<string>, seq<Value>) -> (C, Result<T>))
    requires Valid(s.command)
    requires rs.failure.None?
    ensures Execute(s, None, Returns(rs), create).1 == ReadRows(s.cache, rs.columns, rs.rows, create).1
  {
    assert AssignParameters(s.command, None) == Success(s.command);
    assert Returns(rs)(s.command.handle.params) == Success(rs);
  }

  /** Two columns naming the two properties of a type, in order: a single row of non-null
      values becomes one instance holding exactly those values. */
  lemma TwoColumnRecord(t: PropertyMode.Target, columns: seq<string>, row: seq<Value>)
    requires |t.shape| == 2 && |t.defaults| == 2 && |columns| == 2 && |row| == 2
    requires columns[0] != columns[1] && row[0] != DBNull && row[1] != DBNull
    requires PropertyMode.WritableProperty(t.shape, columns[0]) == Some(0)
    requires PropertyMode.WritableProperty(t.shape, columns[1]) == Some(1)
    ensures ReadRows(None, columns, [row], PropertyMode.Creator(t)).1 == Success([Obj(t.shape, row)])
  {
    assert PropertyMode.Rectangular(t, columns, [row]);
    TwoDistinct(columns);
    assert 0 <= 0 < |columns| && PropertyMode.WritableProperty(t.shape, columns[0]).Some?;
    PropertyMode.MatchedColumnsRead(t, columns, [row]);
    var r := ReadRows(None, columns, [row], PropertyMode.Creator(t)).1;
    var item := r.value[0];
    assert item.values[0] == Normalise(row[0]);
    assert item.values[1] == Normalise(row[1]);
    Pair(item.values, row[0], row[1]);
    Pair(row, row[0], row[1]);
    Single(r.value, Obj(t.shape, row));
  }

  /** A record type with two distinct read/write properties, read from a result set whose
      columns are named after them and whose single row holds (v1, v2): one instance with
      the first property v1 and the second v2. */
  lemma RecordRows(k1: string, k2: string, d1: Value, d2: Value, v1: Value, v2: Value)
    requires k1 != k2 && v1 != DBNull && v2 != DBNull
    ensures var record := PropertyMode.Target([Property(k1, true, true, 0), Property(k2, true, true, 0)], [d1, d2]);
      ReadRows(None, [k1, k2], [[v1, v2]], PropertyMode.Creator(record)).1 == Success([Obj(record.shape, [v1, v2])])
  {
    var record := PropertyMode.Target([Property(k1, true, true, 0), Property(k2, true, true, 0)], [d1, d2]);
    assert Names(record.shape) == [k1, k2];
    assert PropertyMode.WritableProperty(record.shape, k1) == Some(0);
    assert PropertyMode.WritableProperty(record.shape, k2) == Some(1);
    TwoColumnRecord(record, [k1, k2], [v1, v2]);
  }

  /** A `TestRecord` (`Key`, `Value`, both read/write; defaults null and 0) read from a
      reader with columns `Key`, `Value` and the single row ("Magic", 42). */
  lemma TestRecordQuery()
    ensures var record := PropertyMode.Target(
              [Property("Key", true, true, 0), Property("Value", true, true, 0)], [Null, Int(0)]);
            var s := QueryState(Construct("SQL", None, None), None);
            var r := Execute(s, None, Returns(ResultSet(KeyValueColumns, [MagicRow], None)), PropertyMode.Creator(record));
      r.1 == Success([Obj(record.shape, MagicRow)])
  {
    var record := PropertyMode.Target(
      [Property("Key", true, true, 0), Property("Value", true, true, 0)], [Null, Int(0)]);
    ReadsReturned(QueryState(Construct("SQL", None, None), None), ResultSet(KeyValueColumns, [MagicRow], None),
                  PropertyMode.Creator(record));
    RecordRows("Key", "Value", Null, Int(0), Str("Magic"), Int(42));
  }

  /** Two columns naming the two parameters of a type's first constructor, in order: a
      single row of non-null values becomes one instance built from exactly those values. */
  lemma TwoColumnInstance(c: ConstructorMode.Class, columns: seq<string>, row: seq<Value>)
    requires c.constructors != [] && |c.constructors[0]| == 2 && |columns| == 2 && |row| == 2
    requires columns[0] != columns[1] && row[0] != DBNull && row[1] != DBNull
    requires Lookup(c.constructors[0], columns[0]) == Some(0)
    requires Lookup(c.constructors[0], columns[1]) == Some(1)
    ensures ReadRows(ConstructorMode.Empty, columns, [row], ConstructorMode.Creator(c)).1
      == Success([ConstructorMode.Instance(c.constructors[0], row)])
  {
    assert ConstructorMode.Rectangular(columns, [row]);
    TwoDistinct(columns);
    ConstructorMode.MatchedColumnsRead(c, columns, [row]);
    var r := ReadRows(ConstructorMode.Empty, columns, [row], ConstructorMode.Creator(c)).1;
    var item := r.value[0];
    assert item.arguments[0] == Normalise(row[0]);
    assert item.arguments[1] == Normalise(row[1]);
    Pair(item.arguments, row[0], row[1]);
    Pair(row, row[0], row[1]);
    Single(r.value, ConstructorMode.Instance(c.constructors[0], row));
  }

  /** A type whose first constructor takes two distinct parameters, read from a result set
      whose columns are named after them and whose single row holds (v1, v2): one instance
      built from the argument array [v1, v2]. */
  lemma ConstructedRows(k1: string, k2: string, v1: Value, v2: Value)
    requires k1 != k2 && v1 != DBNull && v2 != DBNull
    ensures var c := ConstructorMode.Class([[k1, k2]]);
      ReadRows(ConstructorMode.Empty, [k1, k2], [[v1, v2]], ConstructorMode.Creator(c)).1
        == Success([ConstructorMode.Instance([k1, k2], [v1, v2])])
  {
    assert Lookup([k1, k2], k1) == Some(0);
    assert Lookup([k1, k2], k2) == Some(1);
    TwoColumnInstance(ConstructorMode.Class([[k1, k2]]), [k1, k2], [v1, v2]);
  }

  /** An anonymous type `{ Key, Value }` (constructor parameters `Key`, `Value`) read from
      the same reader. */
  lemma AnonymousQuery()
    ensures var anonymous := ConstructorMode.Class([["Key", "Value"]]);
            var s := QueryState(Construct("SQL", None, None), ConstructorMode.Empty);
            var r := Execute(s, None, Returns(ResultSet(KeyValueColumns, [MagicRow], None)), ConstructorMode.Creator(anonymous));
      r.1 == Success([ConstructorMode.Instance(["Key", "Value"], MagicRow)])
  {
    var anonymous := ConstructorMode.Class([["Key", "Value"]]);
    ReadsReturned(QueryState(Construct("SQL", None, None), ConstructorMode.Empty), ResultSet(KeyValueColumns, [MagicRow], None),
                  ConstructorMode.Creator(anonymous));
    ConstructedRows("Key", "Value", Str("Magic"), Int(42));
  }

  /** A two-column reader whose single row holds 42 in column 0 yields `[42]`; the second
      column (null here) is never read. */
  lemma SequenceQuery()
    ensures var s := QueryState(Construct("SQL", None, None), ());
            var r := Execute(s, None, Returns(ResultSet(["Value", ""], [[Int(42), Null]], None)), SequenceMode.Creator(ToInt));
      r.1 == Success([42])
  {
    var rs := ResultSet(["Value", ""], [[Int(42), Null]], None);
    var s := QueryState(Construct("SQL", None, None), ());
    assert AssignParameters(s.command, None) == Success(s.command);
    var r := Execute(s, None, Returns(rs), SequenceMode.Creator(ToInt));
    assert Returns(rs)(s.command.handle.params) == Success(rs);
    SequenceMode.Rows(ToInt, rs.columns, rs.rows);
    assert Coerce(ToInt, Int(42)) == Success(42);
    assert r.1.Success?;
    assert r.1.value == [42];
  }

  /** Rows returned in key order come out in that order, for text and integer columns. */
  lemma SequenceOrder()
    ensures ReadRows((), ["Key"], [[Str("Meaning of Life 1")], [Str("Meaning of Life 2")]], SequenceMode.Creator(ToText)).1
      == Success(["Meaning of Life 1", "Meaning of Life 2"])
    ensures ReadRows((), ["Value"], [[Int(42)], [Int(84)]], SequenceMode.Creator(ToInt)).1
      == Success([42, 84])
  {
    var keys: seq<seq<Value>> := [[Str("Meaning of Life 1")], [Str("Meaning of Life 2")]];
    SequenceMode.Rows(ToText, ["Key"], keys);
    assert Coerce(ToText, Str("Meaning of Life 1")) == Success("Meaning of Life 1");
    assert Coerce(ToText, Str("Meaning of Life 2")) == Success("Meaning of Life 2");
    var texts := ReadRows((), ["Key"], keys, SequenceMode.Creator(ToText)).1;
    assert texts.Success?;
    assert texts.value == ["Meaning of Life 1", "Meaning of Life 2"];
    var numbers: seq<seq<Value>> := [[Int(42)], [Int(84)]];
    SequenceMode.Rows(ToInt, ["Value"], numbers);
    assert Coerce(ToInt, Int(42)) == Success(42);
    assert Coerce(ToInt, Int(84)) == Success(84);
    var ints := ReadRows((), ["Value"], numbers, SequenceMode.Creator(ToInt)).1;
    assert ints.Success?;
    assert ints.value == [42, 84];
  }

  /** A preparation object with one readable property declares exactly one placeholder,
      named after the property and holding its value; a later `Execute()` without values
      runs the non-query against it. */
  lemma {:induction false} SingleParameter(sql: string, name: string, canWrite: bool, v: Value,
                                           nonQuery: seq<Placeholder> -> Result<int>)
    ensures var p := Construct(sql, None, Some(Obj([Property(name, true, canWrite, 0)], [v])));
            var r := ExecuteCommand.Execute(p, None, nonQuery);
      && r.0.handle.params == [Placeholder(name, v)]
      && r.1 == nonQuery([Placeholder(name, v)])
  {
    var shape := [Property(name, true, canWrite, 0)];
    var o := Obj(shape, [v]);
    var p := Construct(sql, None, Some(o));
    var m := p.mapping.value;
    assert ExactlyBindable(shape, 0, m.pairs) && BoundTo(p.handle.params, m, o);
    assert Bindable(shape[0]);
    assert CountBindable(shape, 0) == 1;
    assert |m.pairs| == 1 && m.pairs[0].property == 0;
    assert p.handle.params[0] == Placeholder(name, v);
    assert p.handle.params == [Placeholder(name, v)];
    ExecuteCommand.NoValuesKeepsBinding(p, nonQuery);
  }

  /** Executing any statement with the shape `{ magic = 42 }` declares one placeholder
      named `magic` holding 42, and the non-query runs against it. */
  lemma MagicParameter(sql: string, nonQuery: seq<Placeholder> -> Result<int>)
    ensures var p := Construct(sql, None, Some(Obj([Property("magic", true, false, 0)], [Int(42)])));
            var r := ExecuteCommand.Execute(p, None, nonQuery);
      && r.0.handle.params == [Placeholder("magic", Int(42))]
      && r.1 == nonQuery([Placeholder("magic", Int(42))])
  {
    SingleParameter(sql, "magic", false, Int(42), nonQuery);
  }

  /** A row count of one, fetched as a scalar and converted to `int`, is 1. */
  lemma CountIsOne()
    ensures var p := Construct("SELECT COUNT(*) FROM some_table", None, None);
      ScalarCommand.Execute(p, None, _ => Success(Int(1)), ToInt).1 == Success(1)
  {
  }
}
