# Sequel prepared commands, modelled in Dafny

Sequel is a small C# library of extension methods over `IDbConnection`. Its core is the
family of prepared commands, and this project models that core:

- A prepared command declares one statement placeholder per readable, non-indexed property of a
  *preparation object*. It binds that object's values and then calls `Prepare`.
- On each `Execute` the command rebinds the placeholders from a *values object* and runs the
  statement.
- A query command turns each result row into an item, in one of three ways:
  - *property mode*: a fresh default instance whose writable properties are set from the
    columns of the same name;
  - *constructor mode*: the first constructor, called with an argument array filled from the
    columns of the same name;
  - *sequence mode*: column 0, converted.
- The scalar command converts the single fetched value.
- The non-query command returns the driver's affected-row count.

Reflection and ADO.NET are plain data here:

- a type is a `Shape`, a sequence of `Property(name, canRead, canWrite, indexArity)`;
- an object is an `Obj(shape, values)`;
- a constructor is its parameter names;
- a result set is column names plus rows of `Value`s (`DBNull`, `Null`, integers, strings), and the exception, if any, the reader raises when asked to advance past its last delivered row;
- the `IDbCommand` is a `Handle` holding the SQL text, the transaction, the placeholder list and
  a log of the driver calls made on it.

.NET exceptions become `Failure(e)` of a `Result`. `null` becomes `None` where it means
"absent", and the value `Null` where it is a column or parameter value.

The driver's `ExecuteReader`, `ExecuteScalar` and `ExecuteNonQuery` are function parameters from
the rebound placeholder list to a result. `Convert.ChangeType` is a function parameter
`Value -> Result<T>`.

Each query variant's per-row `CreateItem` is a function that threads the variant's cache. The
cache is `_IndexedProperties` in property mode, `_Constructor` plus `_IndexedParameters` in
constructor mode, and nothing in sequence mode. The generic reader loop `QueryCommand.ReadRows`
threads that cache from row to row and from one `Execute` to the next, as the C# fields do.

Modules, one per file:

- `Outcomes`: `Option`, `Result`, `Error`.
- `Values`: values and DBNull normalisation.
- `Shapes`: types and objects.
- `Statement`: the command handle.
- `PreparedCommand`: the shared base class.
- `QueryCommand`: the reader loop.
- `ColumnBinding`: the column scan and row copy shared by the two object modes.
- `PropertyMode`, `ConstructorMode`, `SequenceMode`, `ScalarCommand`, `ExecuteCommand`: the
  command variants.
- `Scenarios`: the repository's test cases, stated over the model.

## Model

| member | source | states |
|---|---|---|
| Shapes.Lookup | Sequel/DbPreparedQueryNonAnonymousCommand.cs:50 | a name is found exactly when it occurs; the result is its first position |
| Values.Normalise | Sequel/DbPreparedQueryNonAnonymousCommand.cs:31-33 | DBNull becomes null and every other value is unchanged; the result is never DBNull |
| Values.Coerce | Sequel/DbPreparedQueryScalar.cs:18-20 | the conversion is applied to the value after DBNull is replaced by null, so it never sees DBNull |
| PreparedCommand.CreateParameterMapping | Sequel/DbPreparedCommand.cs:27-46 | no preparation object gives no mapping and an untouched handle. Otherwise the pairs name exactly the readable, non-indexed properties, in enumeration order, once each. Each pair points at a freshly appended placeholder named after its property, and one `AddParameter` is logged per pair, in order |
| PreparedCommand.Declare | Sequel/DbPreparedCommand.cs:33-44 | the loop from any property position appends exactly the bindable properties from there on, with placeholders and calls in order |
| PreparedCommand.BindableCount | Sequel/DbPreparedCommand.cs:33-44 | a pair list naming exactly the bindable properties has one pair per bindable property |
| PreparedCommand.Bind | Sequel/DbPreparedCommand.cs:69-70 | each paired placeholder ends up with its property's value. Unpaired placeholders, placeholder names, SQL and transaction are unchanged. One `SetValue` per pair is logged, in pair order |
| PreparedCommand.AssignParameters | Sequel/DbPreparedCommand.cs:61-71 | no values object is a no-op, even without a mapping. Values without a mapping fail with InvalidOperation carrying the source's message. Values whose property list differs from the preparation object's fail with a target mismatch when there is a property to read. Otherwise every paired placeholder holds the values object's property value, nothing else changes, and the result is a rebinding |
| PreparedCommand.Declared | Sequel/DbPreparedCommand.cs:17-22 | the fresh handle gets the SQL and transaction, the mapping covers exactly the bindable properties, placeholder k belongs to pair k, and only `AddParameter` calls have been made |
| PreparedCommand.DeclareBindPrepare | Sequel/DbPreparedCommand.cs:22-24 | declaring, then binding, then preparing logs every `AddParameter` before every `SetValue`, with `Prepare` last |
| PreparedCommand.Construct | Sequel/DbPreparedCommand.cs:17-25 | the constructor yields a consistent command whose call log is in preparation order. Without a preparation object there are no placeholders and only `Prepare` was called. With one, there is exactly one placeholder per bindable property, holding that property's name and the object's value |
| QueryCommand.ReadRows | Sequel/DbPreparedQueryCommand.cs:17-26 | an empty result set gives an empty list and leaves the cache as it was; a produced list has one item per row; item 0 is row 0's item |
| QueryCommand.ReadRowsSettled | Sequel/DbPreparedQueryCommand.cs:22-23 | once the cache is settled, the list exists exactly when every row materialises, and item i is `CreateItem` of row i, so row order is kept; a failed loop raises the error of the first row that does not materialise |
| QueryCommand.SettlesOnFirst | Sequel/DbPreparedQueryCommand.cs:22-23 | a cache that the first row settles makes the whole loop behave as if it had started settled |
| QueryCommand.ReadRowsIgnoresColumns | Sequel/DbPreparedQueryCommand.cs:22-23 | with a settled cache, the column names of the result set make no difference |
| QueryCommand.Execute | Sequel/DbPreparedQueryCommand.cs:15-27 | a failed rebind returns before the reader runs, with the state unchanged. Otherwise the reader runs against the rebound placeholders, a driver failure is passed on with the cache kept, and the result is the reader loop over the returned rows. A reader that fails to advance after rows that all materialised raises its failure, and the cache the rows built is kept |
| ColumnBinding.MatchColumns | Sequel/DbPreparedQueryNonAnonymousCommand.cs:47-58 | the scan lists (i, s) exactly when column i's name looks up to slot s, with column indices strictly increasing and in range |
| ColumnBinding.Fill | Sequel/DbPreparedQueryNonAnonymousCommand.cs:28-37 | the copy succeeds exactly when every pair's column and slot exist, and otherwise fails with the first pair's fault. Unwritten slots keep their initial value, and each slot's last writer leaves its column's normalised value |
| ColumnBinding.FillDistinct | Sequel/DbPreparedQueryAnonymousCommand.cs:31-38 | when no two columns name the same slot, each named slot holds its column's normalised value and every other slot keeps its initial value |
| PropertyMode.WritableProperty | Sequel/DbPreparedQueryNonAnonymousCommand.cs:50-55 | a property is found exactly when the first property of that name exists and is writable, and the result is that property's position, the one the name lookup gives |
| PropertyMode.CreateIndexedProperties | Sequel/DbPreparedQueryNonAnonymousCommand.cs:40-61 | (i, p) is listed exactly when column i names writable property p; column indices strictly increase and stay below the field count |
| PropertyMode.CreateItem | Sequel/DbPreparedQueryNonAnonymousCommand.cs:20-38 | the index list is built on the first call only and kept afterwards. An empty list fails with InvalidOperation. Otherwise the item has the target's type and is the default instance filled from the row |
| PropertyMode.FirstRead | Sequel/DbPreparedQueryNonAnonymousCommand.cs:20-37 | the first execution caches the column list. An empty list fails on the first row. A well-formed result set materialises every row, and item i is the default instance filled from row i |
| PropertyMode.LaterRead | Sequel/DbPreparedQueryNonAnonymousCommand.cs:22-23 | later executions reuse the cached list, never look at the new column names, and an empty cached list still fails |
| PropertyMode.DistinctColumns | Sequel/DbPreparedQueryNonAnonymousCommand.cs:28-37 | with distinct column names, each writable property a column names gets that column's value with DBNull as null, and every other property keeps its default |
| PropertyMode.FailsAfterRows | Sequel/DbPreparedQueryCommand.cs:19-24 | a first execution that reads rows keeps the column list built on row 0 cached however it ends; a reader failing after well-formed rows, at least one of whose columns matches a writable property, raises its failure with the list still cached, and no list is returned while the reader fails |
| PropertyMode.MatchedColumnsRead | Sequel/DbPreparedQueryNonAnonymousCommand.cs:20-61 | a well-formed result set with distinct names, one of which matches, materialises every row as the default instance with the matched properties set from that row |
| ConstructorMode.FindConstructor | Sequel/DbPreparedQueryAnonymousCommand.cs:42-46 | the first constructor is returned; a type without constructors fails with an index error |
| ConstructorMode.CreateIndexedParameters | Sequel/DbPreparedQueryAnonymousCommand.cs:48-68 | (i, s) is listed exactly when column i names parameter s; column indices strictly increase and every slot is below the parameter count |
| ConstructorMode.CreateItem | Sequel/DbPreparedQueryAnonymousCommand.cs:24-40 | the constructor and then the column list are each found once and cached, with no empty-list check. The argument array has one slot per parameter. The instance is built from the null array filled from the row |
| ConstructorMode.NoConstructor | Sequel/DbPreparedQueryAnonymousCommand.cs:26-27 | a type without constructors fails on the first row and caches nothing |
| ConstructorMode.FirstRead | Sequel/DbPreparedQueryAnonymousCommand.cs:24-40 | the first execution caches the first constructor and the column list, and item i is that constructor applied to the arguments filled from row i |
| ConstructorMode.NoMatchNoError | Sequel/DbPreparedQueryAnonymousCommand.cs:24-40 | unlike property mode, columns matching no parameter raise no error; every item gets all-null arguments |
| ConstructorMode.DistinctColumns | Sequel/DbPreparedQueryAnonymousCommand.cs:31-38 | with distinct column names, each parameter a column names receives that column's value with DBNull as null, and every other parameter receives null |
| ConstructorMode.MatchedColumnsRead | Sequel/DbPreparedQueryAnonymousCommand.cs:24-68 | a well-formed result set with distinct names materialises every row through the first constructor, with each named parameter taken from that row |
| SequenceMode.CreateItem | Sequel/DbPreparedQuerySequenceCommand.cs:14-20 | the item is the conversion of column 0 after DBNull normalisation; a row without columns fails with an index error |
| SequenceMode.OnlyFirstColumn | Sequel/DbPreparedQuerySequenceCommand.cs:16 | rows that agree in column 0 give the same item, whatever their other columns and the column names hold |
| SequenceMode.Rows | Sequel/DbPreparedQuerySequenceCommand.cs:14-20 | the list exists exactly when every row's column 0 converts, and item i is row i's converted column 0; otherwise the error is that of the first row lacking column 0 (IndexOutOfRange 0) or whose column 0 does not convert |
| ScalarCommand.Execute | Sequel/DbPreparedQueryScalar.cs:14-21 | the placeholders are rebound before the fetch, and a rejected rebind returns before the driver is called. A DBNull scalar is converted as null, and any other scalar is converted as is |
| ScalarCommand.UndeclaredValuesRejected | Sequel/DbPreparedQueryScalar.cs:16 | values given to a command prepared without a preparation object fail with InvalidOperation, and the scalar fetch is never issued |
| ExecuteCommand.Execute | Sequel/DbPreparedExecuteCommand.cs:13-17 | the placeholders are rebound before the non-query, a rejected rebind returns before the driver is called, and the result is exactly the driver's count |
| ExecuteCommand.NoValuesKeepsBinding | Sequel/DbPreparedExecuteCommand.cs:15 | without values the placeholders keep their values and the non-query runs against them |
| ExecuteCommand.Rebinds | Sequel/DbPreparedCommand.cs:69-70 | rebinding with an object of the preparation object's type leaves the placeholders holding that object's values |
| ExecuteCommand.RebindsInTurn | Sequel.SQLiteTests.cs/SQLiteExecuteTests.cs:22-26 | one command executed with two values objects runs each time against that object's values |
| Scenarios.TwoColumnRecord | Sequel.Tests/DbConnectionQueryTests.cs:36-48 | two columns naming a type's two properties, in order, turn a row of non-null values into one instance holding exactly those values |
| Scenarios.TestRecordQuery | Sequel.Tests/DbConnectionQueryTests.cs:36-48 | columns `Key`, `Value` and the row ("Magic", 42) yield `TestRecord { Key = "Magic", Value = 42 }` |
| Scenarios.TwoColumnInstance | Sequel.Tests/DbConnectionQueryAnonymousTests.cs:36-48 | two columns naming a constructor's two parameters, in order, turn a row of non-null values into one instance built from exactly those values |
| Scenarios.AnonymousQuery | Sequel.Tests/DbConnectionQueryAnonymousTests.cs:36-48 | the same reader yields the anonymous instance `{ Key = "Magic", Value = 42 }` |
| Scenarios.SequenceQuery | Sequel.Tests/DbConnectionQuerySequenceTests.cs:36-46 | a two-column reader whose row holds 42 in column 0 yields `[42]` |
| Scenarios.SequenceOrder | Sequel.SQLiteTests.cs/SQLiteExecuteTests.cs:28-53 | rows read in key order give their first-column values in that order, for text and for integers |
| Scenarios.SingleParameter | Sequel.Tests/DbConnectionExecuteTests.cs:49-58 | a preparation object with one readable property declares exactly one placeholder, named after it and holding its value, and the non-query runs against it |
| Scenarios.MagicParameter | Sequel.Tests/DbConnectionExecuteTests.cs:49-58 | executing with `{ magic = 42 }` declares one placeholder `magic` holding 42 |
| Scenarios.CountIsOne | Sequel.SQLiteTests.cs/SQLiteExecuteTests.cs:13-15 | a count of 1 fetched as a scalar and converted to `int` is 1 |

## Left out

- `Sequel/DbConnectionExtensions.cs` and `Sequel/DbTransactionExtensions.cs` are not part of this model. They are one-shot glue: a null check, then a prepared command used once.
- `OpenNow` is not modelled, because it only performs I/O.
- `Dispose` is not modelled, because it only releases the driver command.
- The driver's `ExecuteReader`, `ExecuteScalar`, `ExecuteNonQuery` and `Prepare` are not executed; the first three are function parameters and `Prepare` appears only as a logged call. Running SQL is outside the model.
- `Convert.ChangeType` is a function parameter, so numeric and string conversion rules are not modelled.
- `Sequel/DbPreparedQueryNullableScalar.cs`, `Sequel/DbPreparedQueryStringScalar.cs` and `Sequel/IDbPreparedCommand.cs` are not part of this model. They add no behaviour of their own.
- `PropertyInfo.SetValue` type checks and `Activator`/constructor-body exceptions are not modelled. The model writes any value into a property or argument slot and treats construction as always succeeding.
- Several reflection and .NET behaviours are left out:
  - `GetProperty` on a type with two public properties of the same name throws `AmbiguousMatchException`; the model takes the first property of that name.
  - `ToDictionary` throws on duplicate constructor parameter names, which C# does not allow; the model takes the first parameter of that name.
- PropertyMode.WritableProperty: a writable indexer named by a column is written like a plain property; the source's `SetValue` throws a parameter-count exception there (Sequel/DbPreparedQueryNonAnonymousCommand.cs:35).
- Rebinding with a values object of another type is not described as a "missing member" error. The code calls `PropertyInfo.GetValue` of the preparation type's property on that object, which .NET rejects with a target-type exception when the object is not an instance of the declaring type, even when a property of the same name exists. The model identifies a runtime type with its property list: `AssignParameters` fails with `TargetMismatch` when there is a pair and the values object's property list differs from the preparation object's.
- PreparedCommand.AssignParameters: inheritance is not modelled. An instance of a subclass that adds properties binds in .NET but is rejected by the model; an instance of an unrelated class with the same property list is rejected by .NET but accepted by the model.
- Each `Execute` returning a fresh list holds automatically, because values in the model are immutable.
- Thread safety is not modelled.
