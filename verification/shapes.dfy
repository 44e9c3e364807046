/** What reflection reports about a type and an object, as plain data. */
module Shapes {
  import opened Outcomes
  import opened Values

  /** A `PropertyInfo`: its name, whether it has a getter and a setter, and the number of
      index parameters (non-zero for an indexer). */
  datatype Property = Property(name: string, canRead: bool, canWrite: bool, indexArity: nat)

  /** A runtime type, described by its public properties in enumeration order. The model
      identifies a type with this list: it has no class names and no inheritance. */
  type Shape = seq<Property>

  /** An object: its runtime type and the value of each property, position by position. */
  datatype Obj = Obj(shape: Shape, values: seq<Value>)

  predicate WellFormed(o: Obj)
  {
    |o.values| == |o.shape|
  }

  /** A property that can be bound as a statement parameter: readable and not an indexer. */
  predicate Bindable(p: Property)
  {
    p.canRead && p.indexArity == 0
  }

  function Names(shape: Shape): (r: seq<string>)
    ensures |r| == |shape|
    ensures forall i :: 0 <= i < |shape| ==> r[i] == shape[i].name
  {
    seq(|shape|, i requires 0 <= i < |shape| => shape[i].name)
  }

  /** The position of the first occurrence of `name` in `names`, if it occurs. */
  function Lookup(names: seq<string>, name: string): (r: Option<nat>)
    ensures r.None? <==> name !in names
    ensures r.Some? ==> r.value < |names| && names[r.value] == name
    ensures r.Some? ==> forall j :: 0 <= j < r.value ==> names[j] != name
  {
    if names == [] then None
    else if names[0] == name then Some(0)
    else match Lookup(names[1..], name)
      case None => None
      case Some(j) => Some(j + 1)
  }
}
