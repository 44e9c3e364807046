/** The shared base of every prepared command: it declares one placeholder per bindable
    property of the preparation object, and rebinds the placeholders from a values object
    on each execution. */
module PreparedCommand {
  import opened Outcomes
  import opened Values
  import opened Shapes
  import opened Statement

  /** One (property, placeholder) pair: the property's position in the preparation object's
      type, and the placeholder's position in the handle's parameter list. */
  datatype Binding = Binding(property: nat, slot: nat)

  /** The parameter mapping: the type whose properties were enumerated, and the pairs. */
  datatype Mapping = Mapping(owner: Shape, pairs: seq<Binding>)

  /** A prepared command: its statement handle and its mapping (absent when the command was
      prepared without a preparation object). */
  datatype Prepared = Prepared(handle: Handle, mapping: Option<Mapping>)

  const NotDeclaredMessage := "Parameters have to specified when the command is prepared"

  /** The pairs name, in increasing order, exactly the bindable properties of `shape` at or
      after position `from`. */
  predicate ExactlyBindable(shape: Shape, from: nat, pairs: seq<Binding>)
  {
    && (forall k :: 0 <= k < |pairs| ==>
          from <= pairs[k].property < |shape| && Bindable(shape[pairs[k].property]))
    && (forall k, l :: 0 <= k < l < |pairs| ==> pairs[k].property < pairs[l].property)
    && (forall i :: from <= i < |shape| && Bindable(shape[i]) ==>
          exists k :: 0 <= k < |pairs| && pairs[k].property == i)
  }

  /** The number of bindable properties of `shape` at or after position `from`. */
  function CountBindable(shape: Shape, from: nat): nat
    decreases |shape| - from
  {
    if from >= |shape| then 0
    else (if Bindable(shape[from]) then 1 else 0) + CountBindable(shape, from + 1)
  }

  /** A run of properties none of which is bindable adds nothing to the count. */
  lemma {:induction false} SkipUnbindable(shape: Shape, from: nat, to: nat)
    requires from <= to <= |shape|
    requires forall i :: from <= i < to ==> !Bindable(shape[i])
    ensures CountBindable(shape, from) == CountBindable(shape, to)
    decreases (to as int) - from
  {
    if from < to {
      SkipUnbindable(shape, from + 1, to);
    }
  }

  /** A list of pairs that names exactly the bindable properties has one pair per
      bindable property: N readable, non-indexed properties give N placeholders. */
  lemma {:induction false} BindableCount(shape: Shape, from: nat, pairs: seq<Binding>)
    requires from <= |shape|
    requires ExactlyBindable(shape, from, pairs)
    ensures |pairs| == CountBindable(shape, from)
    decreases |pairs|
  {
    if pairs == [] {
      SkipUnbindable(shape, from, |shape|);
    } else {
      var q := pairs[0].property;
      forall i | from <= i < q ensures !Bindable(shape[i]) { }
      SkipUnbindable(shape, from, q);
      var rest := pairs[1..];
      assert forall k :: 0 <= k < |rest| ==> rest[k] == pairs[k + 1];
      forall i | q + 1 <= i < |shape| && Bindable(shape[i])
        ensures exists k :: 0 <= k < |rest| && rest[k].property == i
      {
        var k :| 0 <= k < |pairs| && pairs[k].property == i;
        assert rest[k - 1].property == i;
      }
      BindableCount(shape, q + 1, rest);
    }
  }

  /** `after` is `before` with one fresh placeholder per pair appended, in pair order, each
      named after its property and holding null; the pairs point at those placeholders and
      the call log records one `AddParameter` per pair. */
  predicate AppendsPlaceholders(before: Handle, after: Handle, shape: Shape, pairs: seq<Binding>)
  {
    && after.sql == before.sql && after.transaction == before.transaction
    && |after.params| == |before.params| + |pairs|
    && after.params[..|before.params|] == before.params
    && |after.calls| == |before.calls| + |pairs|
    && after.calls[..|before.calls|] == before.calls
    && (forall k :: 0 <= k < |pairs| ==>
          && pairs[k].slot == |before.params| + k
          && pairs[k].property < |shape|
          && after.params[|before.params| + k] == Placeholder(shape[pairs[k].property].name, Null)
          && after.calls[|before.calls| + k] == AddCall(shape[pairs[k].property].name))
  }

  /** Prepending the bindable property at `from` to the pairs for the positions after it
      gives the pairs for the positions from `from` on. */
  lemma BindableStep(shape: Shape, from: nat, rest: seq<Binding>)
    requires from < |shape| && Bindable(shape[from])
    requires ExactlyBindable(shape, from + 1, rest)
    ensures ExactlyBindable(shape, from, [Binding(from, 0)] + rest)
  {
    var pairs := [Binding(from, 0)] + rest;
    assert pairs[0] == Binding(from, 0);
    assert forall k :: 0 < k < |pairs| ==> pairs[k] == rest[k - 1];
    forall k | 0 <= k < |pairs| ensures from <= pairs[k].property < |shape| && Bindable(shape[pairs[k].property]) {
      if k > 0 {
        assert pairs[k] == rest[k - 1];
      }
    }
    forall k, l | 0 <= k < l < |pairs| ensures pairs[k].property < pairs[l].property {
      assert pairs[l] == rest[l - 1];
      if k > 0 {
        assert pairs[k] == rest[k - 1];
      }
    }
    forall i | from <= i < |shape| && Bindable(shape[i])
      ensures exists k :: 0 <= k < |pairs| && pairs[k].property == i
    {
      if i == from {
        assert pairs[0].property == i;
      } else {
        var k' :| 0 <= k' < |rest| && rest[k'].property == i;
        assert pairs[k' + 1].property == i;
      }
    }
  }

  /** ExactlyBindable looks only at the property positions, not at the slots. */
  lemma BindableSlotFree(shape: Shape, from: nat, a: seq<Binding>, b: seq<Binding>)
    requires |a| == |b|
    requires forall k :: 0 <= k < |a| ==> a[k].property == b[k].property
    requires ExactlyBindable(shape, from, a)
    ensures ExactlyBindable(shape, from, b)
  {
    forall i | from <= i < |shape| && Bindable(shape[i])
      ensures exists k :: 0 <= k < |b| && b[k].property == i
    {
      var k :| 0 <= k < |a| && a[k].property == i;
      assert b[k].property == i;
    }
  }

  /** Adding the placeholder for the property at `from` and then those of `rest` appends the
      placeholders of the combined pairs. */
  lemma AppendStep(h: Handle, after: Handle, shape: Shape, from: nat, rest: seq<Binding>)
    requires from < |shape|
    requires AppendsPlaceholders(AddParameter(h, shape[from].name), after, shape, rest)
    ensures AppendsPlaceholders(h, after, shape, [Binding(from, |h.params|)] + rest)
  {
    var h1 := AddParameter(h, shape[from].name);
    assert after.params[..|h.params|] == h.params by {
      assert after.params[..|h1.params|][..|h.params|] == h1.params[..|h.params|];
    }
    assert after.calls[..|h.calls|] == h.calls by {
      assert after.calls[..|h1.calls|][..|h.calls|] == h1.calls[..|h.calls|];
    }
    assert after.params[|h.params|] == h1.params[|h.params|] by {
      assert after.params[..|h1.params|][|h.params|] == h1.params[|h.params|];
    }
    assert after.calls[|h.calls|] == h1.calls[|h.calls|] by {
      assert after.calls[..|h1.calls|][|h.calls|] == h1.calls[|h.calls|];
    }
  }

  /** The inductive step of `Declare` at a bindable property. */
  lemma DeclareStep(h: Handle, shape: Shape, from: nat, after: Handle, rest: seq<Binding>)
    requires from < |shape| && Bindable(shape[from])
    requires ExactlyBindable(shape, from + 1, rest)
    requires AppendsPlaceholders(AddParameter(h, shape[from].name), after, shape, rest)
    ensures ExactlyBindable(shape, from, [Binding(from, |h.params|)] + rest)
    ensures AppendsPlaceholders(h, after, shape, [Binding(from, |h.params|)] + rest)
  {
    var a := [Binding(from, 0)] + rest;
    var b := [Binding(from, |h.params|)] + rest;
    assert ExactlyBindable(shape, from, b) by {
      BindableStep(shape, from, rest);
      forall k | 0 <= k < |a| ensures a[k].property == b[k].property {
        if k > 0 {
          assert a[k] == rest[k - 1] == b[k];
        }
      }
      BindableSlotFree(shape, from, a, b);
    }
    AppendStep(h, after, shape, from, rest);
  }

  /** The loop of `CreateParameterMapping` from property position `from` onwards. */
  function Declare(h: Handle, shape: Shape, from: nat): (r: (Handle, seq<Binding>))
    requires from <= |shape|
    ensures ExactlyBindable(shape, from, r.1)
    ensures AppendsPlaceholders(h, r.0, shape, r.1)
    decreases |shape| - from
  {
    if from == |shape| then (h, [])
    else if !Bindable(shape[from]) then Declare(h, shape, from + 1)
    else
      var h1 := AddParameter(h, shape[from].name);
      var rest := Declare(h1, shape, from + 1);
      DeclareStep(h, shape, from, rest.0, rest.1);
      (rest.0, [Binding(from, |h.params|)] + rest.1)
  }

  /** `CreateParameterMapping`: no preparation object gives no mapping and leaves the handle
      alone; otherwise every bindable property gets one placeholder of its own name. */
  function CreateParameterMapping(h: Handle, parameters: Option<Obj>): (r: (Handle, Option<Mapping>))
    ensures parameters.None? ==> r.0 == h && r.1.None?
    ensures parameters.Some? ==>
      && r.1.Some?
      && r.1.value.owner == parameters.value.shape
      && ExactlyBindable(parameters.value.shape, 0, r.1.value.pairs)
      && AppendsPlaceholders(h, r.0, parameters.value.shape, r.1.value.pairs)
  {
    match parameters
    case None => (h, None)
    case Some(o) =>
      var declared := Declare(h, o.shape, 0);
      (declared.0, Some(Mapping(o.shape, declared.1)))
  }

  /** The mapping is consistent with the handle: every pair names a property of the owner
      and a placeholder of that property's name, and the placeholders are distinct. */
  predicate Valid(p: Prepared)
  {
    match p.mapping
    case None => true
    case Some(m) =>
      && (forall k :: 0 <= k < |m.pairs| ==>
            && m.pairs[k].property < |m.owner|
            && m.pairs[k].slot < |p.handle.params|
            && p.handle.params[m.pairs[k].slot].name == m.owner[m.pairs[k].property].name)
      && (forall k, l :: 0 <= k < l < |m.pairs| ==> m.pairs[k].slot < m.pairs[l].slot)
  }

  /** No pair writes the placeholder at `slot`. */
  predicate Unbound(pairs: seq<Binding>, slot: nat)
  {
    forall k :: 0 <= k < |pairs| ==> pairs[k].slot != slot
  }

  /** The pairs fit the handle and the values, and their slots strictly increase. */
  predicate BindablePairs(h: Handle, pairs: seq<Binding>, values: seq<Value>)
  {
    && (forall k :: 0 <= k < |pairs| ==> pairs[k].slot < |h.params| && pairs[k].property < |values|)
    && (forall k, l :: 0 <= k < l < |pairs| ==> pairs[k].slot < pairs[l].slot)
  }

  /** `after` is `before` with each paired placeholder set to its property's value: the
      placeholder list keeps its length and names, unpaired placeholders are untouched, and
      the call log gains one `SetValue` per pair, in pair order. */
  predicate Rebound(before: Handle, after: Handle, pairs: seq<Binding>, values: seq<Value>)
    requires BindablePairs(before, pairs, values)
  {
    && after.sql == before.sql && after.transaction == before.transaction
    && |after.params| == |before.params|
    && (forall s :: 0 <= s < |before.params| ==> after.params[s].name == before.params[s].name)
    && (forall k :: 0 <= k < |pairs| ==> after.params[pairs[k].slot].value == values[pairs[k].property])
    && (forall s :: 0 <= s < |before.params| && Unbound(pairs, s) ==> after.params[s] == before.params[s])
    && |after.calls| == |before.calls| + |pairs| && after.calls[..|before.calls|] == before.calls
    && (forall k :: 0 <= k < |pairs| ==>
          after.calls[|before.calls| + k] == SetCall(pairs[k].slot, values[pairs[k].property]))
  }

  /** The inductive step of `Bind`: setting the first pair's placeholder and then rebinding
      the remaining pairs rebinds all of them. */
  lemma BindStep(h: Handle, pairs: seq<Binding>, values: seq<Value>, after: Handle)
    requires pairs != [] && BindablePairs(h, pairs, values)
    requires BindablePairs(SetValue(h, pairs[0].slot, values[pairs[0].property]), pairs[1..], values)
    requires Rebound(SetValue(h, pairs[0].slot, values[pairs[0].property]), after, pairs[1..], values)
    ensures Rebound(h, after, pairs, values)
  {
    var h1 := SetValue(h, pairs[0].slot, values[pairs[0].property]);
    var rest := pairs[1..];
    assert forall k :: 0 <= k < |rest| ==> rest[k] == pairs[k + 1];
    forall s | 0 <= s < |h.params| && Unbound(pairs, s) ensures after.params[s] == h.params[s] {
      assert Unbound(rest, s);
    }
    assert Unbound(rest, pairs[0].slot);
    assert after.calls[..|h.calls|] == h.calls by {
      assert after.calls[..|h1.calls|][..|h.calls|] == h1.calls[..|h.calls|];
    }
    assert after.calls[|h.calls|] == h1.calls[|h.calls|] by {
      assert after.calls[..|h1.calls|][|h.calls|] == h1.calls[|h.calls|];
    }
    forall k | 0 <= k < |pairs| ensures after.calls[|h.calls| + k] == SetCall(pairs[k].slot, values[pairs[k].property]) {
      if k > 0 {
        assert after.calls[|h1.calls| + (k - 1)] == SetCall(rest[k - 1].slot, values[rest[k - 1].property]);
      }
    }
  }

  /** The loop of `AssignParameters`: each paired placeholder receives the property's value,
      in pair order. */
  function Bind(h: Handle, pairs: seq<Binding>, values: seq<Value>): (r: Handle)
    requires BindablePairs(h, pairs, values)
    ensures Rebound(h, r, pairs, values)
    decreases |pairs|
  {
    if pairs == [] then h
    else
      var h1 := SetValue(h, pairs[0].slot, values[pairs[0].property]);
      var r := Bind(h1, pairs[1..], values);
      BindStep(h, pairs, values, r);
      r
  }

  /** `AssignParameters`. No values object is a no-op, even without a mapping. A values
      object for a command prepared without one throws InvalidOperationException, and one
      whose type (its property list) differs makes the first property read throw; either
      way nothing is rebound. Otherwise every paired placeholder takes the values object's
      property value, and nothing else about the handle changes but the call log. */
  function AssignParameters(p: Prepared, values: Option<Obj>): (r: Result<Prepared>)
    requires Valid(p)
    requires values.Some? ==> WellFormed(values.value)
    ensures values.None? ==> r == Success(p)
    ensures values.Some? && p.mapping.None? ==> r == Failure(InvalidOperation(NotDeclaredMessage))
    ensures (values.Some? && p.mapping.Some? && p.mapping.value.pairs != []
             && values.value.shape != p.mapping.value.owner) ==> r == Failure(TargetMismatch)
    ensures (values.Some? && p.mapping.Some?
             && (p.mapping.value.pairs == [] || values.value.shape == p.mapping.value.owner)) ==> r.Success?
    ensures r.Success? ==> Valid(r.value) && r.value.mapping == p.mapping
    ensures r.Success? ==> r.value.handle.sql == p.handle.sql
    ensures r.Success? && values.None? ==> r.value == p
    ensures r.Success? && values.Some? ==>
      && BindablePairs(p.handle, p.mapping.value.pairs, values.value.values)
      && Rebound(p.handle, r.value.handle, p.mapping.value.pairs, values.value.values)
  {
    match values
    case None => Success(p)
    case Some(v) =>
      match p.mapping
      case None => Failure(InvalidOperation(NotDeclaredMessage))
      case Some(m) =>
        if m.pairs != [] && v.shape != m.owner then Failure(TargetMismatch)
        else
          Success(Prepared(Bind(p.handle, m.pairs, v.values), p.mapping))
  }

  /** The order of driver calls during preparation: every `AddParameter` comes before every
      `SetValue`, only those two occur before the final `Prepare`, and `Prepare` is last. */
  predicate PreparationOrder(calls: seq<Call>)
  {
    && |calls| > 0
    && calls[|calls| - 1] == PrepareCall
    && (forall i :: 0 <= i < |calls| - 1 ==> calls[i].AddCall? || calls[i].SetCall?)
    && (forall i, j :: 0 <= i < j < |calls| && calls[i].SetCall? ==> !calls[j].AddCall?)
  }

  /** The placeholders hold, in mapping order, the preparation object's property values
      under the property names. */
  predicate BoundTo(params: seq<Placeholder>, m: Mapping, o: Obj)
  {
    && |params| == |m.pairs|
    && forall k :: 0 <= k < |m.pairs| ==>
         && m.pairs[k].property < |m.owner| && m.pairs[k].property < |o.values|
         && params[k] == Placeholder(m.owner[m.pairs[k].property].name, o.values[m.pairs[k].property])
  }

  /** A call log made of `AddParameter` calls, then `SetValue` calls, then `Prepare` is in
      preparation order. */
  lemma PhasedOrder(calls: seq<Call>, n: nat)
    requires n < |calls| && calls[|calls| - 1] == PrepareCall
    requires forall i :: 0 <= i < n ==> calls[i].AddCall?
    requires forall i :: n <= i < |calls| - 1 ==> calls[i].SetCall?
    ensures PreparationOrder(calls)
  {
  }

  /** Appending placeholders to a handle that has seen no calls leaves a log of
      `AddParameter` calls only. */
  lemma OnlyAdds(before: Handle, after: Handle, shape: Shape, pairs: seq<Binding>)
    requires before.calls == [] && AppendsPlaceholders(before, after, shape, pairs)
    ensures forall i :: 0 <= i < |after.calls| ==> after.calls[i].AddCall?
  {
    forall i | 0 <= i < |after.calls| ensures after.calls[i].AddCall? {
      assert after.calls[|before.calls| + i] == AddCall(shape[pairs[i].property].name);
    }
  }

  /** The first phase of the constructor: a fresh handle and the mapping built from the
      preparation object; so far only `AddParameter` calls were made. */
  function Declared(sql: string, transaction: Option<TransactionId>, parameters: Option<Obj>): (p: Prepared)
    ensures Valid(p)
    ensures p.handle.sql == sql && p.handle.transaction == transaction
    ensures forall i :: 0 <= i < |p.handle.calls| ==> p.handle.calls[i].AddCall?
    ensures parameters.None? ==> p.mapping.None? && p.handle.params == [] && p.handle.calls == []
    ensures parameters.Some? ==>
      && p.mapping.Some?
      && p.mapping.value.owner == parameters.value.shape
      && ExactlyBindable(parameters.value.shape, 0, p.mapping.value.pairs)
      && |p.handle.params| == |p.mapping.value.pairs|
      && forall k :: 0 <= k < |p.mapping.value.pairs| ==> p.mapping.value.pairs[k].slot == k
  {
    var h0 := Create(sql, transaction);
    var created := CreateParameterMapping(h0, parameters);
    assert forall i :: 0 <= i < |created.0.calls| ==> created.0.calls[i].AddCall? by {
      if parameters.Some? {
        OnlyAdds(h0, created.0, parameters.value.shape, created.1.value.pairs);
      }
    }
    Prepared(created.0, created.1)
  }

  /** Rebinding a freshly declared command and then preparing it issues the calls in
      preparation order. */
  lemma DeclareBindPrepare(declared: Prepared, parameters: Option<Obj>, rebound: Prepared)
    requires Valid(declared)
    requires parameters.Some? ==> WellFormed(parameters.value)
    requires forall i :: 0 <= i < |declared.handle.calls| ==> declared.handle.calls[i].AddCall?
    requires AssignParameters(declared, parameters) == Success(rebound)
    ensures PreparationOrder(Invoke(rebound.handle, PrepareCall).calls)
  {
    var calls := Invoke(rebound.handle, PrepareCall).calls;
    var n := |declared.handle.calls|;
    forall i | 0 <= i < n ensures calls[i].AddCall? {
      assert calls[i] == rebound.handle.calls[..n][i];
    }
    forall i | n <= i < |calls| - 1 ensures calls[i].SetCall? {
      assert calls[i] == rebound.handle.calls[i];
      if parameters.Some? {
        var pairs := declared.mapping.value.pairs;
        var k := i - n;
        assert rebound.handle.calls[n + k] == SetCall(pairs[k].slot, parameters.value.values[pairs[k].property]);
      }
    }
    PhasedOrder(calls, n);
  }

  /** The constructor of `DbPreparedCommand`: create the handle, build the mapping from the
      preparation object, assign that object's own values, then `Prepare`. */
  function Construct(sql: string, transaction: Option<TransactionId>, parameters: Option<Obj>): (p: Prepared)
    requires parameters.Some? ==> WellFormed(parameters.value)
    ensures Valid(p)
    ensures p.handle.sql == sql && p.handle.transaction == transaction
    ensures PreparationOrder(p.handle.calls)
    ensures parameters.None? ==> p.mapping.None? && p.handle.params == [] && p.handle.calls == [PrepareCall]
    ensures parameters.Some? ==>
      && p.mapping.Some?
      && p.mapping.value.owner == parameters.value.shape
      && ExactlyBindable(parameters.value.shape, 0, p.mapping.value.pairs)
      && BoundTo(p.handle.params, p.mapping.value, parameters.value)
      && |p.handle.params| == CountBindable(parameters.value.shape, 0)
  {
    var declared := Declared(sql, transaction, parameters);
    var rebound := AssignParameters(declared, parameters);
    DeclareBindPrepare(declared, parameters, rebound.value);
    assert parameters.Some? ==> |declared.mapping.value.pairs| == CountBindable(parameters.value.shape, 0) by {
      if parameters.Some? {
        BindableCount(parameters.value.shape, 0, declared.mapping.value.pairs);
      }
    }
    Prepared(Invoke(rebound.value.handle, PrepareCall), rebound.value.mapping)
  }
}
