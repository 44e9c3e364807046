/** What the two row materialisers share: the scan that pairs result columns with target
    slots by name, and the per-row copy of column values into those slots. */
module ColumnBinding {
  import opened Outcomes
  import opened Values
  import opened Statement

  /** A (column index, target slot) pair: a property position in property mode, a
      constructor-argument position in constructor mode. */
  datatype ColumnBinding = ColumnBinding(column: nat, slot: nat)

  /** Column `i` names a target slot `s` under `lookup`. */
  predicate Matches(lookup: string -> Option<nat>, columns: seq<string>, i: nat, s: nat)
  {
    i < |columns| && lookup(columns[i]) == Some(s)
  }

  /** The column indices of `bindings` strictly increase. */
  predicate ColumnsIncrease(bindings: seq<ColumnBinding>)
  {
    forall k, l :: 0 <= k < l < |bindings| ==> bindings[k].column < bindings[l].column
  }

  /** The scan over the reader's columns from `from` to the last: look each column's name
      up, skip it when nothing matches, and record the pair otherwise. */
  function MatchColumns(lookup: string -> Option<nat>, columns: seq<string>, from: nat): (r: seq<ColumnBinding>)
    requires from <= |columns|
    ensures ColumnsIncrease(r)
    ensures forall k :: 0 <= k < |r| ==> from <= r[k].column && Matches(lookup, columns, r[k].column, r[k].slot)
    ensures forall i, s :: from <= i && Matches(lookup, columns, i, s) ==> ColumnBinding(i, s) in r
    decreases |columns| - from
  {
    if from == |columns| then []
    else
      var rest := MatchColumns(lookup, columns, from + 1);
      match lookup(columns[from])
      case None => rest
      case Some(s) => [ColumnBinding(from, s)] + rest
  }

  /** Binding `k` is the last one that writes its slot. */
  predicate LastWriter(bindings: seq<ColumnBinding>, k: nat)
    requires k < |bindings|
  {
    forall l :: k < l < |bindings| ==> bindings[l].slot != bindings[k].slot
  }

  /** No binding writes `slot`. */
  predicate Unwritten(bindings: seq<ColumnBinding>, slot: nat)
  {
    forall k :: 0 <= k < |bindings| ==> bindings[k].slot != slot
  }

  /** Binding `b` can be carried out on a row of `width` cells into `size` slots. */
  predicate Fits(b: ColumnBinding, width: nat, size: nat)
  {
    b.column < width && b.slot < size
  }

  /** The exception a binding that does not fit raises: the column read comes first. */
  function Fault(b: ColumnBinding, width: nat): Error
  {
    IndexOutOfRange(if b.column >= width then b.column else b.slot)
  }

  /** Every binding can be carried out. */
  predicate AllFit(bindings: seq<ColumnBinding>, width: nat, size: nat)
  {
    forall k :: 0 <= k < |bindings| ==> Fits(bindings[k], width, size)
  }

  /** `e` is the exception of the first binding that does not fit. */
  predicate FirstFault(bindings: seq<ColumnBinding>, width: nat, size: nat, e: Error)
  {
    exists k :: && 0 <= k < |bindings|
                && !Fits(bindings[k], width, size)
                && AllFit(bindings[..k], width, size)
                && e == Fault(bindings[k], width)
  }

  /** `out` is `init` with the row's values copied in: slots no binding writes keep their
      initial value, and every other slot holds the (normalised) value of the column of the
      last binding that writes it. */
  predicate Filled(init: seq<Value>, bindings: seq<ColumnBinding>, row: seq<Value>, out: seq<Value>)
    requires AllFit(bindings, |row|, |init|) && |out| == |init|
  {
    && (forall s :: 0 <= s < |init| && Unwritten(bindings, s) ==> out[s] == init[s])
    && (forall k :: 0 <= k < |bindings| && LastWriter(bindings, k) ==>
          out[bindings[k].slot] == Normalise(row[bindings[k].column]))
  }

  /** The loop over the cached pairs: for each in order, the row's value at `column` is
      read, the NULL marker made null, and the result written into `slot`. A column the row lacks, or a slot outside the target,
      throws IndexOutOfRange at the first pair that hits it. */
  function Fill(init: seq<Value>, bindings: seq<ColumnBinding>, row: seq<Value>): (r: Result<seq<Value>>)
    ensures r.Success? <==> AllFit(bindings, |row|, |init|)
    ensures r.Failure? ==> FirstFault(bindings, |row|, |init|, r.error)
    ensures r.Success? ==> |r.value| == |init| && Filled(init, bindings, row, r.value)
    decreases |bindings|
  {
    if bindings == [] then Success(init)
    else
      var n := |bindings| - 1;
      var b := bindings[n];
      var prefix := Fill(init, bindings[..n], row);
      if prefix.Failure? then
        FaultExtends(bindings, n, |row|, |init|, prefix.error);
        prefix
      else if !Fits(b, |row|, |init|) then
        assert AllFit(bindings[..n], |row|, |init|);
        Failure(Fault(b, |row|))
      else
        var r := prefix.value[b.slot := Normalise(row[b.column])];
        FillStep(init, bindings, row, prefix.value, r);
        Success(r)
  }

  /** The first fault of a prefix is the first fault of the whole. */
  lemma FaultExtends(bindings: seq<ColumnBinding>, n: nat, width: nat, size: nat, e: Error)
    requires n <= |bindings|
    requires FirstFault(bindings[..n], width, size, e)
    ensures FirstFault(bindings, width, size, e)
    ensures !AllFit(bindings, width, size)
  {
    var k :| && 0 <= k < n
             && !Fits(bindings[..n][k], width, size)
             && AllFit(bindings[..n][..k], width, size)
             && e == Fault(bindings[..n][k], width);
    assert bindings[..n][..k] == bindings[..k];
    assert bindings[..n][k] == bindings[k];
  }

  /** The inductive step of `Fill`: writing the last binding's value on top of the prefix's
      result keeps the unwritten slots and makes each last writer's value stick. */
  lemma FillStep(init: seq<Value>, bindings: seq<ColumnBinding>, row: seq<Value>, before: seq<Value>, after: seq<Value>)
    requires |bindings| > 0 && |before| == |init|
    requires AllFit(bindings[..|bindings| - 1], |row|, |init|)
    requires Fits(bindings[|bindings| - 1], |row|, |init|)
    requires Filled(init, bindings[..|bindings| - 1], row, before)
    requires after == before[bindings[|bindings| - 1].slot := Normalise(row[bindings[|bindings| - 1].column])]
    ensures AllFit(bindings, |row|, |init|)
    ensures Filled(init, bindings, row, after)
  {
    var n := |bindings| - 1;
    var last := bindings[n];
    var prefix := bindings[..n];
    assert AllFit(bindings, |row|, |init|) by {
      forall k | 0 <= k < |bindings| ensures Fits(bindings[k], |row|, |init|) {
        if k < n { assert prefix[k] == bindings[k]; }
      }
    }
    forall s | 0 <= s < |init| && Unwritten(bindings, s)
      ensures after[s] == init[s]
    {
      assert last.slot != s;
      assert Unwritten(prefix, s) by {
        forall k | 0 <= k < n ensures prefix[k].slot != s {
          assert prefix[k] == bindings[k];
        }
      }
      assert before[s] == init[s];
    }
    forall k | 0 <= k < |bindings| && LastWriter(bindings, k)
      ensures after[bindings[k].slot] == Normalise(row[bindings[k].column])
    {
      if k < n {
        var b := bindings[k];
        assert prefix[k] == b;
        assert b.slot != last.slot;
        assert LastWriter(prefix, k) by {
          forall l | k < l < n ensures prefix[l].slot != b.slot {
            assert prefix[l] == bindings[l];
          }
        }
        assert before[b.slot] == Normalise(row[b.column]);
        assert after[b.slot] == before[b.slot];
      }
    }
  }

  /** No column name occurs twice. */
  predicate DistinctNames(columns: seq<string>)
  {
    forall i, j :: 0 <= i < j < |columns| ==> columns[i] != columns[j]
  }

  /** The bindings are exactly the name matches of `columns` under `lookup`, in column
      order, and no two columns name the same slot. */
  ghost predicate DistinctMatches(bindings: seq<ColumnBinding>, lookup: string -> Option<nat>, columns: seq<string>, size: nat)
  {
    && ColumnsIncrease(bindings)
    && (forall k :: 0 <= k < |bindings| ==> Matches(lookup, columns, bindings[k].column, bindings[k].slot))
    && (forall i, s :: 0 <= i && Matches(lookup, columns, i, s) ==> ColumnBinding(i, s) in bindings)
    && (forall i :: 0 <= i < |columns| && lookup(columns[i]).Some? ==> lookup(columns[i]).value < size)
    && (forall i, j :: (0 <= i < |columns| && 0 <= j < |columns| && lookup(columns[i]).Some?
                        && lookup(columns[i]) == lookup(columns[j])) ==> i == j)
  }

  /** Under distinct matches, the binding of a matched column is the last to write its slot. */
  lemma MatchedIsLast(bindings: seq<ColumnBinding>, lookup: string -> Option<nat>, columns: seq<string>, size: nat, k: nat)
    requires DistinctMatches(bindings, lookup, columns, size) && k < |bindings|
    ensures LastWriter(bindings, k)
  {
    var i := bindings[k].column;
    forall l | k < l < |bindings| ensures bindings[l].slot != bindings[k].slot {
      var j := bindings[l].column;
      assert Matches(lookup, columns, i, bindings[k].slot);
      assert Matches(lookup, columns, j, bindings[l].slot);
      assert i < j;
    }
  }

  /** Under distinct matches, a slot no column names is never written. */
  lemma UnnamedIsUnwritten(bindings: seq<ColumnBinding>, lookup: string -> Option<nat>, columns: seq<string>, size: nat, s: nat)
    requires DistinctMatches(bindings, lookup, columns, size)
    requires forall i :: 0 <= i < |columns| ==> lookup(columns[i]) != Some(s)
    ensures Unwritten(bindings, s)
  {
    forall k | 0 <= k < |bindings| ensures bindings[k].slot != s {
      assert Matches(lookup, columns, bindings[k].column, bindings[k].slot);
    }
  }

  /** When no two columns name the same slot, reading a full row writes each named slot
      with the value of the one column naming it and leaves every other slot at its
      initial value. */
  lemma FillDistinct(init: seq<Value>, bindings: seq<ColumnBinding>, lookup: string -> Option<nat>,
                     columns: seq<string>, row: seq<Value>)
    requires |row| == |columns|
    requires DistinctMatches(bindings, lookup, columns, |init|)
    ensures Fill(init, bindings, row).Success?
    ensures forall i :: 0 <= i < |columns| && lookup(columns[i]).Some? ==>
      Fill(init, bindings, row).value[lookup(columns[i]).value] == Normalise(row[i])
    ensures forall s :: 0 <= s < |init| && (forall i :: 0 <= i < |columns| ==> lookup(columns[i]) != Some(s)) ==>
      Fill(init, bindings, row).value[s] == init[s]
  {
    assert AllFit(bindings, |row|, |init|) by {
      forall k | 0 <= k < |bindings| ensures Fits(bindings[k], |row|, |init|) {
        assert Matches(lookup, columns, bindings[k].column, bindings[k].slot);
      }
    }
    var out := Fill(init, bindings, row).value;
    forall i | 0 <= i < |columns| && lookup(columns[i]).Some?
      ensures out[lookup(columns[i]).value] == Normalise(row[i])
    {
      var s := lookup(columns[i]).value;
      assert Matches(lookup, columns, i, s);
      var k :| 0 <= k < |bindings| && bindings[k] == ColumnBinding(i, s);
      MatchedIsLast(bindings, lookup, columns, |init|, k);
    }
    forall s | 0 <= s < |init| && (forall i :: 0 <= i < |columns| ==> lookup(columns[i]) != Some(s))
      ensures out[s] == init[s]
    {
      UnnamedIsUnwritten(bindings, lookup, columns, |init|, s);
    }
  }
}
