/** The pattern shared by `calculateRecipeCosts` and `compoundsToIngredients`:
    walk a list in order, and for each item either skip it, throw, or assign a
    value to the record under the item's key.  The first throw ends the walk. */
module RecordFold {
  import opened Wrappers
  import opened Records

  /** What one item does: `None` skips it, `Some(Err(e))` throws `e`,
      `Some(Ok(v))` assigns `v`. */
  type Outcome<V, E> = Option<Result<V, E>>

  predicate Writes<V, E>(o: Outcome<V, E>) {
    o.Some? && o.value.Ok?
  }

  predicate Throws<V, E>(o: Outcome<V, E>) {
    o.Some? && o.value.Err?
  }

  function AssignAll<T, V, E>(items: seq<T>, key: T -> string, outcome: T -> Outcome<V, E>)
    : (r: Result<Record<V>, E>)
    ensures r.Ok? ==> KeysDistinct(r.value)
    decreases |items|
  {
    if items == [] then Ok([])
    else
      var n := |items| - 1;
      var acc :- AssignAll(items[..n], key, outcome);
      match outcome(items[n])
      case None => Ok(acc)
      case Some(Err(e)) => Err(e)
      case Some(Ok(v)) => Ok(Set(acc, key(items[n]), v))
  }

  /** One step of the walk. */
  lemma AssignStep<T, V, E>(items: seq<T>, key: T -> string, outcome: T -> Outcome<V, E>)
    requires items != []
    ensures var n := |items| - 1;
            var acc := AssignAll(items[..n], key, outcome);
            acc.Err? ==> AssignAll(items, key, outcome) == Err(acc.error)
    ensures var n := |items| - 1;
            var acc := AssignAll(items[..n], key, outcome);
            var o := outcome(items[n]);
            acc.Ok? && Throws(o) ==> AssignAll(items, key, outcome) == Err(o.value.error)
    ensures var n := |items| - 1;
            var acc := AssignAll(items[..n], key, outcome);
            var o := outcome(items[n]);
            acc.Ok? && Writes(o) ==> AssignAll(items, key, outcome) == Ok(Set(acc.value, key(items[n]), o.value.value))
    ensures var n := |items| - 1;
            var acc := AssignAll(items[..n], key, outcome);
            acc.Ok? && outcome(items[n]).None? ==> AssignAll(items, key, outcome) == Ok(acc.value)
  {
  }

  /** The walk completes exactly when no item throws. */
  lemma {:induction false} AssignAllOk<T, V, E>(items: seq<T>, key: T -> string, outcome: T -> Outcome<V, E>)
    ensures AssignAll(items, key, outcome).Ok? <==> forall i :: 0 <= i < |items| ==> !Throws(outcome(items[i]))
    decreases |items|
  {
    if items != [] {
      var n := |items| - 1;
      var prefix := items[..n];
      AssignStep(items, key, outcome);
      AssignAllOk(prefix, key, outcome);
      if forall i :: 0 <= i < |items| ==> !Throws(outcome(items[i])) {
        forall i | 0 <= i < n
          ensures !Throws(outcome(prefix[i]))
        {
          assert prefix[i] == items[i];
        }
      } else {
        var i :| 0 <= i < |items| && Throws(outcome(items[i]));
        if i < n {
          assert prefix[i] == items[i];
        }
      }
    }
  }

  /** Some item assigns under `k`. */
  predicate HasWriter<T, V, E>(items: seq<T>, key: T -> string, outcome: T -> Outcome<V, E>, k: string) {
    exists i :: 0 <= i < |items| && Writes(outcome(items[i])) && key(items[i]) == k
  }

  lemma HasWriterSnoc<T, V, E>(items: seq<T>, key: T -> string, outcome: T -> Outcome<V, E>, k: string)
    requires items != []
    ensures var n := |items| - 1;
            HasWriter(items, key, outcome, k) <==>
            HasWriter(items[..n], key, outcome, k) || (Writes(outcome(items[n])) && key(items[n]) == k)
  {
    var n := |items| - 1;
    var prefix := items[..n];
    if HasWriter(prefix, key, outcome, k) {
      var i :| 0 <= i < n && Writes(outcome(prefix[i])) && key(prefix[i]) == k;
      assert items[i] == prefix[i];
    }
    if HasWriter(items, key, outcome, k) {
      var i :| 0 <= i < |items| && Writes(outcome(items[i])) && key(items[i]) == k;
      if i < n {
        assert prefix[i] == items[i];
      }
    }
  }

  /** A completed walk has an entry for exactly the keys of the assigning
      items. */
  lemma {:induction false} AssignAllKeys<T, V, E>(items: seq<T>, key: T -> string, outcome: T -> Outcome<V, E>,
                                                  k: string)
    requires AssignAll(items, key, outcome).Ok?
    ensures Get(AssignAll(items, key, outcome).value, k).Some? <==> HasWriter(items, key, outcome, k)
    decreases |items|
  {
    if items != [] {
      var n := |items| - 1;
      AssignStep(items, key, outcome);
      AssignAllKeys(items[..n], key, outcome, k);
      HasWriterSnoc(items, key, outcome, k);
    }
  }

  /** No later item assigns under the key of `items[i]`. */
  predicate LastWriter<T, V, E>(items: seq<T>, key: T -> string, outcome: T -> Outcome<V, E>, i: int)
    requires 0 <= i < |items|
  {
    forall j :: i < j < |items| ==> !(Writes(outcome(items[j])) && key(items[j]) == key(items[i]))
  }

  /** An item that does not assign under `k` leaves `k`'s entry alone. */
  lemma AssignKeepsOther<T, V, E>(items: seq<T>, key: T -> string, outcome: T -> Outcome<V, E>, k: string)
    requires items != [] && AssignAll(items, key, outcome).Ok?
    requires var last := items[|items| - 1];
             !(Writes(outcome(last)) && key(last) == k)
    ensures var prior := AssignAll(items[..|items| - 1], key, outcome);
            prior.Ok? && Get(AssignAll(items, key, outcome).value, k) == Get(prior.value, k)
  {
    AssignStep(items, key, outcome);
  }

  /** The last writer of a key stays the last writer in a prefix that
      still holds it. */
  lemma LastWriterPrefix<T, V, E>(items: seq<T>, key: T -> string, outcome: T -> Outcome<V, E>, i: nat)
    requires i < |items| - 1 && LastWriter(items, key, outcome, i)
    ensures items[..|items| - 1][i] == items[i]
    ensures LastWriter(items[..|items| - 1], key, outcome, i)
  {
    var prefix := items[..|items| - 1];
    forall j | i < j < |prefix|
      ensures !(Writes(outcome(prefix[j])) && key(prefix[j]) == key(prefix[i]))
    {
      assert prefix[j] == items[j];
    }
  }

  /** The last item, when it assigns, sets its own key. */
  lemma AssignLastValue<T, V, E>(items: seq<T>, key: T -> string, outcome: T -> Outcome<V, E>)
    requires items != [] && AssignAll(items, key, outcome).Ok?
    requires Writes(outcome(items[|items| - 1]))
    ensures var last := items[|items| - 1];
            Get(AssignAll(items, key, outcome).value, key(last)) == Some(outcome(last).value.value)
  {
    AssignStep(items, key, outcome);
  }

  /** The last assignment to a key is the value the record holds. */
  lemma {:induction false} AssignAllValue<T, V, E>(items: seq<T>, key: T -> string, outcome: T -> Outcome<V, E>,
                                                   i: nat)
    requires AssignAll(items, key, outcome).Ok?
    requires i < |items| && Writes(outcome(items[i])) && LastWriter(items, key, outcome, i)
    ensures Get(AssignAll(items, key, outcome).value, key(items[i])) == Some(outcome(items[i]).value.value)
    decreases |items|
  {
    var n := |items| - 1;
    var prefix := items[..n];
    if i == n {
      AssignLastValue(items, key, outcome);
    } else {
      AssignKeepsOther(items, key, outcome, key(items[i]));
      LastWriterPrefix(items, key, outcome, i);
      AssignAllValue(prefix, key, outcome, i);
    }
  }

  /** A walk that throws throws the error of the first throwing item. */
  lemma {:induction false} AssignAllError<T, V, E>(items: seq<T>, key: T -> string, outcome: T -> Outcome<V, E>)
    returns (i: nat)
    requires AssignAll(items, key, outcome).Err?
    ensures i < |items| && Throws(outcome(items[i]))
    ensures forall j :: 0 <= j < i ==> !Throws(outcome(items[j]))
    ensures AssignAll(items, key, outcome).error == outcome(items[i]).value.error
    decreases |items|
  {
    var n := |items| - 1;
    var prefix := items[..n];
    AssignStep(items, key, outcome);
    if AssignAll(prefix, key, outcome).Err? {
      i := AssignAllError(prefix, key, outcome);
      assert prefix[i] == items[i];
      forall j | 0 <= j < i
        ensures !Throws(outcome(items[j]))
      {
        assert prefix[j] == items[j];
      }
    } else {
      AssignAllOk(prefix, key, outcome);
      i := n;
      forall j | 0 <= j < n
        ensures !Throws(outcome(items[j]))
      {
        assert prefix[j] == items[j];
      }
    }
  }
}
