// The counts of a pattern do not depend on the order in which observations arrive.
module PatternOrder {
  import opened Sequences
  import opened PatternEvidence

  function CountOf(log: seq<Observation>, kind: Confirmation): nat {
    if log == [] then 0
    else CountOf(log[..|log| - 1], kind) + if Confirms(log[|log| - 1], kind) then 1 else 0
  }

  lemma {:induction false} CountIsSize(log: seq<Observation>, kind: Confirmation)
    ensures |Confirmations(log, kind)| == CountOf(log, kind)
  {
    if log == [] {
      NothingCounted();
    } else {
      CountIsSize(log[..|log| - 1], kind);
      ConfirmationsAppend(log[..|log| - 1], log[|log| - 1], kind);
      assert log == log[..|log| - 1] + [log[|log| - 1]];
    }
  }

  lemma {:induction false} CountConcat(a: seq<Observation>, b: seq<Observation>, kind: Confirmation)
    ensures CountOf(a + b, kind) == CountOf(a, kind) + CountOf(b, kind)
  {
    if b == [] {
      assert a + b == a;
    } else {
      CountConcat(a, b[..|b| - 1], kind);
      assert (a + b)[..|a + b| - 1] == a + b[..|b| - 1];
    }
  }

  lemma {:induction false} LogConcat(t: Text, a: seq<Observation>, b: seq<Observation>, key: string)
    ensures LogOf(t, a + b, key) == LogOf(t, a, key) + LogOf(t, b, key)
  {
    hide Accepted, KeyOf;
    if b == [] {
      assert a + b == a;
    } else {
      LogConcat(t, a, b[..|b| - 1], key);
      assert (a + b)[..|a + b| - 1] == a + b[..|b| - 1];
    }
  }

  // The element of a permutation that matches the first one, and the rest.
  lemma TakeOut(a: seq<Observation>, b: seq<Observation>) returns (k: nat)
    requires multiset(a) == multiset(b) && a != []
    ensures k < |b| && b[k] == a[0] && multiset(a[1..]) == multiset(Without(b, k))
    ensures a == [] + [a[0]] + a[1..] && b == b[..k] + [b[k]] + b[k + 1..]
  {
    assert a[0] in multiset(b);
    k :| 0 <= k < |b| && b[k] == a[0];
    assert a == [] + [a[0]] + a[1..] && b == b[..k] + [b[k]] + b[k + 1..];
    Middle([], a[0], a[1..]);
    Middle(b[..k], b[k], b[k + 1..]);
    assert [] + a[1..] == a[1..];
    Cancel(multiset(a[1..]), multiset(Without(b, k)), a[0]);
  }

  lemma {:induction false} SameCount(a: seq<Observation>, b: seq<Observation>, kind: Confirmation)
    requires multiset(a) == multiset(b)
    ensures CountOf(a, kind) == CountOf(b, kind)
    decreases |a|
  {
    hide CountOf;
    SameLength(a, b);
    if a != [] {
      var k := TakeOut(a, b);
      SameCount(a[1..], Without(b, k), kind);
      CountConcat([] + [a[0]], a[1..], kind);
      CountConcat(b[..k] + [b[k]], b[k + 1..], kind);
      CountConcat(b[..k], [b[k]], kind);
      CountConcat(b[..k], b[k + 1..], kind);
      assert [] + [a[0]] == [a[0]];
    } else {
      assert a == b;
    }
  }

  lemma {:induction false} SameLog(t: Text, a: seq<Observation>, b: seq<Observation>, key: string)
    requires multiset(a) == multiset(b)
    ensures multiset(LogOf(t, a, key)) == multiset(LogOf(t, b, key))
    decreases |a|
  {
    hide LogOf;
    SameLength(a, b);
    if a != [] {
      var k := TakeOut(a, b);
      SameLog(t, a[1..], Without(b, k), key);
      LogConcat(t, [] + [a[0]], a[1..], key);
      LogConcat(t, b[..k] + [b[k]], b[k + 1..], key);
      LogConcat(t, b[..k], [b[k]], key);
      LogConcat(t, b[..k], b[k + 1..], key);
      assert [] + [a[0]] == [a[0]];
      Rearranged(LogOf(t, b[..k], key), LogOf(t, [a[0]], key), LogOf(t, b[k + 1..], key), LogOf(t, a[1..], key));
    } else {
      assert a == b;
    }
  }

  lemma Rearranged(p: seq<Observation>, o: seq<Observation>, q: seq<Observation>, rest: seq<Observation>)
    requires multiset(rest) == multiset(p + q)
    ensures multiset(o + rest) == multiset(p + o + q)
  {
  }

  lemma SameSets(a: seq<Observation>, b: seq<Observation>)
    requires multiset(a) == multiset(b)
    ensures Tasks(a) == Tasks(b) && Agents(a) == Agents(b)
  {
    Within(a, b);
    Within(b, a);
  }

  lemma Within(a: seq<Observation>, b: seq<Observation>)
    requires multiset(a) == multiset(b)
    ensures Tasks(a) <= Tasks(b) && Agents(a) <= Agents(b)
  {
    forall i | 0 <= i < |a|
      ensures exists j :: 0 <= j < |b| && b[j] == a[i]
    {
      assert a[i] in multiset(b);
    }
  }

  // Two runs over the same observations in different orders know the same patterns, with the same
  // counters and the same tasks and agents behind them.
  lemma OrderDoesNotMatter(t: Text, a: seq<Observation>, b: seq<Observation>, key: string)
    requires multiset(a) == multiset(b)
    ensures key in ObservedAll(t, a) <==> key in ObservedAll(t, b)
    ensures key in ObservedAll(t, a) ==>
              && ObservedAll(t, a)[key].corroboration == ObservedAll(t, b)[key].corroboration
              && (forall id :: id in ObservedAll(t, a)[key].taskIds <==> id in ObservedAll(t, b)[key].taskIds)
              && (forall id :: id in ObservedAll(t, a)[key].agentIds <==> id in ObservedAll(t, b)[key].agentIds)
  {
    hide LogOf, ObservedAll, Tasks, Agents, Confirmations;
    var x, y := LogOf(t, a, key), LogOf(t, b, key);
    SameLog(t, a, b, key);
    SameLength(x, y);
    IncrementalIsBatch(t, a, key);
    IncrementalIsBatch(t, b, key);
    SameSets(x, y);
    forall kind: Confirmation
      ensures |Confirmations(x, kind)| == |Confirmations(y, kind)|
    {
      SameCount(x, y, kind);
      CountIsSize(x, kind);
      CountIsSize(y, kind);
    }
  }
}
