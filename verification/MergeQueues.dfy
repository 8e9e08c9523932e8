/** Queues under keys, as both k-way merges hold them. */
module MergeQueues {

  ghost predicate AllEmpty<K, V>(queues: map<K, seq<V>>) {
    forall s :: s in queues ==> queues[s] == []
  }

  /** Groups that are dropped once empty do not matter to a merge. */
  ghost predicate SameQueues<K, V>(groups: map<K, seq<V>>, queues: map<K, seq<V>>) {
    && groups.Keys <= queues.Keys
    && (forall s :: s in groups ==> groups[s] == queues[s])
    && (forall s :: s in queues && s !in groups ==> queues[s] == [])
  }

  /** How many entries wait in all queues together. */
  ghost function Count<K, V>(queues: map<K, seq<V>>): nat {
    if queues == map[] then 0
    else var s :| s in queues; |queues[s]| + Count(queues - {s})
  }

  lemma {:induction false} CountRemove<K, V>(queues: map<K, seq<V>>, s: K)
    requires s in queues
    ensures Count(queues) == |queues[s]| + Count(queues - {s})
    decreases |queues|
  {
    var t :| t in queues && Count(queues) == |queues[t]| + Count(queues - {t});
    if t != s {
      CountRemove(queues - {t}, s);
      CountRemove(queues - {s}, t);
      assert queues - {t} - {s} == queues - {s} - {t};
    }
  }

  /** A queue that gets shorter makes the whole smaller. */
  lemma CountShorter<K, V>(queues: map<K, seq<V>>, s: K, rest: seq<V>)
    requires s in queues && |rest| < |queues[s]|
    ensures Count(queues[s := rest]) < Count(queues)
  {
    CountRemove(queues, s);
    CountRemove(queues[s := rest], s);
    assert queues[s := rest] - {s} == queues - {s};
  }
}
