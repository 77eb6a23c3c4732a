/** The latest-value store: a process-wide key to value index whose only
    write path is accepting the whole snapshot of a completed batch, merged in
    one key at a time with the same conflict rule as inside a batch. */
module LatestValueStore {
  import opened Results
  import opened Merging
  import CompactingBatch

  /** Merges a completed batch's snapshot into the store: an unseen key is
      inserted, a known key gets `merge(current, incoming)`, and keys the
      snapshot does not mention keep their value. */
  function Accept<K(==, !new), V(!new)>(merge: (V, V) -> V, store: map<K, V>, snapshot: map<K, V>): (r: map<K, V>)
    ensures r.Keys == store.Keys + snapshot.Keys
    ensures forall k :: Get(r, k) == Combine(merge, Get(store, k), Get(snapshot, k))
  {
    map k | k in store.Keys + snapshot.Keys ::
      if k !in snapshot then store[k]
      else if k in store then merge(store[k], snapshot[k])
      else snapshot[k]
  }

  /** With an associative merge (the latest-timestamp rule is one), accepting
      a batch's compacted snapshot leaves the store exactly as adding the
      batch's entries to the store one by one would: compaction across batches
      is indistinguishable from compaction within a batch. */
  lemma AcceptMatchesDirectAdds<K(!new), V(!new)>(merge: (V, V) -> V, store: map<K, V>, kvs: seq<(K, V)>)
    requires Associative(merge)
    ensures Accept(merge, store, CompactingBatch.PutAll(merge, map[], kvs)) == CompactingBatch.PutAll(merge, store, kvs)
  {
    var lhs := Accept(merge, store, CompactingBatch.PutAll(merge, map[], kvs));
    var rhs := CompactingBatch.PutAll(merge, store, kvs);
    forall k
      ensures Get(lhs, k) == Get(rhs, k)
    {
      var vs := CompactingBatch.ValuesFor(kvs, k);
      CompactingBatch.PutAllFolds(merge, map[], kvs, k);
      CompactingBatch.PutAllFolds(merge, store, kvs, k);
      FoldThenCombine(merge, Get(store, k), vs);
    }
    GetExtensional(lhs, rhs);
  }

  /** The service's own merge rule: completing a batch leaves the store
      exactly as adding the batch's entries to the store one by one would. */
  lemma LaterWinsAcceptMatchesDirectAdds<K(!new), P(!new)>(store: map<K, Stamped<P>>, kvs: seq<(K, Stamped<P>)>)
    ensures Accept(LaterWins, store, CompactingBatch.PutAll(LaterWins, map[], kvs)) == CompactingBatch.PutAll(LaterWins, store, kvs)
  {
    LaterWinsAssociative<P>();
    AcceptMatchesDirectAdds(LaterWins, store, kvs);
  }

  /** Under the latest-timestamp rule, accepting a snapshot never moves a key
      back in time, and every stored value is either the one stored before or
      the snapshot's, whichever is later (the stored one on a tie). */
  lemma AcceptKeepsLatest<K(!new), P(!new)>(store: map<K, Stamped<P>>, snapshot: map<K, Stamped<P>>)
    ensures var r := Accept(LaterWins, store, snapshot);
            && (forall k :: k in store ==> k in r && store[k].at <= r[k].at)
            && (forall k :: k in snapshot ==> k in r && snapshot[k].at <= r[k].at)
            && (forall k :: k in r ==> (k in store && r[k] == store[k]) || (k in snapshot && r[k] == snapshot[k]))
            && (forall k :: k in r && k in store && r[k].at == store[k].at ==> r[k] == store[k])
  {
  }

  /** Two completed snapshots reach the same store contents in either
      completion order, except, possibly, for a key both carry with exactly
      equal timestamps. */
  lemma CompletionOrderMattersOnlyOnTies<K(!new), P(!new)>(store: map<K, Stamped<P>>, a: map<K, Stamped<P>>, b: map<K, Stamped<P>>, k: K)
    requires !(k in a && k in b && a[k].at == b[k].at)
    ensures Get(Accept(LaterWins, Accept(LaterWins, store, a), b), k) == Get(Accept(LaterWins, Accept(LaterWins, store, b), a), k)
  {
  }
}
