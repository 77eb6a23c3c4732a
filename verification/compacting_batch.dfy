/** The generic compacting batch accumulator `CompactingBatch<K, V>`: a key to
    value map, an injected merge function `(existing, incoming) -> winner`, a
    terminal consumer that receives the whole map on completion, and the
    lifecycle OPEN -> COMPLETED | CANCELLED.

    The consumer is modelled by its log: `published` holds, in order, every map
    the consumer has been handed (the test's consumer offers each map to a
    queue). The merge function is passed to each transition that needs it. */
module CompactingBatch {
  import opened Results
  import opened Merging

  datatype State = Open | Completed | Cancelled

  /** Why an `add` call is refused: a missing key or value, or a batch that
      has already left OPEN. */
  datatype AddError = InvalidArgument | NotOpen

  datatype Batch<K, V> = Batch(entries: map<K, V>, state: State, published: seq<map<K, V>>)

  /** A freshly constructed batch: open, empty, nothing delivered yet. */
  function New<K(==, !new), V(!new)>(): Batch<K, V> {
    Batch(map[], Open, [])
  }

  /** Lifecycle invariant: the consumer has been handed exactly one map, the
      batch's final contents, if the batch completed, and nothing otherwise;
      a cancelled batch holds nothing. */
  ghost predicate Wf<K(!new), V(!new)>(b: Batch<K, V>) {
    && (b.state == Completed ==> b.published == [b.entries])
    && (b.state != Completed ==> b.published == [])
    && (b.state == Cancelled ==> b.entries == map[])
  }

  /** The snapshot the consumer received from this batch, empty if none. */
  function Delivered<K(==, !new), V(!new)>(b: Batch<K, V>): map<K, V> {
    if b.published == [] then map[] else b.published[0]
  }

  /** Stores v under k, or merges it into the value already stored there. */
  function Put<K(==, !new), V(!new)>(merge: (V, V) -> V, m: map<K, V>, k: K, v: V): (r: map<K, V>)
    ensures Get(r, k) == Combine(merge, Get(m, k), Some(v))
    ensures forall k' :: k' != k ==> Get(r, k') == Get(m, k')
  {
    m[k := if k in m then merge(m[k], v) else v]
  }

  /** Puts the pairs of kvs into m one after the other, in order. */
  function PutAll<K(==, !new), V(!new)>(merge: (V, V) -> V, m: map<K, V>, kvs: seq<(K, V)>): map<K, V>
    decreases |kvs|
  {
    if kvs == [] then m else PutAll(merge, Put(merge, m, kvs[0].0, kvs[0].1), kvs[1..])
  }

  /** The values paired with key k in kvs, in order. */
  function ValuesFor<K(==, !new), V(!new)>(kvs: seq<(K, V)>, k: K): (vs: seq<V>)
    ensures |vs| <= |kvs|
    ensures forall v :: v in vs <==> (k, v) in kvs
    decreases |kvs|
  {
    if kvs == [] then []
    else
      var rest := ValuesFor(kvs[1..], k);
      assert forall p :: p in kvs <==> p == kvs[0] || p in kvs[1..];
      if kvs[0].0 == k then [kvs[0].1] + rest else rest
  }

  /** The value a key ends up with after a sequence of puts is the left fold of
      merge over the values put for that key, in call order, starting from the
      value it held before; a key no pair mentions keeps its old value. */
  lemma {:induction false} PutAllFolds<K(!new), V(!new)>(merge: (V, V) -> V, m: map<K, V>, kvs: seq<(K, V)>, k: K)
    ensures Get(PutAll(merge, m, kvs), k) == Fold(merge, Get(m, k), ValuesFor(kvs, k))
    decreases |kvs|
  {
    if kvs != [] {
      var m' := Put(merge, m, kvs[0].0, kvs[0].1);
      PutAllFolds(merge, m', kvs[1..], k);
      if kvs[0].0 == k {
        assert ValuesFor(kvs, k) == [kvs[0].1] + ValuesFor(kvs[1..], k);
        assert ValuesFor(kvs, k)[1..] == ValuesFor(kvs[1..], k);
      }
    }
  }

  /** Under the latest-timestamp rule, putting pairs into a map never moves a
      key back in time, and afterwards every key put holds a value at least as
      late as each value put for it. */
  lemma {:induction false} PutAllKeepsLatest<K(!new), P(!new)>(m: map<K, Stamped<P>>, kvs: seq<(K, Stamped<P>)>)
    ensures var r := PutAll(LaterWins, m, kvs);
            && (forall k :: k in m ==> k in r && m[k].at <= r[k].at)
            && (forall i :: 0 <= i < |kvs| ==> kvs[i].0 in r && kvs[i].1.at <= r[kvs[i].0].at)
    decreases |kvs|
  {
    if kvs != [] {
      var m' := Put(LaterWins, m, kvs[0].0, kvs[0].1);
      assert Get(m', kvs[0].0) == Combine(LaterWins, Get(m, kvs[0].0), Some(kvs[0].1));
      forall k | k in m
        ensures k in m' && m[k].at <= m'[k].at
      {
        if k != kvs[0].0 {
          assert Get(m', k) == Get(m, k);
        }
      }
      PutAllKeepsLatest(m', kvs[1..]);
      forall i | 1 <= i < |kvs|
        ensures kvs[i] == kvs[1..][i - 1]
      {
      }
    }
  }

  /** `add(key, value)`: refuses a missing key or value, refuses a batch that
      is no longer open, and otherwise stores the value or merges it into the
      value already stored under the key. */
  function Add<K(==, !new), V(!new)>(merge: (V, V) -> V, b: Batch<K, V>, key: Option<K>, value: Option<V>): (r: Result<Batch<K, V>, AddError>)
    ensures key.None? || value.None? ==> r == Err(InvalidArgument)
    ensures key.Some? && value.Some? && b.state != Open ==> r == Err(NotOpen)
    ensures r.Ok? <==> key.Some? && value.Some? && b.state == Open
    ensures r.Ok? ==>
              && r.value.state == b.state && r.value.published == b.published
              && Get(r.value.entries, key.value) == Combine(merge, Get(b.entries, key.value), value)
              && forall k :: k != key.value ==> Get(r.value.entries, k) == Get(b.entries, k)
  {
    if key.None? || value.None? then Err(InvalidArgument)
    else if b.state != Open then Err(NotOpen)
    else Ok(b.(entries := Put(merge, b.entries, key.value, value.value)))
  }

  /** Calls `add` once per pair, in order, stopping at the first refusal. */
  function AddAll<K(==, !new), V(!new)>(merge: (V, V) -> V, b: Batch<K, V>, kvs: seq<(K, V)>): (r: Result<Batch<K, V>, AddError>)
    ensures r.Ok? <==> b.state == Open || kvs == []
    ensures r.Err? ==> r.error == NotOpen
    ensures r.Ok? ==> r.value == b.(entries := PutAll(merge, b.entries, kvs))
    decreases |kvs|
  {
    if kvs == [] then Ok(b)
    else
      match Add(merge, b, Some(kvs[0].0), Some(kvs[0].1))
      case Err(e) => Err(e)
      case Ok(b') => AddAll(merge, b', kvs[1..])
  }

  /** `complete()`: an open batch hands its whole map to the consumer once and
      becomes COMPLETED; on a batch that already left OPEN it does nothing. */
  function Complete<K(==, !new), V(!new)>(b: Batch<K, V>): (r: Batch<K, V>)
    ensures b.state == Open ==> r.state == Completed && r.entries == b.entries && r.published == b.published + [b.entries]
    ensures b.state != Open ==> r == b
  {
    if b.state == Open then b.(state := Completed, published := b.published + [b.entries]) else b
  }

  /** `cancel()`: an open batch discards its map and becomes CANCELLED without
      handing anything to the consumer; otherwise nothing happens. */
  function Cancel<K(==, !new), V(!new)>(b: Batch<K, V>): (r: Batch<K, V>)
    ensures b.state == Open ==> r.state == Cancelled && r.entries == map[] && r.published == b.published
    ensures b.state != Open ==> r == b
  {
    if b.state == Open then b.(state := Cancelled, entries := map[]) else b
  }

  /** One call a client makes on a batch. An absent key or value is `None`. */
  datatype Call<K, V> = AddCall(key: Option<K>, value: Option<V>) | CompleteCall | CancelCall

  /** Applies one call; a refused `add` throws and leaves the batch as it was. */
  function Step<K(==, !new), V(!new)>(merge: (V, V) -> V, b: Batch<K, V>, c: Call<K, V>): Batch<K, V> {
    match c
    case AddCall(key, value) =>
      (match Add(merge, b, key, value)
       case Ok(b') => b'
       case Err(_) => b)
    case CompleteCall => Complete(b)
    case CancelCall => Cancel(b)
  }

  /** Applies a sequence of calls in order. */
  function Apply<K(==, !new), V(!new)>(merge: (V, V) -> V, b: Batch<K, V>, calls: seq<Call<K, V>>): Batch<K, V>
    decreases |calls|
  {
    if calls == [] then b else Apply(merge, Step(merge, b, calls[0]), calls[1..])
  }

  /** Every call keeps the lifecycle invariant, so whatever a client does the
      consumer is handed at most one map, and only on completion. */
  lemma {:induction false} ApplyKeepsWf<K(!new), V(!new)>(merge: (V, V) -> V, b: Batch<K, V>, calls: seq<Call<K, V>>)
    requires Wf(b)
    ensures Wf(Apply(merge, b, calls))
    ensures |Apply(merge, b, calls).published| <= 1
    ensures Apply(merge, b, calls).published != [] ==> Apply(merge, b, calls).state == Completed
    decreases |calls|
  {
    if calls != [] {
      ApplyKeepsWf(merge, Step(merge, b, calls[0]), calls[1..]);
    }
  }

  /** Without a `complete` call nothing reaches the consumer, however many
      `add` and `cancel` calls are made. */
  lemma {:induction false} NoCompleteNoPublish<K(!new), V(!new)>(merge: (V, V) -> V, b: Batch<K, V>, calls: seq<Call<K, V>>)
    requires forall i :: 0 <= i < |calls| ==> !calls[i].CompleteCall?
    ensures Apply(merge, b, calls).published == b.published
    decreases |calls|
  {
    if calls != [] {
      NoCompleteNoPublish(merge, Step(merge, b, calls[0]), calls[1..]);
    }
  }

  /** After a `cancel`, a later `complete` hands nothing to the consumer. */
  lemma {:induction false} CancelledNeverPublishes<K(!new), V(!new)>(merge: (V, V) -> V, b: Batch<K, V>, calls: seq<Call<K, V>>)
    requires b.state == Cancelled
    ensures Apply(merge, b, calls) == b
    decreases |calls|
  {
    if calls != [] {
      CancelledNeverPublishes(merge, Step(merge, b, calls[0]), calls[1..]);
    }
  }

  /** With the latest-timestamp rule, a completed batch holds, for every key it
      was given, the value with the latest timestamp among the values added for
      that key, the first one added among equals; it holds no other key. */
  lemma LatestPerKey<K(!new), P(!new)>(kvs: seq<(K, Stamped<P>)>, k: K)
    ensures var r := AddAll(LaterWins, New(), kvs);
            r.Ok? && Complete(r.value).published == [r.value.entries]
    ensures var vs := ValuesFor(kvs, k);
            var r := AddAll(LaterWins, New(), kvs).value.entries;
            && (k in r <==> vs != [])
            && (vs != [] ==> r[k] == vs[FirstWithStamp(vs, MaxStamp(vs))])
  {
    var vs := ValuesFor(kvs, k);
    PutAllFolds(LaterWins, map[], kvs, k);
    if vs != [] {
      FoldLaterWinsPicksFirstLatest(vs);
    }
  }

  // The scenarios below follow the accumulator's unit tests: a fresh batch,
  // the test's merge function (the later timestamp wins), and a queue
  // standing in for the consumer.

  /** `add` without `complete` publishes nothing. */
  lemma ScenarioNoPublishUntilCompleted<K(!new), P(!new)>(k: K, v: Stamped<P>)
    ensures var r := Add(LaterWins, New(), Some(k), Some(v));
            r.Ok? && r.value.published == []
  {
  }

  /** `add(k, v)` then `complete()` publishes exactly the map {k: v}. */
  lemma ScenarioPublishSingleEntry<K(!new), P(!new)>(k: K, v: Stamped<P>)
    ensures var r := AddAll(LaterWins, New(), [(k, v)]);
            && r.Ok?
            && Complete(r.value).published == [map[k := v]]
            && |Complete(r.value).published[0]| == 1
  {
  }

  /** Two distinct keys then `complete()` publishes one map holding both. */
  lemma ScenarioPublishMultipleEntries<K(!new), P(!new)>(k1: K, v1: Stamped<P>, k2: K, v2: Stamped<P>)
    requires k1 != k2
    ensures var r := AddAll(LaterWins, New(), [(k1, v1), (k2, v2)]);
            && r.Ok?
            && Complete(r.value).published == [map[k1 := v1, k2 := v2]]
            && |Complete(r.value).published[0]| == 2
  {
  }

  /** A strictly later value for a key replaces the stored one; the other key
      is untouched. */
  lemma ScenarioOverwriteIfLater<K(!new), P(!new)>(k1: K, v1: Stamped<P>, k2: K, older: Stamped<P>, latest: Stamped<P>)
    requires k1 != k2 && older.at < latest.at
    ensures var r := AddAll(LaterWins, New(), [(k1, v1), (k2, older), (k2, latest)]);
            && r.Ok?
            && Complete(r.value).published == [map[k1 := v1, k2 := latest]]
            && |Complete(r.value).published[0]| == 2
  {
    var kvs := [(k1, v1), (k2, older), (k2, latest)];
    var m1 := Put(LaterWins, map[], k1, v1);
    var m2 := Put(LaterWins, m1, k2, older);
    assert kvs[1..] == [(k2, older), (k2, latest)] && kvs[1..][1..] == [(k2, latest)];
    var m3 := Put(LaterWins, m2, k2, latest);
    assert PutAll(LaterWins, map[], kvs) == PutAll(LaterWins, m1, kvs[1..]);
    assert PutAll(LaterWins, m1, kvs[1..]) == PutAll(LaterWins, m2, kvs[1..][1..]);
    assert PutAll(LaterWins, m2, kvs[1..][1..]) == PutAll(LaterWins, m3, []);
    assert m3 == map[k1 := v1, k2 := latest];
    var m := map[k1 := v1, k2 := latest];
    assert m.Keys == {k1, k2};
  }

  /** A value that is not later than the stored one does not replace it. */
  lemma ScenarioKeepIfNotLater<K(!new), P(!new)>(k1: K, v1: Stamped<P>, k2: K, latest: Stamped<P>, older: Stamped<P>)
    requires k1 != k2 && older.at <= latest.at
    ensures var r := AddAll(LaterWins, New(), [(k1, v1), (k2, latest), (k2, older)]);
            && r.Ok?
            && Complete(r.value).published == [map[k1 := v1, k2 := latest]]
            && |Complete(r.value).published[0]| == 2
  {
    var kvs := [(k1, v1), (k2, latest), (k2, older)];
    var m1 := Put(LaterWins, map[], k1, v1);
    var m2 := Put(LaterWins, m1, k2, latest);
    assert kvs[1..] == [(k2, latest), (k2, older)] && kvs[1..][1..] == [(k2, older)];
    var m3 := Put(LaterWins, m2, k2, older);
    assert PutAll(LaterWins, map[], kvs) == PutAll(LaterWins, m1, kvs[1..]);
    assert PutAll(LaterWins, m1, kvs[1..]) == PutAll(LaterWins, m2, kvs[1..][1..]);
    assert PutAll(LaterWins, m2, kvs[1..][1..]) == PutAll(LaterWins, m3, []);
    assert m3 == map[k1 := v1, k2 := latest];
    var m := map[k1 := v1, k2 := latest];
    assert m.Keys == {k1, k2};
  }

  /** `add`, `cancel()`, `complete()` publishes nothing. */
  lemma ScenarioCancel<K(!new), P(!new)>(k: K, v: Stamped<P>)
    ensures Apply(LaterWins, New(), [AddCall(Some(k), Some(v)), CancelCall, CompleteCall]).published == []
  {
    var calls: seq<Call<K, Stamped<P>>> := [AddCall(Some(k), Some(v)), CancelCall, CompleteCall];
    assert calls[1..] == [CancelCall, CompleteCall] && calls[1..][1..] == [CompleteCall];
    var b1 := Step(LaterWins, New(), calls[0]);
    var b2 := Step(LaterWins, b1, calls[1]);
    assert b2.state == Cancelled && b2.published == [];
    assert Apply(LaterWins, New(), calls) == Apply(LaterWins, b1, calls[1..]);
    assert Apply(LaterWins, b1, calls[1..]) == Apply(LaterWins, b2, calls[1..][1..]);
    assert Apply(LaterWins, b2, calls[1..][1..]) == Apply(LaterWins, Complete(b2), []);
  }
}
