/** The batch lifecycle behind the pricing web service, with the transport
    taken away: a directory from batch id to compacting batch, an id counter,
    and the latest-value store every completed batch publishes into.

    Each operation answers with the outcome the service reports: `Ok`, or the
    error `BatchNotFound`, `NotFound` (no price for an instrument) or
    `BadInput` (an empty chunk). A batch that was completed or cancelled stays
    in the directory in that state: completing or cancelling it again is an
    accepted no-op, and adding a non-empty chunk to it is `BatchNotFound`. */
module BatchRegistry {
  import opened Results
  import opened Merging
  import CompactingBatch
  import LatestValueStore

  datatype ServiceError = BatchNotFound | NotFound | BadInput

  /** Instruments are keys of type K; a price is a payload P stamped with its
      effectiveness time. */
  datatype Registry<K, P> = Registry(
    nextId: nat,
    batches: map<nat, CompactingBatch.Batch<K, Stamped<P>>>,
    store: map<K, Stamped<P>>)

  /** The registry at start-up: no batch issued, nothing stored. */
  function Init<K, P>(): Registry<K, P> {
    Registry(1, map[], map[])
  }

  /** The store holds, for every instrument, a value some completed batch
      delivered, and it is at least as late as every value any completed
      batch delivered for that instrument. */
  ghost predicate StoreIsLatest<K(!new), P(!new)>(batches: map<nat, CompactingBatch.Batch<K, Stamped<P>>>, store: map<K, Stamped<P>>) {
    && (forall k :: k in store ==>
          exists id :: id in batches && k in CompactingBatch.Delivered(batches[id])
                       && CompactingBatch.Delivered(batches[id])[k] == store[k])
    && (forall id, k :: id in batches && k in CompactingBatch.Delivered(batches[id]) ==>
          k in store && CompactingBatch.Delivered(batches[id])[k].at <= store[k].at)
  }

  /** The registry invariant: issued ids are positive and below the counter,
      every batch keeps its lifecycle invariant, and the store reflects the
      completed batches exactly. */
  ghost predicate Valid<K(!new), P(!new)>(r: Registry<K, P>) {
    && r.nextId >= 1
    && (forall id :: id in r.batches ==> 1 <= id < r.nextId && CompactingBatch.Wf(r.batches[id]))
    && StoreIsLatest(r.batches, r.store)
  }

  lemma InitValid<K(!new), P(!new)>()
    ensures Valid(Init<K, P>())
  {
  }

  /** `createBatch`: issues a positive id not in the directory and records a
      fresh open batch under it; nothing else changes. */
  function CreateBatch<K(==, !new), P(!new)>(r: Registry<K, P>): (res: (Registry<K, P>, nat))
    requires Valid(r)
    ensures res.1 > 0 && res.1 !in r.batches
    ensures res.0.batches == r.batches[res.1 := CompactingBatch.New()]
    ensures res.0.store == r.store
    ensures Valid(res.0)
  {
    var id := r.nextId;
    var r' := r.(nextId := id + 1, batches := r.batches[id := CompactingBatch.New()]);
    assert StoreIsLatest(r'.batches, r'.store) by {
      forall k | k in r'.store
        ensures exists i :: i in r'.batches && k in CompactingBatch.Delivered(r'.batches[i])
                            && CompactingBatch.Delivered(r'.batches[i])[k] == r'.store[k]
      {
        var i :| i in r.batches && k in CompactingBatch.Delivered(r.batches[i])
                 && CompactingBatch.Delivered(r.batches[i])[k] == r.store[k];
        assert r'.batches[i] == r.batches[i];
      }
    }
    (r', id)
  }

  /** `addChunk(id, entries)`: an id not in the directory is `BatchNotFound`;
      an empty chunk is `BadInput`; a batch that is no longer open refuses the
      adds, which the service reports as `BatchNotFound`. Otherwise the entries
      are added to the batch in order, and neither the store nor any other
      batch changes. */
  function AddChunk<K(==, !new), P(!new)>(r: Registry<K, P>, id: nat, chunk: seq<(K, Stamped<P>)>): (res: Result<Registry<K, P>, ServiceError>)
    ensures id !in r.batches ==> res == Err(BatchNotFound)
    ensures id in r.batches && chunk == [] ==> res == Err(BadInput)
    ensures id in r.batches && chunk != [] && r.batches[id].state != CompactingBatch.Open ==> res == Err(BatchNotFound)
    ensures res.Ok? <==> id in r.batches && chunk != [] && r.batches[id].state == CompactingBatch.Open
    ensures res.Ok? ==>
              && res.value.nextId == r.nextId
              && res.value.store == r.store
              && res.value.batches == r.batches[id := r.batches[id].(entries := CompactingBatch.PutAll(LaterWins, r.batches[id].entries, chunk))]
  {
    if id !in r.batches then Err(BatchNotFound)
    else if chunk == [] then Err(BadInput)
    else
      match CompactingBatch.AddAll(LaterWins, r.batches[id], chunk)
      case Err(_) => Err(BatchNotFound)
      case Ok(b) => Ok(r.(batches := r.batches[id := b]))
  }

  /** `complete(id)`: an id not in the directory is `BatchNotFound`. An open
      batch hands its snapshot to the store, which merges it in, and becomes
      completed; a batch that was already completed or cancelled is accepted
      and nothing changes. */
  function Complete<K(==, !new), P(!new)>(r: Registry<K, P>, id: nat): (res: Result<Registry<K, P>, ServiceError>)
    ensures res.Err? <==> id !in r.batches
    ensures res.Err? ==> res.error == BatchNotFound
    ensures res.Ok? && r.batches[id].state == CompactingBatch.Open ==>
              && res.value.nextId == r.nextId
              && res.value.batches == r.batches[id := CompactingBatch.Complete(r.batches[id])]
              && res.value.store == LatestValueStore.Accept(LaterWins, r.store, r.batches[id].entries)
    ensures res.Ok? && r.batches[id].state != CompactingBatch.Open ==> res.value == r
  {
    if id !in r.batches then Err(BatchNotFound)
    else
      var b := r.batches[id];
      var store := if b.state == CompactingBatch.Open
                   then LatestValueStore.Accept(LaterWins, r.store, b.entries)
                   else r.store;
      Ok(r.(batches := r.batches[id := CompactingBatch.Complete(b)], store := store))
  }

  /** `cancel(id)`: an id not in the directory is `BatchNotFound`; otherwise
      the batch is cancelled (a no-op unless it is open) and the store is left
      alone. */
  function Cancel<K(==, !new), P(!new)>(r: Registry<K, P>, id: nat): (res: Result<Registry<K, P>, ServiceError>)
    ensures res.Err? <==> id !in r.batches
    ensures res.Err? ==> res.error == BatchNotFound
    ensures res.Ok? ==>
              && res.value.nextId == r.nextId
              && res.value.store == r.store
              && res.value.batches == r.batches[id := CompactingBatch.Cancel(r.batches[id])]
  {
    if id !in r.batches then Err(BatchNotFound)
    else Ok(r.(batches := r.batches[id := CompactingBatch.Cancel(r.batches[id])]))
  }

  /** `getLatest(key)`: answers from the store alone. */
  function GetLatest<K(==), P>(r: Registry<K, P>, k: K): (res: Result<Stamped<P>, ServiceError>)
    ensures res.Err? ==> res.error == NotFound
  {
    if k in r.store then Ok(r.store[k]) else Err(NotFound)
  }

  /** An instrument has a price exactly when some completed batch delivered a
      value for it; the price answered is one such value, and no completed
      batch delivered a later one. Open and cancelled batches deliver nothing,
      so they are invisible here. */
  lemma GetLatestAnswersFromCompleted<K(!new), P(!new)>(r: Registry<K, P>, k: K)
    requires Valid(r)
    ensures GetLatest(r, k).Ok? <==>
              exists id :: id in r.batches && k in CompactingBatch.Delivered(r.batches[id])
    ensures GetLatest(r, k).Ok? ==>
              exists id :: id in r.batches && k in CompactingBatch.Delivered(r.batches[id])
                           && CompactingBatch.Delivered(r.batches[id])[k] == GetLatest(r, k).value
    ensures GetLatest(r, k).Ok? ==>
              forall id :: id in r.batches && k in CompactingBatch.Delivered(r.batches[id]) ==>
                CompactingBatch.Delivered(r.batches[id])[k].at <= GetLatest(r, k).value.at
    ensures forall id :: id in r.batches && r.batches[id].state != CompactingBatch.Completed ==>
              CompactingBatch.Delivered(r.batches[id]) == map[]
  {
  }

  lemma AddChunkKeepsValid<K(!new), P(!new)>(r: Registry<K, P>, id: nat, chunk: seq<(K, Stamped<P>)>)
    requires Valid(r)
    ensures AddChunk(r, id, chunk).Ok? ==> Valid(AddChunk(r, id, chunk).value)
  {
    var res := AddChunk(r, id, chunk);
    if res.Ok? {
      var r' := res.value;
      assert CompactingBatch.Delivered(r'.batches[id]) == map[] == CompactingBatch.Delivered(r.batches[id]);
      assert forall i :: i in r.batches ==> CompactingBatch.Delivered(r'.batches[i]) == CompactingBatch.Delivered(r.batches[i]);
      forall k | k in r'.store
        ensures exists i :: i in r'.batches && k in CompactingBatch.Delivered(r'.batches[i])
                            && CompactingBatch.Delivered(r'.batches[i])[k] == r'.store[k]
      {
        var i :| i in r.batches && k in CompactingBatch.Delivered(r.batches[i])
                 && CompactingBatch.Delivered(r.batches[i])[k] == r.store[k];
        assert CompactingBatch.Delivered(r'.batches[i]) == CompactingBatch.Delivered(r.batches[i]);
      }
    }
  }

  lemma CancelKeepsValid<K(!new), P(!new)>(r: Registry<K, P>, id: nat)
    requires Valid(r)
    ensures Cancel(r, id).Ok? ==> Valid(Cancel(r, id).value)
  {
    var res := Cancel(r, id);
    if res.Ok? {
      var r' := res.value;
      assert forall i :: i in r.batches ==> CompactingBatch.Delivered(r'.batches[i]) == CompactingBatch.Delivered(r.batches[i]);
      forall k | k in r'.store
        ensures exists i :: i in r'.batches && k in CompactingBatch.Delivered(r'.batches[i])
                            && CompactingBatch.Delivered(r'.batches[i])[k] == r'.store[k]
      {
        var i :| i in r.batches && k in CompactingBatch.Delivered(r.batches[i])
                 && CompactingBatch.Delivered(r.batches[i])[k] == r.store[k];
        assert CompactingBatch.Delivered(r'.batches[i]) == CompactingBatch.Delivered(r.batches[i]);
      }
    }
  }

  lemma CompleteKeepsValid<K(!new), P(!new)>(r: Registry<K, P>, id: nat)
    requires Valid(r)
    ensures Complete(r, id).Ok? ==> Valid(Complete(r, id).value)
  {
    var res := Complete(r, id);
    if res.Ok? && r.batches[id].state == CompactingBatch.Open {
      var r' := res.value;
      var e := r.batches[id].entries;
      assert CompactingBatch.Delivered(r.batches[id]) == map[];
      assert CompactingBatch.Delivered(r'.batches[id]) == e;
      LatestValueStore.AcceptKeepsLatest(r.store, e);
      forall k | k in r'.store
        ensures exists i :: i in r'.batches && k in CompactingBatch.Delivered(r'.batches[i])
                            && CompactingBatch.Delivered(r'.batches[i])[k] == r'.store[k]
      {
        if k in e && r'.store[k] == e[k] {
          assert id in r'.batches && k in CompactingBatch.Delivered(r'.batches[id]);
        } else {
          var i :| i in r.batches && k in CompactingBatch.Delivered(r.batches[i])
                   && CompactingBatch.Delivered(r.batches[i])[k] == r.store[k];
          assert i != id;
          assert r'.batches[i] == r.batches[i];
        }
      }
      forall i, k | i in r'.batches && k in CompactingBatch.Delivered(r'.batches[i])
        ensures k in r'.store && CompactingBatch.Delivered(r'.batches[i])[k].at <= r'.store[k].at
      {
        if i != id {
          assert r'.batches[i] == r.batches[i];
        }
      }
    }
  }

  /** One request against the service (price queries change nothing). */
  datatype Op<K, P> =
    | CreateOp
    | AddChunkOp(id: nat, chunk: seq<(K, Stamped<P>)>)
    | CompleteOp(id: nat)
    | CancelOp(id: nat)

  /** Serves one request; a refused request leaves the registry as it was. */
  function Step<K(==, !new), P(!new)>(r: Registry<K, P>, op: Op<K, P>): (r': Registry<K, P>)
    requires Valid(r)
    ensures Valid(r')
  {
    match op
    case CreateOp => CreateBatch(r).0
    case AddChunkOp(id, chunk) =>
      AddChunkKeepsValid(r, id, chunk);
      (match AddChunk(r, id, chunk) case Ok(r') => r' case Err(_) => r)
    case CompleteOp(id) =>
      CompleteKeepsValid(r, id);
      (match Complete(r, id) case Ok(r') => r' case Err(_) => r)
    case CancelOp(id) =>
      CancelKeepsValid(r, id);
      (match Cancel(r, id) case Ok(r') => r' case Err(_) => r)
  }

  /** Serves requests in order; whatever they are, the invariant holds after. */
  function Run<K(==, !new), P(!new)>(r: Registry<K, P>, ops: seq<Op<K, P>>): (r': Registry<K, P>)
    requires Valid(r)
    ensures Valid(r')
    decreases |ops|
  {
    if ops == [] then r else Run(Step(r, ops[0]), ops[1..])
  }

  /** Only `complete` writes to the store: any number of creates, chunks and
      cancels leaves every price query answering as before. */
  lemma {:induction false} OnlyCompleteWritesStore<K(!new), P(!new)>(r: Registry<K, P>, ops: seq<Op<K, P>>)
    requires Valid(r)
    requires forall i :: 0 <= i < |ops| ==> !ops[i].CompleteOp?
    ensures Run(r, ops).store == r.store
    decreases |ops|
  {
    if ops != [] {
      OnlyCompleteWritesStore(Step(r, ops[0]), ops[1..]);
    }
  }

  /** Prices never move back in time: once an instrument has a price, every
      later state still has one, at least as late. */
  lemma {:induction false} PricesNeverMoveBack<K(!new), P(!new)>(r: Registry<K, P>, ops: seq<Op<K, P>>, k: K)
    requires Valid(r) && k in r.store
    ensures k in Run(r, ops).store && r.store[k].at <= Run(r, ops).store[k].at
    decreases |ops|
  {
    if ops != [] {
      var r1 := Step(r, ops[0]);
      if ops[0].CompleteOp? && ops[0].id in r.batches && r.batches[ops[0].id].state == CompactingBatch.Open {
        LatestValueStore.AcceptKeepsLatest(r.store, r.batches[ops[0].id].entries);
      }
      assert k in r1.store && r.store[k].at <= r1.store[k].at;
      PricesNeverMoveBack(r1, ops[1..], k);
    }
  }

  /** An id that was never issued (zero, or not below the counter) is unknown
      to every batch operation. */
  lemma NeverIssuedIsNotFound<K(!new), P(!new)>(r: Registry<K, P>, id: nat, chunk: seq<(K, Stamped<P>)>)
    requires Valid(r) && (id == 0 || id >= r.nextId)
    ensures AddChunk(r, id, chunk) == Err(BatchNotFound)
    ensures Complete(r, id) == Err(BatchNotFound)
    ensures Cancel(r, id) == Err(BatchNotFound)
  {
  }

  // The scenarios below follow the service's end-to-end tests, starting from
  // any registry that keeps the invariant.

  /** A chunk posted to a batch that was just created is accepted. */
  lemma ScenarioPostToNewBatch<K(!new), P(!new)>(r: Registry<K, P>, chunk: seq<(K, Stamped<P>)>)
    requires Valid(r) && chunk != []
    ensures CreateBatch(r).1 > 0
    ensures AddChunk(CreateBatch(r).0, CreateBatch(r).1, chunk).Ok?
  {
  }

  /** Two chunks, the second repeating a price of the first, then `complete`:
      the first instrument now has a price at least as late as the one posted. */
  lemma ScenarioPostAndRead<K(!new), P(!new)>(r: Registry<K, P>, p1: (K, Stamped<P>), p2: (K, Stamped<P>), p3: (K, Stamped<P>))
    requires Valid(r)
    ensures var (r1, id) := CreateBatch(r);
            var a := AddChunk(r1, id, [p1, p2]);
            && a.Ok?
            && var b := AddChunk(a.value, id, [p2, p3]);
            && b.Ok?
            && var c := Complete(b.value, id);
            && c.Ok?
            && GetLatest(c.value, p1.0).Ok?
            && p1.1.at <= GetLatest(c.value, p1.0).value.at
  {
    var (r1, id) := CreateBatch(r);
    var a := AddChunk(r1, id, [p1, p2]);
    var m1 := CompactingBatch.PutAll(LaterWins, map[], [p1, p2]);
    CompactingBatch.PutAllKeepsLatest(map[], [p1, p2]);
    assert p1.0 in m1 && p1.1.at <= m1[p1.0].at;
    var b := AddChunk(a.value, id, [p2, p3]);
    var m2 := CompactingBatch.PutAll(LaterWins, m1, [p2, p3]);
    CompactingBatch.PutAllKeepsLatest(m1, [p2, p3]);
    assert b.value.batches[id].entries == m2;
    LatestValueStore.AcceptKeepsLatest(b.value.store, m2);
  }

  /** A price posted to a batch is invisible while the batch is open, and stays
      invisible after the batch is cancelled and then completed: both of those
      calls are accepted. */
  lemma ScenarioCancelledNeverVisible<K(!new), P(!new)>(r: Registry<K, P>, p: (K, Stamped<P>))
    requires Valid(r) && p.0 !in r.store
    ensures var (r1, id) := CreateBatch(r);
            var a := AddChunk(r1, id, [p]);
            && a.Ok?
            && GetLatest(a.value, p.0) == Err(NotFound)
            && var c := Cancel(a.value, id);
            && c.Ok?
            && var d := Complete(c.value, id);
            && d.Ok?
            && GetLatest(d.value, p.0) == Err(NotFound)
  {
  }

  /** Completing or cancelling, or posting to, an id the registry never
      issued is `BatchNotFound`. */
  lemma ScenarioUnknownBatch<K(!new), P(!new)>(chunk: seq<(K, Stamped<P>)>)
    ensures AddChunk(Init<K, P>(), 7, chunk) == Err(BatchNotFound)
    ensures Complete(Init<K, P>(), 333) == Err(BatchNotFound)
    ensures Cancel(Init<K, P>(), 333) == Err(BatchNotFound)
  {
  }
}
