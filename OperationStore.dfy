/** The client-side operation result store (OperationStore.cs): a registry from operation
    request to stored operation, kept consistent with a normalized entity store, publishing
    every change as an update record on an ordered queue.

    The concurrent dictionary becomes a map from request to a `StoredOperation` object (so that
    "the same instance" can be stated), the unbounded channel an append-only sequence of
    `OperationUpdate` records, and the entity store a collaborator that exposes the ids of its
    current snapshot and a batch removal. Calls are sequential. */
module OperationStore {
  import opened Wrappers

  /** The registry key: compared structurally. */
  datatype OperationRequest = OperationRequest(documentId: string, operationName: string, variables: map<string, string>)

  datatype EntityId = EntityId(typeName: string, key: string)

  /** An operation result as the store sees it: its data, and the data info of the result
      (the entities it was built from and the entity-store version it was built at). */
  datatype OperationResult = OperationResult(data: string, entityIds: set<EntityId>, version: nat)

  datatype OperationUpdateKind = Updated | Removed

  /** `StoredOperationVersion`: what an update record tells about one operation. */
  datatype StoredOperationVersion = StoredOperationVersion(
    request: OperationRequest,
    lastResult: Option<OperationResult>,
    subscribers: nat,
    lastModified: nat)

  /** `OperationUpdate`: one record on the update queue. */
  datatype OperationUpdate = OperationUpdate(kind: OperationUpdateKind, operations: seq<StoredOperationVersion>)

  /** An entity-store change: the ids that changed and the store version they changed in. */
  datatype EntityUpdate = EntityUpdate(updatedEntityIds: set<EntityId>, version: nat)

  /** The outcome of a public call: `ObjectDisposed` stands for the exception thrown once the
      store is disposed. */
  datatype Status = Ok | ObjectDisposed

  /** The full state of one stored operation, for saying what a call leaves unchanged. */
  datatype OperationState = OperationState(
    lastResult: Option<OperationResult>,
    entityIds: set<EntityId>,
    version: nat,
    lastModified: nat,
    subscribers: nat,
    completed: bool)

  /** An entity update rechecks an operation when the operation is older than the update and
      depends on an entity the update changed. */
  predicate Rechecks(version: nat, entityIds: set<EntityId>, update: EntityUpdate)
  {
    version < update.version && !(update.updatedEntityIds !! entityIds)
  }

  /** The state of an operation after an entity update has been applied to it. */
  function Rechecked(s: OperationState, update: EntityUpdate, now: nat): (r: OperationState)
    ensures r.version >= s.version
    ensures r.lastResult == s.lastResult && r.entityIds == s.entityIds && r.completed == s.completed
  {
    if Rechecks(s.version, s.entityIds, update) then s.(version := update.version, lastModified := now) else s
  }

  /** A stale update, one whose version is not newer than the operation's, never rechecks it. */
  lemma StaleUpdateIgnored(s: OperationState, update: EntityUpdate, now: nat)
    requires update.version <= s.version
    ensures Rechecked(s, update, now) == s
  {
  }

  /** `ops` lists the entries of `m`, one record per request, in some order: its last record
      is an entry of `m` and the rest lists the other entries. */
  ghost predicate Enumerates(ops: seq<StoredOperationVersion>, m: map<OperationRequest, StoredOperationVersion>)
    decreases |ops|
  {
    if ops == [] then m == map[]
    else
      var v := ops[|ops| - 1];
      v.request in m && m[v.request] == v && Enumerates(ops[..|ops| - 1], m - {v.request})
  }

  /** Appending the record of a request not yet listed keeps the enumeration exact. */
  lemma EnumeratesAppend(ops: seq<StoredOperationVersion>, m: map<OperationRequest, StoredOperationVersion>, v: StoredOperationVersion)
    requires Enumerates(ops, m) && v.request !in m
    ensures Enumerates(ops + [v], m[v.request := v])
  {
    assert (ops + [v])[..|ops|] == ops;
    assert m[v.request := v] - {v.request} == m;
  }

  /** An enumeration is empty exactly when the map is. */
  lemma EnumeratesEmpty(ops: seq<StoredOperationVersion>, m: map<OperationRequest, StoredOperationVersion>)
    requires Enumerates(ops, m)
    ensures ops == [] <==> m == map[]
  {
    if ops != [] {
      assert ops[|ops| - 1].request in m;
    }
  }

  /** What an enumeration means: as many records as entries, each record equal to the entry
      of its request, and no request listed twice. */
  lemma {:induction false} EnumeratesExactly(ops: seq<StoredOperationVersion>, m: map<OperationRequest, StoredOperationVersion>)
    requires Enumerates(ops, m)
    ensures |ops| == |m|
    ensures forall i :: 0 <= i < |ops| ==> ops[i].request in m && m[ops[i].request] == ops[i]
    ensures forall i, j :: 0 <= i < j < |ops| ==> ops[i].request != ops[j].request
    decreases |ops|
  {
    if ops != [] {
      var n := |ops| - 1;
      var v, rest, m' := ops[n], ops[..n], m - {ops[n].request};
      EnumeratesExactly(rest, m');
      assert m'.Keys == m.Keys - {v.request};
      forall i | 0 <= i < n
        ensures ops[i].request in m && m[ops[i].request] == ops[i] && ops[i].request != v.request
      {
        assert ops[i] == rest[i];
      }
    }
  }

  /** The record of the operation filed under `request` in state `s`. */
  function VersionOf(request: OperationRequest, s: OperationState): StoredOperationVersion
  {
    StoredOperationVersion(request, s.lastResult, s.subscribers, s.lastModified)
  }

  /** The records an entity update produces for the operations in `entries` it rechecks. */
  function StaleVersions(entries: map<OperationRequest, OperationState>, update: EntityUpdate, now: nat): map<OperationRequest, StoredOperationVersion>
  {
    map r | r in entries && Rechecks(entries[r].version, entries[r].entityIds, update) :: VersionOf(r, Rechecked(entries[r], update, now))
  }

  predicate Distinct<T(==)>(xs: seq<T>)
  {
    forall i, j :: 0 <= i < j < |xs| ==> xs[i] != xs[j]
  }

  /** The entries of `entries` whose requests occur in `order`. */
  function Restrict<V>(entries: map<OperationRequest, V>, order: seq<OperationRequest>): map<OperationRequest, V>
  {
    map r | r in entries && r in order :: entries[r]
  }

  /** Restricting to an order that lists every request keeps every entry. */
  lemma RestrictAll<V>(m: map<OperationRequest, V>, order: seq<OperationRequest>)
    requires forall r :: r in order <==> r in m
    ensures Restrict(m, order) == m
  {
  }

  /** The entries of `m` for the requests of `order`, in that order. */
  function ListOf(m: map<OperationRequest, StoredOperationVersion>, order: seq<OperationRequest>): (ops: seq<StoredOperationVersion>)
    ensures |ops| <= |order|
    decreases |order|
  {
    if order == [] then []
    else
      var r, rest := order[|order| - 1], ListOf(m, order[..|order| - 1]);
      if r in m then rest + [m[r]] else rest
  }

  /** The entries of a registry, each once, in the order the dictionary yields them. */
  method ListEntries(m: map<OperationRequest, StoredOperation>) returns (keys: seq<OperationRequest>, ops: seq<StoredOperation>)
    ensures Distinct(keys) && |ops| == |keys|
    ensures forall r :: r in keys <==> r in m
    ensures forall j :: 0 <= j < |keys| ==> keys[j] in m && ops[j] == m[keys[j]]
  {
    keys, ops := [], [];
    var pending := m.Keys;
    while pending != {}
      invariant pending <= m.Keys
      invariant Distinct(keys) && |ops| == |keys|
      invariant forall r :: r in keys <==> r in m && r !in pending
      invariant forall j :: 0 <= j < |keys| ==> keys[j] in m && ops[j] == m[keys[j]]
      decreases pending
    {
      var r :| r in pending;
      keys, ops := keys + [r], ops + [m[r]];
      pending := pending - {r};
    }
  }

  /** The records an entity update produces when the operations are visited in `order`. */
  function StaleList(entries: map<OperationRequest, OperationState>, order: seq<OperationRequest>, update: EntityUpdate, now: nat): (ops: seq<StoredOperationVersion>)
    ensures |ops| <= |order|
    decreases |order|
  {
    if order == [] then []
    else
      var r, rest := order[|order| - 1], StaleList(entries, order[..|order| - 1], update, now);
      if r in entries && Rechecks(entries[r].version, entries[r].entityIds, update)
      then rest + [VersionOf(r, Rechecked(entries[r], update, now))]
      else rest
  }

  /** Restricting to one more request adds at most that request's entry. */
  lemma RestrictSnoc<V>(entries: map<OperationRequest, V>, prefix: seq<OperationRequest>, r: OperationRequest)
    ensures Restrict(entries, prefix + [r]) ==
      if r in entries then Restrict(entries, prefix)[r := entries[r]] else Restrict(entries, prefix)
  {
    var m, m' := Restrict(entries, prefix), Restrict(entries, prefix + [r]);
    assert forall q :: q in prefix + [r] <==> q in prefix || q == r;
    if r in entries {
      assert m'.Keys == m.Keys + {r};
    } else {
      assert m'.Keys == m.Keys;
    }
  }

  /** Adding one entry to the operations adds its record exactly when the update rechecks it. */
  lemma StaleVersionsAdd(entries: map<OperationRequest, OperationState>, r: OperationRequest, s: OperationState, update: EntityUpdate, now: nat)
    requires r !in entries
    ensures StaleVersions(entries[r := s], update, now) ==
      if Rechecks(s.version, s.entityIds, update)
      then StaleVersions(entries, update, now)[r := VersionOf(r, Rechecked(s, update, now))]
      else StaleVersions(entries, update, now)
  {
    var m, m' := StaleVersions(entries, update, now), StaleVersions(entries[r := s], update, now);
    if Rechecks(s.version, s.entityIds, update) {
      assert m'.Keys == m.Keys + {r};
    } else {
      assert m'.Keys == m.Keys;
    }
  }

  /** Visiting every request once, in any order, lists exactly the records of the operations
      the update rechecks. */
  lemma {:induction false} StaleListEnumerates(entries: map<OperationRequest, OperationState>, order: seq<OperationRequest>, update: EntityUpdate, now: nat)
    requires Distinct(order)
    ensures Enumerates(StaleList(entries, order, update, now), StaleVersions(Restrict(entries, order), update, now))
    decreases |order|
  {
    if order == [] {
      assert StaleVersions(Restrict(entries, order), update, now) == map[];
    } else {
      var n := |order| - 1;
      var r, prefix := order[n], order[..n];
      assert order == prefix + [r];
      assert Distinct(prefix) by {
        forall i, j | 0 <= i < j < |prefix| ensures prefix[i] != prefix[j] {
          assert prefix[i] == order[i] && prefix[j] == order[j];
        }
      }
      assert r !in prefix by {
        forall i | 0 <= i < |prefix| ensures prefix[i] != r {
          assert prefix[i] == order[i];
        }
      }
      StaleListEnumerates(entries, prefix, update, now);
      RestrictSnoc(entries, prefix, r);
      if r in entries {
        StaleVersionsAdd(Restrict(entries, prefix), r, entries[r], update, now);
        if Rechecks(entries[r].version, entries[r].entityIds, update) {
          EnumeratesAppend(StaleList(entries, prefix, update, now), StaleVersions(Restrict(entries, prefix), update, now),
                           VersionOf(r, Rechecked(entries[r], update, now)));
        }
      }
    }
  }

  /** Listing every request once, in any order, lists exactly the entries of a map whose
      records are filed under their own requests. */
  lemma {:induction false} ListOfEnumerates(m: map<OperationRequest, StoredOperationVersion>, order: seq<OperationRequest>)
    requires Distinct(order)
    requires forall r :: r in m ==> m[r].request == r
    ensures Enumerates(ListOf(m, order), Restrict(m, order))
    decreases |order|
  {
    if order == [] {
      assert Restrict(m, order) == map[];
    } else {
      var n := |order| - 1;
      var r, prefix := order[n], order[..n];
      assert order == prefix + [r];
      assert Distinct(prefix) by {
        forall i, j | 0 <= i < j < |prefix| ensures prefix[i] != prefix[j] {
          assert prefix[i] == order[i] && prefix[j] == order[j];
        }
      }
      assert r !in prefix by {
        forall i | 0 <= i < |prefix| ensures prefix[i] != r {
          assert prefix[i] == order[i];
        }
      }
      ListOfEnumerates(m, prefix);
      RestrictSnoc(m, prefix, r);
      if r in m {
        assert m[r].request == r && r !in Restrict(m, prefix);
        EnumeratesAppend(ListOf(m, prefix), Restrict(m, prefix), m[r]);
      }
    }
  }

  /** The lazy projection `GetAll` hands out: the records of the operations `ops`, read from
      the operations at the moment they are enumerated, not when the projection was made. */
  function Records(ops: seq<StoredOperation>): (records: seq<StoredOperationVersion>)
    reads ops`lastResult, ops`subscribers, ops`lastModified
    ensures |records| == |ops|
    decreases |ops|
  {
    if ops == [] then [] else Records(ops[..|ops| - 1]) + [ops[|ops| - 1].Snapshot()]
  }

  /** Each element of the projection is the current record of the operation at its index. */
  lemma {:induction false} RecordsRead(ops: seq<StoredOperation>)
    ensures forall j :: 0 <= j < |ops| ==> Records(ops)[j] == ops[j].Snapshot()
    decreases |ops|
  {
    if ops != [] {
      RecordsRead(ops[..|ops| - 1]);
    }
  }

  /** Enumerated while `before` holds the operations' records, the projection lists exactly the
      entries of `before` for the requests `keys` the operations are filed under. */
  lemma {:induction false} RecordsListEntries(keys: seq<OperationRequest>, ops: seq<StoredOperation>, before: map<OperationRequest, StoredOperationVersion>)
    requires |ops| == |keys|
    requires forall j :: 0 <= j < |keys| ==> keys[j] in before && before[keys[j]] == ops[j].Snapshot()
    ensures Records(ops) == ListOf(before, keys)
    decreases |keys|
  {
    if keys != [] {
      var n := |keys| - 1;
      RecordsListEntries(keys[..n], ops[..n], before);
    }
  }

  /** The loop of `Clear`: completes the operations `ops`, filed under `keys`, in that order,
      listing each one's record; `before` holds their records. */
  method CompleteEach(keys: seq<OperationRequest>, ops: seq<StoredOperation>, ghost before: map<OperationRequest, StoredOperationVersion>)
    returns (snapshots: seq<StoredOperationVersion>)
    requires |ops| == |keys|
    requires forall j :: 0 <= j < |keys| ==> keys[j] in before && before[keys[j]] == ops[j].Snapshot()
    modifies ops`completed
    ensures forall j :: 0 <= j < |ops| ==> ops[j].State() == old(ops[j].State()).(completed := true)
    ensures snapshots == ListOf(before, keys)
  {
    snapshots := [];
    for i := 0 to |keys|
      invariant forall j :: 0 <= j < |ops| ==> ops[j].State() == old(ops[j].State()).(completed := ops[j].completed)
      invariant forall j :: 0 <= j < i ==> ops[j].completed
      invariant snapshots == ListOf(before, keys[..i])
    {
      assert keys[..i + 1][..i] == keys[..i];
      ops[i].Complete();
      snapshots := snapshots + [ops[i].Snapshot()];
    }
    assert keys[..|keys|] == keys;
  }

  /** The operations of the registry `m`, each once; their records enumerate `snapshots`, the
      registry's records. */
  method CaptureAll(m: map<OperationRequest, StoredOperation>, ghost snapshots: map<OperationRequest, StoredOperationVersion>)
    returns (ops: seq<StoredOperation>)
    requires forall r :: r in m ==> m[r].request == r
    requires snapshots == map r | r in m :: m[r].Snapshot()
    ensures forall j :: 0 <= j < |ops| ==> ops[j] in m.Values
    ensures Enumerates(Records(ops), snapshots)
  {
    var keys;
    keys, ops := ListEntries(m);
    RecordsListEntries(keys, ops, snapshots);
    ListOfEnumerates(snapshots, keys);
    RestrictAll(snapshots, keys);
    assert Enumerates(ListOf(snapshots, keys), snapshots);
  }

  /** Completes every operation of the registry `m`, listing each one's record; `before`
      holds their records. */
  method CompleteAll(m: map<OperationRequest, StoredOperation>, ghost before: map<OperationRequest, StoredOperationVersion>)
    returns (snapshots: seq<StoredOperationVersion>)
    requires forall r :: r in m ==> m[r].request == r
    requires before == map r | r in m :: m[r].Snapshot()
    modifies m.Values`completed
    ensures forall r :: r in m ==> m[r].State() == old(m[r].State()).(completed := true)
    ensures Enumerates(snapshots, before)
  {
    var keys, ops := ListEntries(m);
    snapshots := CompleteEach(keys, ops, before);
    forall r | r in m
      ensures m[r].State() == old(m[r].State()).(completed := true)
    {
      var j :| 0 <= j < |keys| && keys[j] == r;
      assert ops[j] == m[r];
    }
    ListOfEnumerates(before, keys);
    RestrictAll(before, keys);
  }

  /** The loop of `OnEntityUpdate`: visits the operations `ops`, filed under `keys`, in that
      order, rechecking each one the update makes stale and listing its record; `entries`
      is their state before. */
  method RecheckEach(keys: seq<OperationRequest>, ops: seq<StoredOperation>, update: EntityUpdate, now: nat,
                     ghost entries: map<OperationRequest, OperationState>)
    returns (updated: seq<StoredOperationVersion>)
    requires Distinct(keys) && |ops| == |keys|
    requires forall j :: 0 <= j < |keys| ==> ops[j].request == keys[j]
    requires forall j :: 0 <= j < |keys| ==> keys[j] in entries && entries[keys[j]] == ops[j].State()
    modifies ops`version, ops`lastModified
    ensures forall j :: 0 <= j < |ops| ==> ops[j].State() == Rechecked(old(ops[j].State()), update, now)
    ensures updated == StaleList(entries, keys, update, now)
  {
    updated := [];
    for i := 0 to |keys|
      invariant forall j :: 0 <= j < |ops| ==>
        ops[j].State() == (if j < i then Rechecked(old(ops[j].State()), update, now) else old(ops[j].State()))
      invariant updated == StaleList(entries, keys[..i], update, now)
    {
      assert keys[..i + 1][..i] == keys[..i];
      var operation := ops[i];
      assert forall j :: 0 <= j < |ops| && j != i ==> ops[j] != operation by {
        forall j | 0 <= j < |ops| && j != i ensures ops[j] != operation {
          assert keys[j] != keys[i];
        }
      }
      if operation.version < update.version && !(update.updatedEntityIds !! operation.entityIds) {
        operation.UpdateResult(update.version, now);
        operation.SnapshotIsVersionOf();
        updated := updated + [operation.Snapshot()];
      }
    }
    assert keys[..|keys|] == keys;
  }

  /** One cached operation. Its internals are not part of this model; the methods below
      state what the store relies on. `lastModified` is 0 until the first change. */
  class StoredOperation {
    const request: OperationRequest
    var lastResult: Option<OperationResult>
    var entityIds: set<EntityId>
    var version: nat
    var lastModified: nat
    var subscribers: nat
    var completed: bool

    constructor (request: OperationRequest)
      ensures this.request == request
      ensures State() == OperationState(None, {}, 0, 0, 0, false)
      ensures Consistent()
    {
      this.request := request;
      lastResult, entityIds, version, lastModified, subscribers, completed := None, {}, 0, 0, 0, false;
    }

    function State(): OperationState
      reads this
    {
      OperationState(lastResult, entityIds, version, lastModified, subscribers, completed)
    }

    function Snapshot(): StoredOperationVersion
      reads this`lastResult, this`subscribers, this`lastModified
    {
      StoredOperationVersion(request, lastResult, subscribers, lastModified)
    }

    /** The record read from the operation is the record of its state, so the records an entity
        update is specified to produce are those the store reads from the operations. */
    lemma SnapshotIsVersionOf()
      ensures Snapshot() == VersionOf(request, State())
    {
    }

    /** The dependencies are those of the result held: none without a result. */
    ghost predicate Consistent()
      reads this`lastResult, this`entityIds
    {
      entityIds == if lastResult.Some? then lastResult.value.entityIds else {}
    }

    /** Replaces the result; the dependencies and the version come with it. */
    method SetResult(result: OperationResult, now: nat)
      modifies this`lastResult, this`entityIds, this`version, this`lastModified
      ensures State() == old(State()).(lastResult := Some(result), entityIds := result.entityIds,
                                        version := result.version, lastModified := now)
      ensures Consistent()
    {
      lastResult, entityIds, version, lastModified := Some(result), result.entityIds, result.version, now;
    }

    /** Drops the result and, with it, its dependencies; subscribers stay. */
    method ClearResult(now: nat)
      modifies this`lastResult, this`entityIds, this`lastModified
      ensures State() == old(State()).(lastResult := None, entityIds := {}, lastModified := now)
      ensures Consistent()
    {
      lastResult, entityIds, lastModified := None, {}, now;
    }

    /** Re-reads the result against the entity store at `newVersion`. */
    method UpdateResult(newVersion: nat, now: nat)
      modifies this`version, this`lastModified
      ensures State() == old(State()).(version := newVersion, lastModified := now)
    {
      version, lastModified := newVersion, now;
    }

    /** Completes the subscribers' streams; no transition follows. */
    method Complete()
      modifies this`completed
      ensures State() == old(State()).(completed := true)
    {
      completed := true;
    }
  }

  /** The entity store, as far as the operation store uses it. */
  class EntityStore {
    var entityIds: set<EntityId>

    constructor (entityIds: set<EntityId>)
      ensures this.entityIds == entityIds
    {
      this.entityIds := entityIds;
    }

    /** One atomic update session that removes a range of entities. */
    method RemoveEntityRange(ids: set<EntityId>)
      modifies this
      ensures entityIds == old(entityIds) - ids
    {
      entityIds := entityIds - ids;
    }
  }

  class OperationStore {
    const entityStore: EntityStore
    var results: map<OperationRequest, StoredOperation>
    var updates: seq<OperationUpdate>
    var updatesCompleted: bool
    var listening: bool
    var disposed: bool

    /** Each entry is filed under its own request (so no object is filed twice), is live and
        depends on exactly the entities of the result it holds; the queue and the entity-store
        subscription close exactly when the store is disposed. */
    ghost predicate Valid()
      reads this`results, this`updatesCompleted, this`listening, this`disposed
      reads results.Values`completed, results.Values`lastResult, results.Values`entityIds
    {
      && Filed()
      && (forall r :: r in results ==> results[r].Consistent())
      && updatesCompleted == disposed
      && listening == !disposed
    }

    /** Each entry is filed under its own request and is live. */
    ghost predicate Filed()
      reads this`results, results.Values`completed
    {
      forall r :: r in results ==> results[r].request == r && !results[r].completed
    }

    /** The retain set: every entity some registered operation depends on. */
    ghost function RetainSet(): set<EntityId>
      reads this`results, results.Values`entityIds
    {
      set r, e | r in results && e in results[r].entityIds :: e
    }

    ghost function Entries(): map<OperationRequest, OperationState>
      reads this`results, results.Values
    {
      map r | r in results :: results[r].State()
    }

    ghost function Snapshots(): map<OperationRequest, StoredOperationVersion>
      reads this`results, results.Values
    {
      map r | r in results :: results[r].Snapshot()
    }

    constructor (entityStore: EntityStore)
      ensures Valid() && this.entityStore == entityStore
      ensures results == map[] && updates == [] && !disposed
    {
      this.entityStore := entityStore;
      results := map[];
      updates := [];
      updatesCompleted, listening, disposed := false, true, false;
    }

    /** `GetOrAddStoredOperation`: the registered operation for `request`, created and
        registered when there is none. */
    method GetOrAddStoredOperation(request: OperationRequest) returns (op: StoredOperation)
      requires Valid()
      modifies this`results
      ensures Valid()
      ensures results == old(results)[request := op] && op.request == request
      ensures request in old(results) ==> op == old(results[request])
      ensures request !in old(results) ==> fresh(op) && op.State() == OperationState(None, {}, 0, 0, 0, false)
    {
      if request in results {
        op := results[request];
      } else {
        op := new StoredOperation(request);
        results := results[request := op];
      }
    }

    /** `OnUpdate`: writes one record to the queue; a completed queue refuses it. */
    method Publish(kind: OperationUpdateKind, operations: seq<StoredOperationVersion>)
      modifies this`updates
      ensures updates == if updatesCompleted then old(updates) else old(updates) + [OperationUpdate(kind, operations)]
    {
      if !updatesCompleted {
        updates := updates + [OperationUpdate(kind, operations)];
      }
    }

    /** The ids of every entity some registered operation depends on, computed. */
    method CollectUsedEntityIds() returns (used: set<EntityId>)
      ensures used == RetainSet()
    {
      used := {};
      var pending := results.Keys;
      while pending != {}
        invariant pending <= results.Keys
        invariant used == set r, e | r in results.Keys - pending && e in results[r].entityIds :: e
        decreases pending
      {
        var r :| r in pending;
        ghost var before := used;
        used := used + results[r].entityIds;
        pending := pending - {r};
        assert used == set q, e | q in results.Keys - pending && e in results[q].entityIds :: e by {
          forall e | e in used ensures exists q :: q in results.Keys - pending && e in results[q].entityIds {
            if e !in before {
              assert e in results[r].entityIds;
            }
          }
        }
      }
    }

    /** `CleanEntityStore`: removes, in one session, every entity of the current snapshot that
        no registered operation depends on. */
    method CleanEntityStore()
      modifies entityStore
      ensures entityStore.entityIds == old(entityStore.entityIds) * RetainSet()
    {
      var used := CollectUsedEntityIds();
      entityStore.RemoveEntityRange(entityStore.entityIds - used);
    }

    /** `Set`: stores a result for `request`, creating the stored operation if needed, and
        enqueues one `Updated` record for it. */
    method Set(request: OperationRequest, result: OperationResult, now: nat) returns (status: Status)
      requires Valid()
      modifies this`results, this`updates, results.Values`lastResult, results.Values`entityIds
      modifies results.Values`version, results.Values`lastModified
      ensures Valid() && disposed == old(disposed)
      ensures old(disposed) ==> status == ObjectDisposed && results == old(results) &&
                                (forall r :: r in results ==> results[r].State() == old(results[r].State())) && updates == old(updates)
      ensures !old(disposed) ==>
        && status == Ok
        && request in results
        && results == old(results)[request := results[request]]
        && (request in old(results) ==> results[request] == old(results[request]))
        && (request !in old(results) ==> fresh(results[request]))
        && (request in old(results) ==>
              results[request].State() == old(results[request].State()).(lastResult := Some(result),
                entityIds := result.entityIds, version := result.version, lastModified := now))
        && (request !in old(results) ==>
              results[request].State() == OperationState(Some(result), result.entityIds, result.version, now, 0, false))
        && (forall r :: r in old(results) && r != request ==> results[r].State() == old(results[r].State()))
        && updates == old(updates) + [OperationUpdate(Updated, [results[request].Snapshot()])]
    {
      if disposed {
        return ObjectDisposed;
      }
      SetLive(request, result, now);
      status := Ok;
    }

    /** The work of `Set` on a live store. */
    method SetLive(request: OperationRequest, result: OperationResult, now: nat)
      requires Valid() && !updatesCompleted
      modifies this`results, this`updates, results.Values`lastResult, results.Values`entityIds
      modifies results.Values`version, results.Values`lastModified
      ensures request in results && results[request].Consistent()
      ensures results == old(results)[request := results[request]] && results[request].request == request
      ensures request in old(results) ==> results[request] == old(results[request])
      ensures request !in old(results) ==> fresh(results[request])
      ensures request in old(results) ==>
        results[request].State() == old(results[request].State()).(lastResult := Some(result),
          entityIds := result.entityIds, version := result.version, lastModified := now)
      ensures request !in old(results) ==>
        results[request].State() == OperationState(Some(result), result.entityIds, result.version, now, 0, false)
      ensures forall r :: r in old(results) && r != request ==> results[r].State() == old(results[r].State())
      ensures updates == old(updates) + [OperationUpdate(Updated, [results[request].Snapshot()])]
    {
      var op := GetOrAddStoredOperation(request);
      op.SetResult(result, now);
      Publish(Updated, [op.Snapshot()]);
    }

    /** `Reset`: clears the result of a registered operation (it stays registered), cleans the
        entity store and enqueues one `Removed` record for it; an unknown request changes
        nothing. */
    method Reset(request: OperationRequest, now: nat) returns (status: Status)
      requires Valid()
      modifies this`updates, results.Values`lastResult, results.Values`entityIds, results.Values`lastModified, entityStore
      ensures Valid() && disposed == old(disposed) && results == old(results)
      ensures old(disposed) || request !in old(results) ==>
        && status == (if old(disposed) then ObjectDisposed else Ok)
        && (forall r :: r in results ==> results[r].State() == old(results[r].State())) && updates == old(updates)
        && entityStore.entityIds == old(entityStore.entityIds)
      ensures !old(disposed) && request in old(results) ==>
        && status == Ok
        && results[request].State() == old(results[request].State()).(lastResult := None, entityIds := {}, lastModified := now)
        && (forall r :: r in results && r != request ==> results[r].State() == old(results[r].State()))
        && entityStore.entityIds <= RetainSet()
        && old(entityStore.entityIds) * RetainSet() <= entityStore.entityIds <= old(entityStore.entityIds)
        && updates == old(updates) + [OperationUpdate(Removed, [results[request].Snapshot()])]
    {
      if disposed {
        return ObjectDisposed;
      }
      status := Ok;
      if request in results {
        var op := results[request];
        op.ClearResult(now);
        CleanEntityStore();
        Publish(Removed, [op.Snapshot()]);
      }
    }

    /** `Remove`: unregisters an operation, completes it, cleans the entity store and
        enqueues one `Removed` record for it; an unknown request changes nothing. */
    method Remove(request: OperationRequest) returns (status: Status)
      requires Valid()
      modifies this`results, this`updates, results.Values`completed, entityStore
      ensures Valid() && disposed == old(disposed)
      ensures old(disposed) || request !in old(results) ==>
        && status == (if old(disposed) then ObjectDisposed else Ok)
        && results == old(results) && (forall r :: r in results ==> results[r].State() == old(results[r].State())) && updates == old(updates)
        && entityStore.entityIds == old(entityStore.entityIds)
      ensures !old(disposed) && request in old(results) ==>
        && status == Ok
        && results == old(results) - {request}
        && old(results[request]).State() == old(results[request].State()).(completed := true)
        && (forall r :: r in results ==> results[r].State() == old(results[r].State()))
        && entityStore.entityIds <= RetainSet()
        && old(entityStore.entityIds) * RetainSet() <= entityStore.entityIds <= old(entityStore.entityIds)
        && updates == old(updates) + [OperationUpdate(Removed, [old(results[request].Snapshot())])]
    {
      if disposed {
        return ObjectDisposed;
      }
      status := Ok;
      if request in results {
        RemoveOne(request);
      }
    }

    /** The work of `Remove` for a registered request on a live store. */
    method RemoveOne(request: OperationRequest)
      requires Filed() && !updatesCompleted && request in results
      modifies this`results, this`updates, results.Values`completed, entityStore
      ensures results == old(results) - {request}
      ensures old(results[request]).State() == old(results[request].State()).(completed := true)
      ensures forall r :: r in results ==> results[r].State() == old(results[r].State())
      ensures entityStore.entityIds == old(entityStore.entityIds) * RetainSet()
      ensures updates == old(updates) + [OperationUpdate(Removed, [old(results[request].Snapshot())])]
    {
      var op := results[request];
      results := results - {request};
      op.Complete();
      CleanEntityStore();
      Publish(Removed, [op.Snapshot()]);
    }

    /** `Clear`: unregisters and completes every operation, cleans the entity store (which,
        with nothing registered, empties it) and enqueues one `Removed` record listing all of
        them. */
    method Clear() returns (status: Status)
      requires Valid()
      modifies this`results, this`updates, results.Values`completed, entityStore
      ensures Valid() && disposed == old(disposed)
      ensures old(disposed) ==>
        && status == ObjectDisposed
        && results == old(results) && (forall r :: r in results ==> results[r].State() == old(results[r].State())) && updates == old(updates)
        && entityStore.entityIds == old(entityStore.entityIds)
      ensures !old(disposed) ==>
        && status == Ok
        && results == map[]
        && (forall r :: r in old(results) ==> old(results)[r].State() == old(results[r].State()).(completed := true))
        && entityStore.entityIds == {}
        && |updates| == |old(updates)| + 1
        && updates[..|old(updates)|] == old(updates)
        && updates[|old(updates)|].kind == Removed
        && Enumerates(updates[|old(updates)|].operations, old(Snapshots()))
    {
      if disposed {
        return ObjectDisposed;
      }
      var snapshots := RemoveAll();
      status := Ok;
    }

    /** The work of `Clear` on a live store. */
    method RemoveAll() returns (snapshots: seq<StoredOperationVersion>)
      requires Filed() && !updatesCompleted
      modifies this`results, this`updates, results.Values`completed, entityStore
      ensures results == map[]
      ensures forall r :: r in old(results) ==> old(results)[r].State() == old(results[r].State()).(completed := true)
      ensures entityStore.entityIds == {}
      ensures updates == old(updates) + [OperationUpdate(Removed, snapshots)]
      ensures Enumerates(snapshots, old(Snapshots()))
    {
      snapshots := DetachAll();
      CleanEntityStore();
      Publish(Removed, snapshots);
    }

    /** Unregisters and completes every operation, listing each one's record. */
    method DetachAll() returns (snapshots: seq<StoredOperationVersion>)
      requires Filed()
      modifies this`results, results.Values`completed
      ensures results == map[] && RetainSet() == {}
      ensures forall r :: r in old(results) ==> old(results)[r].State() == old(results[r].State()).(completed := true)
      ensures Enumerates(snapshots, old(Snapshots()))
    {
      var removed := results;
      results := map[];
      assert RetainSet() == {};
      snapshots := CompleteAll(removed, old(Snapshots()));
    }

    /** The loop of `OnEntityUpdate`: rechecks each registered operation the update makes
        stale, listing each rechecked operation's record. */
    method RecheckAll(update: EntityUpdate, now: nat) returns (updated: seq<StoredOperationVersion>)
      requires Filed()
      modifies results.Values`version, results.Values`lastModified
      ensures forall r :: r in results ==> results[r].State() == Rechecked(old(results[r].State()), update, now)
      ensures Enumerates(updated, StaleVersions(old(Entries()), update, now))
    {
      ghost var entries := Entries();
      var keys, ops := ListEntries(results);
      updated := RecheckEach(keys, ops, update, now, entries);
      forall r | r in results
        ensures results[r].State() == Rechecked(old(results[r].State()), update, now)
      {
        var j :| 0 <= j < |keys| && keys[j] == r;
      }
      StaleListEnumerates(entries, keys, update, now);
      RestrictAll(entries, keys);
    }

    /** `OnEntityUpdate`: rechecks every registered operation the update makes stale and
        enqueues one `Updated` record listing them, or none when there are none; ignored once
        disposed. */
    method OnEntityUpdate(update: EntityUpdate, now: nat)
      requires Valid()
      modifies this`updates, results.Values`version, results.Values`lastModified
      ensures Valid() && results == old(results)
      ensures old(disposed) ==> (forall r :: r in results ==> results[r].State() == old(results[r].State())) && updates == old(updates)
      ensures !old(disposed) ==>
        && (forall r :: r in results ==> results[r].State() == Rechecked(old(results[r].State()), update, now))
        && (StaleVersions(old(Entries()), update, now) == map[] ==> updates == old(updates))
        && (StaleVersions(old(Entries()), update, now) != map[] ==>
              && |updates| == |old(updates)| + 1
              && updates[..|old(updates)|] == old(updates)
              && updates[|old(updates)|].kind == Updated
              && Enumerates(updates[|old(updates)|].operations, StaleVersions(old(Entries()), update, now)))
    {
      if !disposed {
        var updated := RecheckAndPublish(update, now);
        assert forall r :: r in results ==> results[r].Consistent() == old(results[r].Consistent());
      }
    }

    /** The work of `OnEntityUpdate` on a live store. */
    method RecheckAndPublish(update: EntityUpdate, now: nat) returns (updated: seq<StoredOperationVersion>)
      requires Filed() && !updatesCompleted
      modifies this`updates, results.Values`version, results.Values`lastModified
      ensures forall r :: r in results ==> results[r].State() == Rechecked(old(results[r].State()), update, now)
      ensures Enumerates(updated, StaleVersions(old(Entries()), update, now))
      ensures updated == [] <==> StaleVersions(old(Entries()), update, now) == map[]
      ensures updates == old(updates) + if updated == [] then [] else [OperationUpdate(Updated, updated)]
    {
      ghost var stale := StaleVersions(Entries(), update, now);
      updated := RecheckAll(update, now);
      EnumeratesEmpty(updated, stale);
      if |updated| > 0 {
        Publish(Updated, updated);
      }
    }

    /** `TryGet`: the last result of a registered operation, when it has one. */
    method TryGet(request: OperationRequest) returns (status: Status, found: bool, result: Option<OperationResult>)
      requires Valid()
      ensures disposed ==> status == ObjectDisposed && !found && result.None?
      ensures !disposed ==> status == Ok
      ensures !disposed ==> (found <==> request in results && results[request].lastResult.Some?)
      ensures found ==> result == results[request].lastResult
      ensures !found ==> result.None?
    {
      if disposed {
        return ObjectDisposed, false, None;
      }
      status := Ok;
      if request in results && results[request].lastResult.Some? {
        found, result := true, results[request].lastResult;
      } else {
        found, result := false, None;
      }
    }

    /** `GetAll`: the registered operations, taken when it is called, projected lazily to
        their records. `Records(source)` is the enumeration; it reads each operation's fields
        whenever it is enumerated, so a later change to a listed operation shows through. */
    method GetAll() returns (status: Status, source: seq<StoredOperation>)
      requires Valid()
      ensures disposed ==> status == ObjectDisposed && source == []
      ensures !disposed ==>
        && status == Ok
        && (forall j :: 0 <= j < |source| ==> source[j] in results.Values)
        && Enumerates(Records(source), Snapshots())
    {
      if disposed {
        return ObjectDisposed, [];
      }
      status := Ok;
      source := CaptureAll(results, Snapshots());
    }

    /** `GetUsedEntityIds`: every entity id some registered operation depends on. */
    method GetUsedEntityIds() returns (status: Status, ids: seq<EntityId>)
      requires Valid()
      ensures disposed ==> status == ObjectDisposed && ids == []
      ensures !disposed ==> status == Ok && forall e :: e in ids <==> e in RetainSet()
    {
      if disposed {
        return ObjectDisposed, [];
      }
      status := Ok;
      var used := CollectUsedEntityIds();
      ids := [];
      var pending := used;
      while pending != {}
        invariant pending <= used
        invariant forall e :: e in ids <==> e in used - pending
        decreases pending
      {
        var e :| e in pending;
        ids := ids + [e];
        pending := pending - {e};
      }
    }

    /** `Watch(request)`, registry side: the registered operation for `request`, created when
        there is none. */
    method Watch(request: OperationRequest) returns (status: Status, op: StoredOperation?)
      requires Valid()
      modifies this`results
      ensures Valid() && disposed == old(disposed)
      ensures old(disposed) ==> status == ObjectDisposed && op == null && results == old(results)
      ensures !old(disposed) ==>
        && status == Ok && op != null
        && results == old(results)[request := op]
        && (request in old(results) ==> op == old(results[request]))
        && (request !in old(results) ==> fresh(op) && op.State() == OperationState(None, {}, 0, 0, 0, false))
    {
      if disposed {
        return ObjectDisposed, null;
      }
      var stored := GetOrAddStoredOperation(request);
      return Ok, stored;
    }

    /** `Dispose`: completes the queue, stops listening to the entity store and marks the store
        disposed; a second call does nothing. */
    method Dispose()
      requires Valid()
      modifies this
      ensures Valid() && disposed && updatesCompleted && !listening
      ensures results == old(results) && updates == old(updates)
      ensures old(disposed) ==> unchanged(this)
    {
      if !disposed {
        updatesCompleted := true;
        listening := false;
        disposed := true;
      }
    }
  }
}
