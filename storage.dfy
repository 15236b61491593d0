/** The offline record store and pending-operation queue of
    web/src/lib/storage.ts, with the IndexedDB database replaced by one
    explicitly constructed in-memory object. */
module Storage {
  import opened Values
  import opened Records

  /** One object store: records keyed by the value of their `id` field. */
  type Store = map<Value, Record>

  type Stores = map<StoreName, Store>

  type Queue = map<string, PendingOp>

  /** IndexedDB refuses a `put` whose value has no `id`, or an `id` that is not a valid key. */
  datatype StorageError = DataError

  const AllStores: set<StoreName> := {Reflections, Virtues, Reframes, Challenges, MoodLogs}

  /** The object stores `clearLocalStorage` empties, in the order it empties them. */
  datatype Target = RecordStore(name: StoreName) | PendingStore

  const ClearOrder: seq<Target> := [RecordStore(Reflections), RecordStore(Virtues), RecordStore(Reframes),
                                    RecordStore(Challenges), RecordStore(MoodLogs), PendingStore]

  /** All five stores exist and every record sits under its own `id`. */
  ghost predicate StoresValid(stores: Stores) {
    && (forall s: StoreName :: s in stores)
    && (forall s, k :: s in stores && k in stores[s] ==> stores[s][k].KeyedAt(k))
  }

  /** Every queued operation sits under its own `id`. */
  ghost predicate QueueValid(pending: Queue) {
    forall k :: k in pending ==> pending[k].id == k
  }

  /** `put`: insert the record under its `id`, replacing any record held there. */
  function Put(stores: Stores, s: StoreName, r: Record): Stores
    requires s in stores && "id" in r.fields
  {
    stores[s := stores[s][r.fields["id"] := r]]
  }

  /** markAsSynced's effect: the record under `id`, if any, gets `_synced = true`. */
  function Marked(stores: Stores, s: StoreName, id: Value): Stores
    requires s in stores
  {
    if id in stores[s] then stores[s := stores[s][id := stores[s][id].(synced := true)]] else stores
  }

  /** `delete`: drop the key, if present. */
  function Removed(stores: Stores, s: StoreName, id: Value): Stores
    requires s in stores
  {
    stores[s := stores[s] - {id}]
  }

  /** Insert `op` into a timestamp-ordered sequence, after every operation
      with the same or an earlier timestamp. */
  function InsertByTime(ops: seq<PendingOp>, op: PendingOp): (r: seq<PendingOp>)
    requires SortedByTime(ops)
    ensures SortedByTime(r)
    ensures multiset(r) == multiset(ops) + multiset{op}
  {
    if ops == [] || op.timestamp < ops[0].timestamp then
      [op] + ops
    else
      var tail := InsertByTime(ops[1..], op);
      assert ops == [ops[0]] + ops[1..];
      PrependKeepsSorted(ops, op, tail);
      [ops[0]] + tail
  }

  /** The head of a sorted sequence goes before the result of inserting a
      no-earlier operation into the rest. */
  lemma PrependKeepsSorted(ops: seq<PendingOp>, op: PendingOp, tail: seq<PendingOp>)
    requires ops != [] && SortedByTime(ops) && ops[0].timestamp <= op.timestamp
    requires SortedByTime(tail) && multiset(tail) == multiset(ops[1..]) + multiset{op}
    ensures SortedByTime([ops[0]] + tail)
  {
    var r := [ops[0]] + tail;
    forall j | 0 <= j < |tail| ensures ops[0].timestamp <= tail[j].timestamp {
      assert tail[j] in multiset(tail);
      if tail[j] != op {
        assert tail[j] in multiset(ops[1..]);
        assert tail[j] in ops[1..];
      }
    }
    forall i, j | 0 <= i < j < |r| ensures r[i].timestamp <= r[j].timestamp {
      assert r[j] == tail[j - 1];
      if i > 0 {
        assert r[i] == tail[i - 1];
      }
    }
  }

  lemma AllStoresComplete()
    ensures forall s: StoreName :: s in AllStores
  {
    forall s: StoreName ensures s in AllStores {
      match s
      case Reflections =>
      case Virtues =>
      case Reframes =>
      case Challenges =>
      case MoodLogs =>
    }
  }

  class LocalStore {
    /** The five record stores. */
    var stores: Stores
    /** The `pending` store, keyed by operation id. */
    var pending: Queue

    ghost predicate Valid()
      reads this
    {
      StoresValid(stores) && QueueValid(pending)
    }

    /** An opened, empty database. */
    constructor ()
      ensures Valid()
      ensures forall s: StoreName :: stores[s] == map[]
      ensures pending == map[]
    {
      AllStoresComplete();
      stores := map s | s in AllStores :: map[];
      pending := map[];
    }

    /** saveToLocalStorage: an upsert keyed by `data.id`. */
    method Save(s: StoreName, data: Object, userId: Option<string>, freshId: string, createdAt: string)
      returns (res: Result<Record, StorageError>)
      requires Valid()
      modifies this
      ensures Valid() && pending == old(pending)
      ensures res.Success? <==> "id" in data && IsKey(data["id"])
      ensures res.Success? ==> res.value == WithMetadata(data, userId, freshId, createdAt)
      ensures res.Success? ==> stores == Put(old(stores), s, res.value)
      ensures res.Success? ==> GetById(s, data["id"]) == Some(res.value)
      ensures res.Success? ==> data["id"] in GetAll(s, userId)
      ensures res.Failure? ==> stores == old(stores)
    {
      var r := WithMetadata(data, userId, freshId, createdAt);
      if "id" in data && IsKey(data["id"]) {
        stores := Put(stores, s, r);
        res := Success(r);
      } else {
        res := Failure(DataError);
      }
    }

    /** getFromLocalStorage: a snapshot of one store, filtered by owner
        unless the user is absent, empty or 'anonymous'. */
    function GetAll(s: StoreName, userId: Option<string>): (r: Store)
      reads this
      requires Valid()
      ensures Owner(userId) == Anonymous ==> r == stores[s]
      ensures Owner(userId) != Anonymous ==>
                forall k :: k in r <==> k in stores[s] && stores[s][k].userId == userId.value
      ensures forall k :: k in r ==> k in stores[s] && r[k] == stores[s][k]
    {
      if userId.Some? && userId.value != "" && userId.value != Anonymous then
        map k | k in stores[s] && stores[s][k].userId == userId.value :: stores[s][k]
      else
        stores[s]
    }

    /** getByIdFromLocalStorage. */
    function GetById(s: StoreName, id: Value): (r: Option<Record>)
      reads this
      requires Valid()
      ensures r.Some? <==> id in stores[s]
      ensures r.Some? ==> r.value == stores[s][id] && r.value.KeyedAt(id)
    {
      if id in stores[s] then Some(stores[s][id]) else None
    }

    /** deleteFromLocalStorage: removes only that key; an absent key is no error. */
    method Delete(s: StoreName, id: Value)
      requires Valid()
      modifies this
      ensures Valid() && pending == old(pending)
      ensures stores == Removed(old(stores), s, id)
      ensures GetById(s, id) == None
    {
      stores := Removed(stores, s, id);
    }

    /** clearLocalStorage: empties the five record stores and the queue, one after the other. */
    method Clear()
      requires Valid()
      modifies this
      ensures Valid()
      ensures forall s: StoreName :: stores[s] == map[] && GetAll(s, None) == map[]
      ensures pending == map[]
    {
      var i := 0;
      while i < |ClearOrder|
        invariant 0 <= i <= |ClearOrder|
        invariant Valid()
        invariant forall j :: 0 <= j < i && ClearOrder[j].RecordStore? ==> stores[ClearOrder[j].name] == map[]
        invariant i == |ClearOrder| ==> pending == map[]
      {
        match ClearOrder[i] {
          case RecordStore(name) => stores := stores[name := map[]];
          case PendingStore => pending := map[];
        }
        i := i + 1;
      }
      forall s: StoreName ensures stores[s] == map[] {
        match s
        case Reflections => assert ClearOrder[0] == RecordStore(s);
        case Virtues => assert ClearOrder[1] == RecordStore(s);
        case Reframes => assert ClearOrder[2] == RecordStore(s);
        case Challenges => assert ClearOrder[3] == RecordStore(s);
        case MoodLogs => assert ClearOrder[4] == RecordStore(s);
      }
    }

    /** markAsSynced: sets `_synced` on the record under `id`; a no-op when there is none. */
    method MarkAsSynced(s: StoreName, id: Value)
      requires Valid()
      modifies this
      ensures Valid() && pending == old(pending)
      ensures stores == Marked(old(stores), s, id)
      ensures id !in GetUnsynced(s)
    {
      MarkedKeepsStoresValid(stores, s, id);
      if id in stores[s] {
        var r := stores[s][id];
        stores := stores[s := stores[s][id := r.(synced := true)]];
      }
    }

    /** getUnsyncedData: the records of one store whose `_synced` is falsy. */
    function GetUnsynced(s: StoreName): (r: Store)
      reads this
      requires Valid()
      ensures forall k :: k in r <==> k in stores[s] && !stores[s][k].synced
      ensures forall k :: k in r ==> r[k] == stores[s][k]
    {
      map k | k in stores[s] && !stores[s][k].synced :: stores[s][k]
    }

    /** addToPendingQueue: `freshId` and `now` stand for `crypto.randomUUID()` and
        `Date.now()`. Like the `put` it models, a reused id replaces the old operation. */
    method AddToPendingQueue(table: string, action: Action, data: Object, freshId: string, now: int)
      requires Valid()
      modifies this
      ensures Valid() && stores == old(stores)
      ensures pending == old(pending)[freshId := PendingOp(freshId, table, action, data, now)]
      ensures freshId !in old(pending) ==> |pending| == |old(pending)| + 1
    {
      pending := pending[freshId := PendingOp(freshId, table, action, data, now)];
    }

    /** getPendingSync: every queued operation, in timestamp order, none removed. */
    method GetPendingSync() returns (ops: seq<PendingOp>)
      ensures SortedByTime(ops)
      ensures multiset(ops) == multiset(pending.Values)
    {
      ops := [];
      var rest := pending.Values;
      while rest != {}
        invariant rest <= pending.Values
        invariant SortedByTime(ops)
        invariant multiset(ops) + multiset(rest) == multiset(pending.Values)
        decreases rest
      {
        var op :| op in rest;
        ops := InsertByTime(ops, op);
        assert multiset(rest - {op}) + multiset{op} == multiset(rest);
        rest := rest - {op};
      }
    }

    /** removeFromPendingQueue: removes only that operation; an absent id is no error. */
    method RemoveFromPendingQueue(id: string)
      requires Valid()
      modifies this
      ensures Valid() && stores == old(stores)
      ensures pending == old(pending) - {id}
    {
      pending := pending - {id};
    }
  }

  /** Saving twice under the same `id` leaves one record, the second;
      the other keys and the other stores are untouched. */
  lemma PutIsUpsert(stores: Stores, s: StoreName, r1: Record, r2: Record, t: StoreName, k: Value)
    requires s in stores && t in stores && "id" in r1.fields && "id" in r2.fields
    requires r1.fields["id"] == r2.fields["id"]
    ensures Put(Put(stores, s, r1), s, r2) == Put(stores, s, r2)
    ensures Put(stores, s, r2)[s][r2.fields["id"]] == r2
    ensures Put(stores, s, r2)[s].Keys == stores[s].Keys + {r2.fields["id"]}
    ensures (t != s || k != r2.fields["id"]) ==>
              (k in Put(stores, s, r2)[t] <==> k in stores[t]) &&
              (k in stores[t] ==> Put(stores, s, r2)[t][k] == stores[t][k])
  {
    var key := r2.fields["id"];
    assert Put(stores, s, r1)[s][key := r2] == stores[s][key := r2];
  }

  /** Deleting is idempotent and leaves every other key and store alone. */
  lemma RemovedIsIdempotent(stores: Stores, s: StoreName, id: Value, t: StoreName)
    requires s in stores && t in stores
    ensures Removed(Removed(stores, s, id), s, id) == Removed(stores, s, id)
    ensures id !in stores[s] ==> Removed(stores, s, id) == stores
    ensures Removed(stores, s, id)[s].Keys == stores[s].Keys - {id}
    ensures t != s ==> Removed(stores, s, id)[t] == stores[t]
  {
    assert (stores[s] - {id}) - {id} == stores[s] - {id};
    if id !in stores[s] {
      assert stores[s] - {id} == stores[s];
      assert stores[s := stores[s]] == stores;
    }
  }

  /** markAsSynced changes nothing but the one record's `_synced` flag, and
      marking twice is marking once. */
  lemma MarkedChangesOnlyTheFlag(stores: Stores, s: StoreName, id: Value)
    requires s in stores
    ensures Marked(stores, s, id).Keys == stores.Keys
    ensures Marked(stores, s, id)[s].Keys == stores[s].Keys
    ensures forall t :: t in stores && t != s ==> Marked(stores, s, id)[t] == stores[t]
    ensures id in stores[s] ==>
              var r := Marked(stores, s, id)[s][id];
              r.synced && r.fields == stores[s][id].fields && r.userId == stores[s][id].userId &&
              r.localId == stores[s][id].localId && r.createdAt == stores[s][id].createdAt
    ensures forall k :: k in stores[s] && k != id ==> Marked(stores, s, id)[s][k] == stores[s][k]
    ensures Marked(Marked(stores, s, id), s, id) == Marked(stores, s, id)
  {
    if id in stores[s] {
      var once: Stores := Marked(stores, s, id);
      assert once[s][id := once[s][id].(synced := true)] == once[s];
      assert once[s := once[s]] == once;
    }
  }

  /** Marking keeps every record under its own `id`. */
  lemma MarkedKeepsStoresValid(stores: Stores, s: StoreName, id: Value)
    requires StoresValid(stores)
    ensures StoresValid(Marked(stores, s, id))
  {
    var after: Stores := Marked(stores, s, id);
    forall t: StoreName, k: Value | t in after && k in after[t] ensures after[t][k].KeyedAt(k) {
      assert stores[t][k].KeyedAt(k);
    }
  }

  /** A snapshot of the queue holds each queued operation exactly once, so
      no two of its operations share an id. */
  lemma {:induction false} SnapshotIdsDistinct(pending: Queue, ops: seq<PendingOp>)
    requires QueueValid(pending)
    requires multiset(ops) == multiset(pending.Values)
    ensures forall i :: 0 <= i < |ops| ==> ops[i].id in pending && pending[ops[i].id] == ops[i]
    ensures forall i, j :: 0 <= i < j < |ops| ==> ops[i].id != ops[j].id
  {
    forall i | 0 <= i < |ops| ensures ops[i].id in pending && pending[ops[i].id] == ops[i] {
      assert ops[i] in multiset(ops);
      assert ops[i] in pending.Values;
    }
    forall i, j | 0 <= i < j < |ops| ensures ops[i].id != ops[j].id {
      assert ops == ops[..j] + ops[j..];
      assert ops[..j][i] == ops[i];
      assert ops[j..][0] == ops[j];
      assert multiset(ops)[ops[i]] <= 1;
      assert multiset(ops) == multiset(ops[..j]) + multiset(ops[j..]);
      assert ops[i] != ops[j];
    }
  }
}
