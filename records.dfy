/** The records and pending operations kept by the local store
    (web/src/lib/storage.ts). */
module Records {
  import opened Values

  /** The five keyed record stores. */
  datatype StoreName = Reflections | Virtues | Reframes | Challenges | MoodLogs

  /** The owner stamped on a record saved without a user. */
  const Anonymous: string := "anonymous"

  /** The four fields saveToLocalStorage adds to every record. */
  const MetadataFields: set<string> := {"user_id", "_local_id", "_synced", "_created_at"}

  /** A stored record: the caller's fields (without the metadata names, which
      the save overrides) together with the four metadata fields. */
  datatype Record = Record(fields: Object, userId: string, localId: Value, synced: bool, createdAt: string)
  {
    /** No caller field shadows a metadata field. */
    predicate WellFormed() {
      fields.Keys !! MetadataFields
    }

    /** The JavaScript object IndexedDB holds for this record. */
    function ToObject(): Object {
      fields + map["user_id" := Str(userId), "_local_id" := localId,
                   "_synced" := Bool(synced), "_created_at" := Str(createdAt)]
    }

    /** The record sits in its store under the value of its `id` field. */
    predicate KeyedAt(k: Value) {
      WellFormed() && "id" in fields && fields["id"] == k
    }
  }

  /** `userId || 'anonymous'`: the owner of a record saved with this optional user. */
  function Owner(userId: Option<string>): (u: string)
    ensures u == Anonymous <==> userId.None? || userId.value == "" || userId.value == Anonymous
    ensures u != Anonymous ==> userId == Some(u)
  {
    if userId.Some? && userId.value != "" then userId.value else Anonymous
  }

  /** The object saveToLocalStorage writes for `data`: all of `data`, with
      `user_id`, `_local_id`, `_synced` and `_created_at` overriding whatever
      `data` held under those names. `freshId` and `createdAt` stand for
      `crypto.randomUUID()` and the current time. */
  function WithMetadata(data: Object, userId: Option<string>, freshId: string, createdAt: string): (r: Record)
    ensures r.WellFormed()
    ensures r.ToObject() == data + map["user_id" := Str(Owner(userId)), "_local_id" := r.localId,
                                       "_synced" := Bool(false), "_created_at" := Str(createdAt)]
    ensures forall k :: k in data && k !in MetadataFields ==> k in r.fields && r.fields[k] == data[k]
    ensures r.fields.Keys == data.Keys - MetadataFields
    ensures r.userId == Owner(userId) && !r.synced && r.createdAt == createdAt
    ensures FieldTruthy(data, "id") ==> r.localId == data["id"]
    ensures !FieldTruthy(data, "id") ==> r.localId == Str(freshId)
  {
    var localId := if FieldTruthy(data, "id") then data["id"] else Str(freshId);
    var r := Record(data - MetadataFields, Owner(userId), localId, false, createdAt);
    var meta := map["user_id" := Str(Owner(userId)), "_local_id" := localId,
                    "_synced" := Bool(false), "_created_at" := Str(createdAt)];
    assert meta.Keys == MetadataFields;
    assert r.ToObject() == data + meta;
    r
  }

  /** The action a pending operation asks the remote backend to perform. The
      store accepts any string, so an action other than the three known ones
      can reach the sync loop. */
  datatype Action = Insert | Update | Delete | Other(name: string)

  /** A queued mutation intent, keyed in the `pending` store by its `id`. */
  datatype PendingOp = PendingOp(id: string, table: string, action: Action, data: Object, timestamp: int)

  /** Ordered by the `by-timestamp` index. */
  ghost predicate SortedByTime(ops: seq<PendingOp>) {
    forall i, j :: 0 <= i < j < |ops| ==> ops[i].timestamp <= ops[j].timestamp
  }
}
