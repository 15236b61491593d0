/** useAutosave (web/src/hooks/useAutosave.ts): a debounced commit of the
    latest edit to the local store, with an observable status. */
module Autosave {
  import opened Values
  import opened Records
  import opened Storage
  import opened Debounce

  /** The table name the commit enqueues its insert under. */
  const ReflectionsTable: string := "reflections"

  datatype SaveStatus = Idle | Saving | Saved | Error

  /** The four steps of a commit, in the order they run. */
  datatype Step = SaveStep | EnqueueStep | MarkStep | NotifyStep

  /** What the outside world supplies to one commit: `crypto.randomUUID()`
      for the record and for the queued operation, the clock, and the step
      (if any) whose storage call or `onSave` callback throws. */
  datatype CommitEnv = CommitEnv(localId: string, createdAt: string, opId: string, timestamp: int,
                                 throwsAt: Option<Step>)

  /** A call the hook makes to one of the caller's callbacks. */
  datatype Callback = OnSave(saved: Object) | OnError(failed: Step)

  /** The storage step (1 to 3) at which committing `data` throws, if any:
      the save throws on a missing or invalid `id` as well. */
  function StorageFailsAt(data: Object, env: CommitEnv): Option<Step> {
    if env.throwsAt == Some(SaveStep) || !("id" in data && IsKey(data["id"])) then Some(SaveStep)
    else if env.throwsAt == Some(EnqueueStep) then Some(EnqueueStep)
    else if env.throwsAt == Some(MarkStep) then Some(MarkStep)
    else None
  }

  /** The step at which committing `data` throws, if any; `onSave` cannot
      throw when the caller gave none. */
  function FailsAt(data: Object, env: CommitEnv, hasOnSave: bool): Option<Step> {
    if StorageFailsAt(data, env).Some? then StorageFailsAt(data, env)
    else if hasOnSave && env.throwsAt == Some(NotifyStep) then Some(NotifyStep)
    else None
  }

  /** The record a commit saves: no user is passed, so it is owned by 'anonymous'. */
  function SavedRecord(data: Object, env: CommitEnv): Record {
    WithMetadata(data, None, env.localId, env.createdAt)
  }

  /** The insert a commit enqueues: the saved record, still unsynced. */
  function InsertOp(data: Object, env: CommitEnv): PendingOp {
    PendingOp(env.opId, ReflectionsTable, Insert, SavedRecord(data, env).ToObject(), env.timestamp)
  }

  /** The record stores after a commit: saved unless step 1 threw, marked
      by `_local_id` if step 3 ran. */
  function StoresAfter(stores: Stores, data: Object, env: CommitEnv): Stores
    requires Reflections in stores
  {
    var f := StorageFailsAt(data, env);
    if f == Some(SaveStep) then stores
    else
      var put := Put(stores, Reflections, SavedRecord(data, env));
      if f == Some(EnqueueStep) || f == Some(MarkStep) then put
      else Marked(put, Reflections, SavedRecord(data, env).localId)
  }

  /** The queue after a commit: the insert is added if step 2 ran. */
  function QueueAfter(pending: Queue, data: Object, env: CommitEnv): Queue {
    var f := StorageFailsAt(data, env);
    if f == Some(SaveStep) || f == Some(EnqueueStep) then pending
    else pending[env.opId := InsertOp(data, env)]
  }

  /** The callbacks a commit calls: `onSave` if step 4 is reached and given,
      then `onError` once if anything threw and it is given. */
  function CallsOf(data: Object, env: CommitEnv, hasOnSave: bool, hasOnError: bool): seq<Callback> {
    var f := FailsAt(data, env, hasOnSave);
    (if hasOnSave && (f.None? || f == Some(NotifyStep)) then [OnSave(SavedRecord(data, env).ToObject())] else [])
    + (if f.Some? && hasOnError then [OnError(f.value)] else [])
  }

  class Autosaver {
    /** The local store the hook writes to. */
    const store: LocalStore
    /** Whether the caller passed `onSave` and `onError`. */
    const hasOnSave: bool
    const hasOnError: bool
    /** `timeoutRef`: the live timer, if any. */
    var timer: Option<Timer>
    var isSaving: bool
    var status: SaveStatus
    /** Every status the hook has set, in order. */
    ghost var statuses: seq<SaveStatus>
    /** Every call made to the caller's callbacks, in order. */
    var calls: seq<Callback>

    ghost predicate Valid()
      reads this, store
    {
      store.Valid()
    }

    /** The hook mounts: nothing pending, not saving, status 'idle'. */
    constructor (store: LocalStore, hasOnSave: bool, hasOnError: bool)
      requires store.Valid()
      ensures Valid()
      ensures this.store == store && this.hasOnSave == hasOnSave && this.hasOnError == hasOnError
      ensures timer == None && !isSaving && status == Idle && statuses == [] && calls == []
    {
      this.store := store;
      this.hasOnSave := hasOnSave;
      this.hasOnError := hasOnError;
      timer := None;
      isSaving := false;
      status := Idle;
      statuses := [];
      calls := [];
    }

    /** The effect re-runs: the previous run's cleanup cancels the live
        timer; then, when enabled and given data, a new timer is set. */
    method Edit(data: Option<Object>, enabled: bool, delay: nat, now: int)
      modifies this`timer
      ensures timer == Next(old(timer), Event.Edit(data, enabled, delay, now)).timer
      ensures timer.Some? <==> enabled && data.Some?
      ensures timer.Some? ==> timer.value.data == data.value && timer.value.due == now + delay
    {
      timer := None;
      if !enabled || data.None? {
        return;
      }
      timer := Some(Timer(data.value, now + delay));
    }

    /** The component unmounts: the cleanup cancels the live timer. */
    method Teardown()
      modifies this`timer
      ensures timer == Next(old(timer), Event.Teardown).timer == None
    {
      timer := None;
    }

    /** The clock reads `now`: a timer due by then fires and commits the
        data it captured; otherwise nothing happens. */
    method Tick(now: int, env: CommitEnv)
      requires Valid()
      modifies this, store
      ensures Valid()
      ensures timer == Next(old(timer), Event.Tick(now)).timer
      ensures Next(old(timer), Event.Tick(now)).fired.None? ==>
                && store.stores == old(store.stores) && store.pending == old(store.pending)
                && status == old(status) && isSaving == old(isSaving)
                && statuses == old(statuses) && calls == old(calls)
      ensures Next(old(timer), Event.Tick(now)).fired.Some? ==>
                var data := Next(old(timer), Event.Tick(now)).fired.value;
                var ok := FailsAt(data, env, hasOnSave).None?;
                && store.stores == StoresAfter(old(store.stores), data, env)
                && store.pending == QueueAfter(old(store.pending), data, env)
                && !isSaving
                && status == (if ok then Saved else Error)
                && statuses == old(statuses) + [Saving, status]
                && calls == old(calls) + CallsOf(data, env, hasOnSave, hasOnError)
    {
      if timer.Some? && timer.value.due <= now {
        var data := timer.value.data;
        timer := None;
        Commit(data, env);
      }
    }

    /** The timer's callback: save, enqueue an insert, mark synced, call
        `onSave`; the first step that throws skips the rest. */
    method Commit(data: Object, env: CommitEnv)
      requires Valid()
      modifies this`isSaving, this`status, this`statuses, this`calls, store
      ensures Valid()
      ensures store.stores == StoresAfter(old(store.stores), data, env)
      ensures store.pending == QueueAfter(old(store.pending), data, env)
      ensures !isSaving
      ensures status == (if FailsAt(data, env, hasOnSave).None? then Saved else Error)
      ensures statuses == old(statuses) + [Saving, status]
      ensures calls == old(calls) + CallsOf(data, env, hasOnSave, hasOnError)
    {
      isSaving := true;
      status := Saving;
      statuses := statuses + [Saving];
      var failed := SaveQueueAndMark(data, env);
      if failed.None? && hasOnSave {
        calls := calls + [OnSave(SavedRecord(data, env).ToObject())];
        if env.throwsAt == Some(NotifyStep) {
          failed := Some(NotifyStep);
        }
      }
      if failed.None? {
        status := Saved;
      } else {
        status := Error;
        if hasOnError {
          calls := calls + [OnError(failed.value)];
        }
      }
      statuses := statuses + [status];
      isSaving := false;
    }

    /** Steps 1 to 3 of a commit, against the local store. */
    method SaveQueueAndMark(data: Object, env: CommitEnv) returns (failed: Option<Step>)
      requires Valid()
      modifies store
      ensures Valid()
      ensures failed == StorageFailsAt(data, env)
      ensures store.stores == StoresAfter(old(store.stores), data, env)
      ensures store.pending == QueueAfter(old(store.pending), data, env)
    {
      if env.throwsAt == Some(SaveStep) {
        return Some(SaveStep);
      }
      var res := store.Save(Reflections, data, None, env.localId, env.createdAt);
      if res.Failure? {
        return Some(SaveStep);
      }
      if env.throwsAt == Some(EnqueueStep) {
        return Some(EnqueueStep);
      }
      var saved := res.value;
      store.AddToPendingQueue(ReflectionsTable, Insert, saved.ToObject(), env.opId, env.timestamp);
      if env.throwsAt == Some(MarkStep) {
        return Some(MarkStep);
      }
      store.MarkAsSynced(Reflections, saved.localId);
      failed := None;
    }
  }

  /** After a commit whose three storage steps succeed, the record sits under its
      `id` with the caller's fields, owned by 'anonymous'; it is flagged
      synced exactly when its `id` is truthy, because markAsSynced looks it
      up by `_local_id`, which for a falsy `id` ("" or 0) is a fresh uuid. */
  lemma {:induction false} CommitStoresRecord(stores: Stores, data: Object, env: CommitEnv)
    requires StoresValid(stores)
    requires StorageFailsAt(data, env).None?
    requires env.localId != ""
    ensures "id" in data && IsKey(data["id"])
    ensures var after := StoresAfter(stores, data, env)[Reflections];
            var k := data["id"];
            && k in after
            && after[k].fields == data - MetadataFields
            && after[k].userId == Anonymous
            && (after[k].synced <==> FieldTruthy(data, "id"))
  {
    var r := SavedRecord(data, env);
    var put := Put(stores, Reflections, r);
    assert put[Reflections][data["id"]] == r;
    if !FieldTruthy(data, "id") {
      assert r.localId == Str(env.localId);
      assert data["id"] != Str(env.localId);
    }
  }

  /** The queued insert carries the saved record as it was before marking:
      every field of `data` except the metadata names, owner 'anonymous',
      `_synced = false`. */
  lemma QueuedInsertIsUnsynced(pending: Queue, data: Object, env: CommitEnv)
    requires StorageFailsAt(data, env) != Some(SaveStep)
    requires StorageFailsAt(data, env) != Some(EnqueueStep)
    ensures var q := QueueAfter(pending, data, env);
            && env.opId in q
            && q[env.opId].action == Insert && q[env.opId].table == ReflectionsTable
            && q[env.opId].timestamp == env.timestamp
            && q[env.opId].data["_synced"] == Bool(false)
            && q[env.opId].data["user_id"] == Str(Anonymous)
            && forall k :: k in data && k !in MetadataFields ==> q[env.opId].data[k] == data[k]
  {
  }

  /** A commit that throws leaves nothing of the steps after the failing one:
      a failed save writes nothing, and nothing is marked synced unless the
      mark step itself ran. */
  lemma {:induction false} FailedCommitSkipsLaterSteps(stores: Stores, pending: Queue, data: Object, env: CommitEnv)
    requires StoresValid(stores)
    requires StorageFailsAt(data, env).Some?
    ensures StorageFailsAt(data, env) == Some(SaveStep) ==>
              StoresAfter(stores, data, env) == stores && QueueAfter(pending, data, env) == pending
    ensures StorageFailsAt(data, env) == Some(EnqueueStep) ==> QueueAfter(pending, data, env) == pending
    ensures StorageFailsAt(data, env) in {Some(EnqueueStep), Some(MarkStep)} ==>
              var k := data["id"];
              k in StoresAfter(stores, data, env)[Reflections] &&
              !StoresAfter(stores, data, env)[Reflections][k].synced
  {
    if StorageFailsAt(data, env) in {Some(EnqueueStep), Some(MarkStep)} {
      assert Put(stores, Reflections, SavedRecord(data, env))[Reflections][data["id"]] == SavedRecord(data, env);
    }
  }
}
