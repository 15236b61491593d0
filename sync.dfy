/** useSync (web/src/hooks/useAutosave.ts): one best-effort replay of a
    snapshot of the pending queue against the remote backend. The backend
    is an oracle that answers each call with success or failure, and the
    identity provider a flag saying whether a user is signed in. */
module Sync {
  import opened Values
  import opened Records
  import opened Storage

  /** The query the loop sends for an operation. Update and delete select the
      row by the payload's `id`, which may be missing. */
  datatype RemoteCall =
    | InsertRow(table: string, row: Object)
    | UpdateRow(table: string, id: Option<Value>, row: Object)
    | DeleteRow(table: string, id: Option<Value>)

  /** The switch has a case for the action. */
  predicate Dispatches(op: PendingOp) {
    !op.action.Other?
  }

  function PayloadId(op: PendingOp): Option<Value> {
    if "id" in op.data then Some(op.data["id"]) else None
  }

  function CallFor(op: PendingOp): (c: RemoteCall)
    requires Dispatches(op)
  {
    match op.action
    case Insert => InsertRow(op.table, op.data)
    case Update => UpdateRow(op.table, PayloadId(op), op.data)
    case Delete => DeleteRow(op.table, PayloadId(op))
  }

  /** The operation's remote call succeeds, so it is removed from the queue. */
  predicate Confirms(op: PendingOp, authenticated: bool, remote: PendingOp -> bool) {
    authenticated && Dispatches(op) && remote(op)
  }

  /** The operation's iteration runs to its end without throwing, so the
      progress is updated: signed in, and either confirmed or an action the
      switch has no case for. */
  predicate Completes(op: PendingOp, authenticated: bool, remote: PendingOp -> bool) {
    authenticated && (!Dispatches(op) || remote(op))
  }

  /** The calls a run over `ops` sends, in order. */
  function Sent(ops: seq<PendingOp>, authenticated: bool): seq<RemoteCall> {
    if ops == [] then []
    else
      var k := |ops| - 1;
      Sent(ops[..k], authenticated) + (if authenticated && Dispatches(ops[k]) then [CallFor(ops[k])] else [])
  }

  /** The ids a run over `ops` removes from the queue. */
  function Confirmed(ops: seq<PendingOp>, authenticated: bool, remote: PendingOp -> bool): set<string> {
    if ops == [] then {}
    else
      var k := |ops| - 1;
      Confirmed(ops[..k], authenticated, remote) + (if Confirms(ops[k], authenticated, remote) then {ops[k].id} else {})
  }

  /** `((i + 1) / n) * 100`, as an exact rational. */
  function Percent(done: nat, total: nat): real
    requires 0 < total
  {
    100.0 * (done as real) / (total as real)
  }

  /** The values `syncProgress` is set to while processing `ops`, the first
      operations of a snapshot of `total`: after operation i, when it
      completes, `(i + 1) / total * 100`. */
  function ProgressUpdates(ops: seq<PendingOp>, total: nat, authenticated: bool, remote: PendingOp -> bool): seq<real>
    requires |ops| <= total
  {
    if ops == [] then []
    else
      var k := |ops| - 1;
      ProgressUpdates(ops[..k], total, authenticated, remote)
      + (if Completes(ops[k], authenticated, remote) then [Percent(|ops|, total)] else [])
  }

  /** Every value `syncProgress` takes during a run over `snapshot`. */
  function ProgressTrace(snapshot: seq<PendingOp>, authenticated: bool, remote: PendingOp -> bool): seq<real> {
    [0.0] + ProgressUpdates(snapshot, |snapshot|, authenticated, remote) + [100.0]
  }

  class Syncer {
    var isSyncing: bool
    var syncProgress: real
    /** The values `syncProgress` took during the last run, in order. */
    ghost var progressTrace: seq<real>

    /** `syncProgress` holds the last value recorded in the trace. */
    ghost predicate Reported()
      reads this
    {
      |progressTrace| > 0 && syncProgress == progressTrace[|progressTrace| - 1]
    }

    constructor ()
      ensures !isSyncing && syncProgress == 0.0 && progressTrace == []
    {
      isSyncing := false;
      syncProgress := 0.0;
      progressTrace := [];
    }

    /** `sync()`: read the queue once, then replay that snapshot in order,
        removing an operation only when its remote call succeeded and going
        on past every failure. */
    method Sync(store: LocalStore, authenticated: bool, remote: PendingOp -> bool)
      returns (snapshot: seq<PendingOp>, sent: seq<RemoteCall>)
      requires store.Valid()
      modifies this, store
      ensures store.Valid() && store.stores == old(store.stores)
      ensures SortedByTime(snapshot) && multiset(snapshot) == multiset(old(store.pending).Values)
      ensures sent == Sent(snapshot, authenticated)
      ensures store.pending == old(store.pending) - Confirmed(snapshot, authenticated, remote)
      ensures progressTrace == ProgressTrace(snapshot, authenticated, remote)
      ensures syncProgress == 100.0 && !isSyncing && Reported()
    {
      isSyncing := true;
      syncProgress := 0.0;
      progressTrace := [0.0];
      snapshot := store.GetPendingSync();
      sent := [];
      if |snapshot| == 0 {
        syncProgress := 100.0;
        progressTrace := progressTrace + [100.0];
        isSyncing := false;
        return;
      }
      sent := ReplayAll(store, snapshot, authenticated, remote);
      syncProgress := 100.0;
      progressTrace := progressTrace + [100.0];
      isSyncing := false;
    }

    /** The `for` loop over the snapshot, with its per-operation `try`/`catch`. */
    method ReplayAll(store: LocalStore, snapshot: seq<PendingOp>, authenticated: bool, remote: PendingOp -> bool)
      returns (sent: seq<RemoteCall>)
      requires store.Valid()
      requires Reported()
      modifies this`syncProgress, this`progressTrace, store
      ensures store.Valid() && store.stores == old(store.stores)
      ensures sent == Sent(snapshot, authenticated)
      ensures store.pending == old(store.pending) - Confirmed(snapshot, authenticated, remote)
      ensures progressTrace == old(progressTrace) + ProgressUpdates(snapshot, |snapshot|, authenticated, remote)
      ensures Reported()
    {
      sent := [];
      var i := 0;
      assert snapshot[..0] == [];
      while i < |snapshot|
        invariant 0 <= i <= |snapshot|
        invariant store.Valid() && store.stores == old(store.stores)
        invariant store.pending == old(store.pending) - Confirmed(snapshot[..i], authenticated, remote)
        invariant sent == Sent(snapshot[..i], authenticated)
        invariant progressTrace == old(progressTrace) + ProgressUpdates(snapshot[..i], |snapshot|, authenticated, remote)
        invariant Reported()
      {
        var op := snapshot[i];
        ghost var before := store.pending;
        var call, threw := Replay(store, op, authenticated, remote);
        ghost var removed := if Confirms(op, authenticated, remote) then {op.id} else {};
        assert store.pending == before - removed;
        assert before - removed == old(store.pending) - (Confirmed(snapshot[..i], authenticated, remote) + removed);
        if call.Some? {
          sent := sent + [call.value];
        }
        if !threw {
          syncProgress := Percent(i + 1, |snapshot|);
          progressTrace := progressTrace + [syncProgress];
        }
        UnfoldRun(snapshot, i, authenticated, remote);
        i := i + 1;
      }
      assert snapshot[..|snapshot|] == snapshot;
    }
  }

  /** One iteration of the loop: check the user, send the call the action
      selects, and remove the operation when the call succeeded. A missing
      user or a failed call throws, which the loop catches. */
  method Replay(store: LocalStore, op: PendingOp, authenticated: bool, remote: PendingOp -> bool)
    returns (call: Option<RemoteCall>, threw: bool)
    requires store.Valid()
    modifies store
    ensures store.Valid() && store.stores == old(store.stores)
    ensures call == (if authenticated && Dispatches(op) then Some(CallFor(op)) else None)
    ensures threw == !Completes(op, authenticated, remote)
    ensures store.pending == old(store.pending) - (if Confirms(op, authenticated, remote) then {op.id} else {})
  {
    call, threw := None, false;
    if !authenticated {
      threw := true;
      return;
    }
    if Dispatches(op) {
      call := Some(CallFor(op));
      if remote(op) {
        store.RemoveFromPendingQueue(op.id);
      } else {
        threw := true;
      }
    }
  }

  /** What the run over the first `i + 1` operations adds to the run over the first `i`. */
  lemma UnfoldRun(snapshot: seq<PendingOp>, i: nat, authenticated: bool, remote: PendingOp -> bool)
    requires i < |snapshot|
    ensures var op := snapshot[i];
            && Sent(snapshot[..i + 1], authenticated) ==
                 Sent(snapshot[..i], authenticated) + (if authenticated && Dispatches(op) then [CallFor(op)] else [])
            && Confirmed(snapshot[..i + 1], authenticated, remote) ==
                 Confirmed(snapshot[..i], authenticated, remote) + (if Confirms(op, authenticated, remote) then {op.id} else {})
            && ProgressUpdates(snapshot[..i + 1], |snapshot|, authenticated, remote) ==
                 ProgressUpdates(snapshot[..i], |snapshot|, authenticated, remote)
                 + (if Completes(op, authenticated, remote) then [Percent(i + 1, |snapshot|)] else [])
  {
    assert snapshot[..i + 1][..i] == snapshot[..i];
  }

  lemma PercentBounds(a: nat, n: nat)
    requires 0 < a <= n
    ensures 0.0 < Percent(a, n) <= 100.0
    ensures a == n ==> Percent(a, n) == 100.0
  {
    var x, m := a as real, n as real;
    DivideMonotone(0.0, 100.0 * x, m);
    DivideMonotone(100.0 * x, 100.0 * m, m);
    assert 100.0 * m / m == 100.0;
  }

  lemma PercentIncreases(a: nat, b: nat, n: nat)
    requires 0 < a < b <= n
    ensures Percent(a, n) < Percent(b, n)
  {
    DivideMonotone(100.0 * (a as real), 100.0 * (b as real), n as real);
  }

  /** Division by a positive number keeps (strict) order. */
  lemma DivideMonotone(y: real, z: real, m: real)
    requires 0.0 < m && y <= z
    ensures y / m <= z / m
    ensures y < z ==> y / m < z / m
  {
  }

  /** Strictly increasing, every value in (0, top]. */
  ghost predicate IncreasingUpTo(u: seq<real>, top: real) {
    && (forall i, j :: 0 <= i < j < |u| ==> u[i] < u[j])
    && (forall i :: 0 <= i < |u| ==> 0.0 < u[i] <= top)
  }

  /** The progress set after the first operations strictly increases and stays
      within (0, the share of those operations]. */
  lemma {:induction false} ProgressUpdatesIncrease(ops: seq<PendingOp>, total: nat, authenticated: bool, remote: PendingOp -> bool)
    requires 0 < |ops| <= total
    ensures IncreasingUpTo(ProgressUpdates(ops, total, authenticated, remote), Percent(|ops|, total))
  {
    var k := |ops| - 1;
    var p := ops[..k];
    var u := ProgressUpdates(ops, total, authenticated, remote);
    var v := ProgressUpdates(p, total, authenticated, remote);
    PercentBounds(|ops|, total);
    if k > 0 {
      ProgressUpdatesIncrease(p, total, authenticated, remote);
      PercentIncreases(k, |ops|, total);
    } else {
      assert v == [];
    }
    assert u == v + (if Completes(ops[k], authenticated, remote) then [Percent(|ops|, total)] else []);
    assert forall i :: 0 <= i < |v| ==> 0.0 < v[i] < Percent(|ops|, total);
  }

  /** Progress never decreases during a run, starts at 0 and ends at 100,
      however many operations fail. */
  lemma ProgressNeverDecreases(snapshot: seq<PendingOp>, authenticated: bool, remote: PendingOp -> bool)
    ensures var t := ProgressTrace(snapshot, authenticated, remote);
            && t[0] == 0.0 && t[|t| - 1] == 100.0
            && forall i, j :: 0 <= i < j < |t| ==> t[i] <= t[j]
  {
    var t := ProgressTrace(snapshot, authenticated, remote);
    var u := ProgressUpdates(snapshot, |snapshot|, authenticated, remote);
    if snapshot != [] {
      ProgressUpdatesIncrease(snapshot, |snapshot|, authenticated, remote);
      PercentBounds(|snapshot|, |snapshot|);
    } else {
      assert u == [];
    }
    assert forall i :: 0 <= i < |u| ==> 0.0 < u[i] <= 100.0;
    assert t[0] == 0.0 && t[|t| - 1] == 100.0;
    forall i, j | 0 <= i < j < |t| ensures t[i] <= t[j] {
      if 0 < i {
        assert t[i] == u[i - 1];
        if j < |t| - 1 {
          assert t[j] == u[j - 1];
        }
      } else if j < |t| - 1 {
        assert t[j] == u[j - 1];
      }
    }
  }

  /** Without a signed-in user every operation throws before dispatch: no
      call is sent, nothing is removed, progress moves only from 0 to 100. */
  lemma {:induction false} UnauthenticatedRunChangesNothing(ops: seq<PendingOp>, total: nat, remote: PendingOp -> bool)
    requires |ops| <= total
    ensures Sent(ops, false) == []
    ensures Confirmed(ops, false, remote) == {}
    ensures ProgressUpdates(ops, total, false, remote) == []
    ensures |ops| == total ==> ProgressTrace(ops, false, remote) == [0.0, 100.0]
  {
    if ops != [] {
      UnauthenticatedRunChangesNothing(ops[..|ops| - 1], total, remote);
    }
  }

  /** The ids a run removes are those of the operations whose remote call succeeded. */
  lemma {:induction false} ConfirmedIds(ops: seq<PendingOp>, authenticated: bool, remote: PendingOp -> bool, x: string)
    ensures x in Confirmed(ops, authenticated, remote) <==>
              exists j :: 0 <= j < |ops| && ops[j].id == x && Confirms(ops[j], authenticated, remote)
  {
    if ops != [] {
      var k := |ops| - 1;
      var p := ops[..k];
      ConfirmedIds(p, authenticated, remote, x);
      assert forall j :: 0 <= j < k ==> p[j] == ops[j];
      if x in Confirmed(p, authenticated, remote) {
        var j :| 0 <= j < |p| && p[j].id == x && Confirms(p[j], authenticated, remote);
        assert ops[j] == p[j];
      }
    }
  }

  /** With distinct ids (as in any snapshot of the queue), an operation
      leaves the queue exactly when its own remote call succeeded. */
  lemma RemovedIffConfirmed(ops: seq<PendingOp>, authenticated: bool, remote: PendingOp -> bool, i: nat)
    requires i < |ops|
    requires forall a, b :: 0 <= a < b < |ops| ==> ops[a].id != ops[b].id
    ensures ops[i].id in Confirmed(ops, authenticated, remote) <==> Confirms(ops[i], authenticated, remote)
  {
    ConfirmedIds(ops, authenticated, remote, ops[i].id);
  }

  /** After a run over a snapshot of the queue, a queued operation is still
      queued exactly when its remote call did not succeed (or was never made). */
  lemma SyncKeepsExactlyUnconfirmed(pending: Queue, snapshot: seq<PendingOp>, authenticated: bool,
                                    remote: PendingOp -> bool, op: PendingOp)
    requires QueueValid(pending)
    requires multiset(snapshot) == multiset(pending.Values)
    requires op in pending.Values
    ensures op.id in pending
    ensures op.id in pending - Confirmed(snapshot, authenticated, remote) <==> !Confirms(op, authenticated, remote)
  {
    SnapshotIdsDistinct(pending, snapshot);
    assert op in multiset(snapshot);
    var i :| 0 <= i < |snapshot| && snapshot[i] == op;
    RemovedIffConfirmed(snapshot, authenticated, remote, i);
  }

  /** Signed in, with only known actions, the run sends one call per
      operation, in snapshot (timestamp) order. */
  lemma {:induction false} CallsFollowSnapshotOrder(ops: seq<PendingOp>)
    requires forall op :: op in ops ==> Dispatches(op)
    ensures |Sent(ops, true)| == |ops|
    ensures forall i :: 0 <= i < |ops| ==> Sent(ops, true)[i] == CallFor(ops[i])
  {
    if ops != [] {
      var k := |ops| - 1;
      assert forall op :: op in ops[..k] ==> op in ops;
      CallsFollowSnapshotOrder(ops[..k]);
      assert ops[k] in ops;
    }
  }

  /** Three queued operations; the second is refused by the backend. After one
      run only the second is queued, and progress reads 0, 1/3, 100, 100. */
  lemma PartialFailureExample(o1: PendingOp, o2: PendingOp, o3: PendingOp, remote: PendingOp -> bool)
    requires o1.action == Insert && o2.action == Update && o3.action == Insert
    requires o1.id != o2.id && o2.id != o3.id && o1.id != o3.id
    requires remote(o1) && !remote(o2) && remote(o3)
    ensures var q := map[o1.id := o1, o2.id := o2, o3.id := o3];
            q - Confirmed([o1, o2, o3], true, remote) == map[o2.id := o2]
    ensures Sent([o1, o2, o3], true) == [CallFor(o1), CallFor(o2), CallFor(o3)]
    ensures ProgressTrace([o1, o2, o3], true, remote) == [0.0, 100.0 / 3.0, 100.0, 100.0]
  {
    var ops := [o1, o2, o3];
    assert ops[..2] == [o1, o2];
    assert [o1, o2][..1] == [o1];
    assert [o1][..0] == [];
    assert Sent([o1], true) == [CallFor(o1)];
    assert Sent([o1, o2], true) == [CallFor(o1), CallFor(o2)];
    assert Confirmed([o1], true, remote) == {o1.id};
    assert Confirmed([o1, o2], true, remote) == {o1.id};
    assert ops[2] == o3 && Confirms(o3, true, remote);
    assert Confirmed(ops, true, remote) == Confirmed(ops[..2], true, remote) + {o3.id};
    assert Confirmed(ops, true, remote) == {o1.id, o3.id};
    var q := map[o1.id := o1, o2.id := o2, o3.id := o3];
    assert q - {o1.id, o3.id} == map[o2.id := o2];
    assert Percent(1, 3) == 100.0 / 3.0;
    assert Percent(3, 3) == 100.0;
    assert ProgressUpdates([o1], 3, true, remote) == [100.0 / 3.0];
    assert ProgressUpdates([o1, o2], 3, true, remote) == [100.0 / 3.0];
  }
}
