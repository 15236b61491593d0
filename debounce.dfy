/** The debounce timer of useAutosave (web/src/hooks/useAutosave.ts), with
    `setTimeout`/`clearTimeout` replaced by explicit events on a logical
    clock. */
module Debounce {
  import opened Values

  /** The one pending commit: the data the timer's closure captured, and the
      time at which it is due. */
  datatype Timer = Timer(data: Object, due: int)

  datatype Event =
    /** The effect re-runs because one of its dependencies changed: `data`,
        `delay`, `enabled`, `onSave` or `onError` (a new inline callback on
        each render restarts the timer on each render). */
    | Edit(data: Option<Object>, enabled: bool, delay: nat, now: int)
    /** The clock reads `now`; a timer due by then fires. */
    | Tick(now: int)
    /** The component unmounts. */
    | Teardown

  /** The pending timer after one event, and the snapshot committed by it, if any. */
  datatype Outcome = Outcome(timer: Option<Timer>, fired: Option<Object>)

  /** One event. The previous effect's cleanup clears the old timer before
      the effect body runs; a disabled hook or a falsy `data` schedules
      nothing new. */
  function Next(t: Option<Timer>, e: Event): Outcome {
    match e
    case Edit(data, enabled, delay, now) =>
      if !enabled || data.None? then Outcome(None, None)
      else Outcome(Some(Timer(data.value, now + delay)), None)
    case Tick(now) =>
      if t.Some? && t.value.due <= now then Outcome(None, Some(t.value.data))
      else Outcome(t, None)
    case Teardown =>
      Outcome(None, None)
  }

  /** The pending timer after a run of events from mount. */
  function Pending(evs: seq<Event>): Option<Timer> {
    if evs == [] then None else Next(Pending(evs[..|evs| - 1]), evs[|evs| - 1]).timer
  }

  /** The snapshot committed by event `k`, if any. */
  function FiredAt(evs: seq<Event>, k: nat): Option<Object>
    requires k < |evs|
  {
    Next(Pending(evs[..k]), evs[k]).fired
  }

  /** Every snapshot committed during a run of events, in order. */
  function Commits(evs: seq<Event>): seq<Object> {
    if evs == [] then []
    else
      var k := |evs| - 1;
      Commits(evs[..k]) + (if FiredAt(evs, k).Some? then [FiredAt(evs, k).value] else [])
  }

  /** An edit that schedules a commit. */
  ghost predicate Schedules(e: Event) {
    e.Edit? && e.enabled && e.data.Some?
  }

  function TimerOf(e: Event): Timer
    requires Schedules(e)
  {
    Timer(e.data.value, e.now + e.delay)
  }

  /** Event `i` scheduled a commit and every event up to (excluding) `k` is a
      tick that came before it was due. */
  ghost predicate QuietAfter(evs: seq<Event>, i: int, k: int) {
    && 0 <= i < k <= |evs|
    && Schedules(evs[i])
    && forall j :: i < j < k ==> evs[j].Tick? && evs[j].now < TimerOf(evs[i]).due
  }

  /** A pending commit was scheduled by the latest edit, and nothing since has
      cancelled or fired it. */
  lemma {:induction false} PendingIsLatestEdit(evs: seq<Event>)
    requires Pending(evs).Some?
    ensures exists i :: QuietAfter(evs, i, |evs|) && Pending(evs).value == TimerOf(evs[i])
  {
    var n := |evs|;
    var p := evs[..n - 1];
    var e := evs[n - 1];
    if Schedules(e) {
      assert QuietAfter(evs, n - 1, n);
    } else {
      assert e.Tick?;
      PendingIsLatestEdit(p);
      var i :| QuietAfter(p, i, |p|) && Pending(p).value == TimerOf(p[i]);
      assert p[i] == evs[i];
      assert QuietAfter(evs, i, n);
    }
  }

  /** Conversely, an edit followed only by early ticks leaves its commit pending. */
  lemma {:induction false} QuietEditIsPending(evs: seq<Event>, i: nat)
    requires QuietAfter(evs, i, |evs|)
    ensures Pending(evs) == Some(TimerOf(evs[i]))
  {
    var n := |evs|;
    var p := evs[..n - 1];
    if i < n - 1 {
      assert QuietAfter(p, i, |p|) by {
        forall j | i < j < |p| ensures p[j] == evs[j] { }
      }
      QuietEditIsPending(p, i);
    }
  }

  /** The first `k` events decide the first `k` of `Pending`. */
  lemma PrefixQuiet(evs: seq<Event>, i: int, k: nat)
    requires k <= |evs|
    ensures QuietAfter(evs[..k], i, k) <==> QuietAfter(evs, i, k)
  {
    if 0 <= i < k {
      assert evs[..k][i] == evs[i];
      assert forall j :: i < j < k ==> evs[..k][j] == evs[j];
    }
  }

  /** A commit that fires carries the data of the latest edit, due no later
      than the tick that fires it, with nothing but earlier ticks in between;
      and every such edit does commit on that tick. */
  lemma {:induction false} CommitIsLatestEdit(evs: seq<Event>, k: nat, d: Object)
    requires k < |evs|
    ensures FiredAt(evs, k) == Some(d) <==>
              evs[k].Tick? &&
              exists i :: QuietAfter(evs, i, k) && evs[i].data == Some(d) && TimerOf(evs[i]).due <= evs[k].now
  {
    var p := evs[..k];
    if FiredAt(evs, k) == Some(d) {
      PendingIsLatestEdit(p);
      var i :| QuietAfter(p, i, |p|) && Pending(p).value == TimerOf(p[i]);
      PrefixQuiet(evs, i, k);
      assert p[i] == evs[i];
    }
    if evs[k].Tick? && exists i :: QuietAfter(evs, i, k) && evs[i].data == Some(d) && TimerOf(evs[i]).due <= evs[k].now {
      var i :| QuietAfter(evs, i, k) && evs[i].data == Some(d) && TimerOf(evs[i]).due <= evs[k].now;
      PrefixQuiet(evs, i, k);
      assert p[i] == evs[i];
      QuietEditIsPending(p, i);
    }
  }

  /** Between two commits there is always a new scheduling edit: each edit
      commits at most once, and a teardown or a disabling edit cancels. */
  lemma CommitsAreSeparatedByEdits(evs: seq<Event>, k1: nat, k2: nat)
    requires k1 < k2 < |evs|
    requires FiredAt(evs, k1).Some? && FiredAt(evs, k2).Some?
    ensures exists i :: k1 < i < k2 && Schedules(evs[i])
  {
    var d := FiredAt(evs, k2).value;
    CommitIsLatestEdit(evs, k2, d);
    var i :| QuietAfter(evs, i, k2) && evs[i].data == Some(d) && TimerOf(evs[i]).due <= evs[k2].now;
    if i < k1 {
      assert QuietAfter(evs, i, k1);
      PrefixQuiet(evs, i, k1);
      QuietEditIsPending(evs[..k1], i);
    }
  }

  /** Teardown cancels: nothing pending, and no commit before a new edit. */
  lemma TeardownCancels(evs: seq<Event>, more: seq<Event>)
    requires forall e :: e in more ==> e.Tick?
    ensures Pending(evs + [Teardown]) == None
    ensures Commits(evs + [Teardown] + more) == Commits(evs)
  {
    var pre := evs + [Teardown];
    assert pre[..|pre| - 1] == evs;
    TicksAfterNothingCommit(pre, more);
    assert pre[..|evs|] == evs;
  }

  /** Ticks with nothing pending neither commit nor schedule. */
  lemma {:induction false} TicksAfterNothingCommit(evs: seq<Event>, more: seq<Event>)
    requires Pending(evs) == None
    requires forall e :: e in more ==> e.Tick?
    ensures Pending(evs + more) == None
    ensures Commits(evs + more) == Commits(evs)
  {
    if more != [] {
      var init := more[..|more| - 1];
      TicksAfterNothingCommit(evs, init);
      var all := evs + more;
      assert all[..|all| - 1] == evs + init;
      assert all[|all| - 1] == more[|more| - 1];
      assert more[|more| - 1] in more;
    } else {
      assert evs + more == evs;
    }
  }

  /** One more event extends the run by that event's outcome. */
  lemma RunStep(pre: seq<Event>, e: Event)
    ensures Pending(pre + [e]) == Next(Pending(pre), e).timer
    ensures FiredAt(pre + [e], |pre|) == Next(Pending(pre), e).fired
    ensures Commits(pre + [e]) == Commits(pre) + (if Next(Pending(pre), e).fired.Some? then [Next(Pending(pre), e).fired.value] else [])
  {
    assert (pre + [e])[..|pre|] == pre;
  }

  /** Edits S1 at 0, S2 at 200 and S3 at 900 with a quiet period of 1000:
      exactly one commit, of S3, on the first tick at or after 1900. */
  lemma DebounceExample(s1: Object, s2: Object, s3: Object)
    ensures var evs := [Edit(Some(s1), true, 1000, 0), Edit(Some(s2), true, 1000, 200),
                        Edit(Some(s3), true, 1000, 900), Tick(1000), Tick(1899), Tick(1900), Tick(3000)];
            Commits(evs) == [s3] && FiredAt(evs, 5) == Some(s3)
  {
    var e0: seq<Event> := [];
    RunStep(e0, Edit(Some(s1), true, 1000, 0));
    var e1 := e0 + [Edit(Some(s1), true, 1000, 0)];
    RunStep(e1, Edit(Some(s2), true, 1000, 200));
    var e2 := e1 + [Edit(Some(s2), true, 1000, 200)];
    RunStep(e2, Edit(Some(s3), true, 1000, 900));
    var e3 := e2 + [Edit(Some(s3), true, 1000, 900)];
    assert Pending(e3) == Some(Timer(s3, 1900)) && Commits(e3) == [];
    RunStep(e3, Tick(1000));
    var e4 := e3 + [Tick(1000)];
    RunStep(e4, Tick(1899));
    var e5 := e4 + [Tick(1899)];
    assert Pending(e5) == Some(Timer(s3, 1900)) && Commits(e5) == [];
    RunStep(e5, Tick(1900));
    var e6 := e5 + [Tick(1900)];
    assert FiredAt(e6, 5) == Some(s3);
    assert Pending(e6) == None && Commits(e6) == [s3];
    RunStep(e6, Tick(3000));
    var e7 := e6 + [Tick(3000)];
    assert e7[..5] == e5 && e7[5] == Tick(1900);
    assert FiredAt(e7, 5) == Some(s3);
    assert e7 == [Edit(Some(s1), true, 1000, 0), Edit(Some(s2), true, 1000, 200),
                  Edit(Some(s3), true, 1000, 900), Tick(1000), Tick(1899), Tick(1900), Tick(3000)];
  }
}
