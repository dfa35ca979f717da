/** Exactly when two hopes about the scheduler hold: that `get_next_job` never
    comes back empty-handed, and that the controller's verdict finds no job still
    running. Runs that defeat them are built for every other configuration. */
module SchedulerLimits {
  import opened Sums
  import opened JobPools
  import opened SchedulerProtocol
  import opened SchedulerSafety

  // ------------------------------------------------------------------------
  // Building runs.

  lemma DoAppend(c: Config, r: Run, acts: seq<Action>, a: Action)
    ensures DoAll(c, r, acts + [a]) == Do(c, DoAll(c, r, acts), a)
  {
    assert (acts + [a])[..|acts|] == acts;
  }

  lemma {:induction false} DoConcat(c: Config, r: Run, a: seq<Action>, b: seq<Action>)
    ensures DoAll(c, r, a + b) == DoAll(c, DoAll(c, r, a), b)
  {
    if b == [] {
      assert a + b == a;
    } else {
      var n := |b| - 1;
      assert a + b == (a + b[..n]) + [b[n]];
      DoConcat(c, r, a, b[..n]);
      DoAppend(c, r, a + b[..n], b[n]);
    }
  }

  lemma DoOne(c: Config, r: Run, a: Action)
    ensures DoAll(c, r, [a]) == Do(c, r, a)
  {
    DoAppend(c, r, [], a);
    assert [] + [a] == [a];
  }

  /** Manager m is about to poll its cluster k and has not been stopped. */
  predicate Ready(c: Config, s: State, m: nat, k: nat) {
    m < |s.managers| && k < c.perManager && s.managers[m].pc == Polling(k) && !s.managers[m].stopped
  }

  /** Cluster k of manager m reports success while jobs are left: four steps to
      the pop. */
  function Commit(m: nat): seq<Action> { [Poll(m, Succeeded), Step(m), Step(m), Step(m)] }

  lemma DoCommit(c: Config, r: Run, m: nat)
    ensures DoAll(c, r, Commit(m))
         == Do(c, Do(c, Do(c, Do(c, r, Poll(m, Succeeded)), Step(m)), Step(m)), Step(m))
  {
    hide Do;
    DoOne(c, r, Poll(m, Succeeded));
    var a := [Poll(m, Succeeded)];
    DoAppend(c, r, a, Step(m));
    DoAppend(c, r, a + [Step(m)], Step(m));
    DoAppend(c, r, a + [Step(m)] + [Step(m)], Step(m));
    assert Commit(m) == a + [Step(m)] + [Step(m)] + [Step(m)];
  }

  lemma CommitRun(c: Config, r: Run, m: nat, k: nat)
    requires Ready(c, r.s, m, k)
    ensures DoAll(c, r, Commit(m)) ==
      Run(At(r.s, m, if r.s.pool != [] then Popping(k) else SignallingDone),
          r.h.(unfinished := r.h.unfinished - {(m, k)}))
  {
    DoCommit(c, r, m);
    var ms := r.s.managers;
    var r1 := Do(c, r, Poll(m, Succeeded));
    assert r1.s == At(r.s, m, FirstCheck(k, Succeeded));
    var waiting := r.s.pool != [];
    var r2 := Do(c, r1, Step(m));
    assert r2.s == At(r.s, m, SecondCheck(k, Succeeded, waiting));
    var r3 := Do(c, r2, Step(m));
    assert r3.s == At(r.s, m, Branching(k, Succeeded, waiting, !waiting));
    var r4 := Do(c, r3, Step(m));
    assert r4.s == At(r.s, m, if waiting then Popping(k) else SignallingDone);
  }

  /** The pop and the dispatch. */
  lemma PopRun(c: Config, r: Run, m: nat, k: nat)
    requires m < |r.s.managers| && r.s.managers[m].pc == Popping(k) && !r.s.managers[m].stopped && r.s.pool != []
    ensures var r' := DoAll(c, r, [Step(m), Pipe(m, Sent)]);
      var job := r.s.pool[0];
      && r'.s == r.s.(pool := r.s.pool[1..], managers := r.s.managers[m := Manager(After(c, k), false, Some(job))])
      && r'.h.nones == r.h.nones
      && r'.h.unfinished == r.h.unfinished + if job.jobType.EXEC? then {(m, k)} else {}
  {
    DoOne(c, r, Step(m));
    DoAppend(c, r, [Step(m)], Pipe(m, Sent));
    assert [Step(m)] + [Pipe(m, Sent)] == [Step(m), Pipe(m, Sent)];
    var job := r.s.pool[0];
    var r1 := Do(c, r, Step(m));
    assert r1.s.managers == r.s.managers[m := Manager(Piping(k, job), false, Some(job))];
  }

  /** Only manager m has moved, and the controller has not looked. */
  ghost predicate OnlyMoved(m: nat, r: Run, r': Run) {
    && |r'.s.managers| == |r.s.managers|
    && (forall i | 0 <= i < |r.s.managers| && i != m :: r'.s.managers[i] == r.s.managers[i])
    && r'.s.scan == r.s.scan && r'.s.verdict == r.s.verdict && r'.h.nones == r.h.nones
  }

  /** From the top of the while loop to the first cluster. */
  lemma Restart(c: Config, r: Run, m: nat)
    requires m < |r.s.managers| && r.s.managers[m].pc == LoopTop && !r.s.managers[m].stopped
    ensures Do(c, r, Step(m)) == Run(At(r.s, m, Polling(0)), r.h)
  {
  }

  /** Manager m serves its cluster k with the oldest job and goes on to k'. */
  lemma ServeOne(c: Config, r: Run, m: nat, k: nat) returns (acts: seq<Action>, k': nat)
    requires c.Valid() && Ready(c, r.s, m, k) && r.s.pool != []
    ensures var r' := DoAll(c, r, acts);
      && OnlyMoved(m, r, r') && Ready(c, r'.s, m, k') && r'.s.status == r.s.status
      && r'.s.pool == r.s.pool[1..]
      && (r.s.pool[0].jobType.EXEC? ==> (m, k) in r'.h.unfinished)
      && (c.perManager > 1 ==> k' != k)
  {
    hide Do, DoAll;
    CommitRun(c, r, m, k);
    var r1 := DoAll(c, r, Commit(m));
    PopRun(c, r1, m, k);
    acts := Commit(m) + [Step(m), Pipe(m, Sent)];
    DoConcat(c, r, Commit(m), [Step(m), Pipe(m, Sent)]);
    var r2 := DoAll(c, r, acts);
    k' := k + 1;
    if k + 1 == c.perManager {
      DoAppend(c, r, acts, Step(m));
      Restart(c, r2, m);
      acts := acts + [Step(m)];
      k' := 0;
    }
  }

  lemma DoNothing(c: Config, r: Run)
    ensures DoAll(c, r, []) == r
  {
  }

  /** Manager m alone serves its clusters until `left` jobs remain. If it served
      at least one job, the last one it sent out may still be running. */
  lemma {:induction false} Drain(c: Config, r: Run, m: nat, k: nat, left: nat)
    returns (acts: seq<Action>, k': nat, last: nat)
    requires c.Valid() && Ready(c, r.s, m, k) && left <= |r.s.pool|
    ensures var r' := DoAll(c, r, acts);
      && OnlyMoved(m, r, r') && Ready(c, r'.s, m, k') && r'.s.status == r.s.status
      && r'.s.pool == r.s.pool[|r.s.pool| - left..]
      && (left < |r.s.pool| ==>
            && (c.perManager > 1 ==> k' != last)
            && (r.s.pool[|r.s.pool| - left - 1].jobType.EXEC? ==> (m, last) in r'.h.unfinished))
    decreases |r.s.pool|
  {
    hide Do, DoAll;
    if left == |r.s.pool| {
      acts, k', last := [], k, k;
      DoNothing(c, r);
    } else {
      var serve, k1 := ServeOne(c, r, m, k);
      var r1 := DoAll(c, r, serve);
      if left == |r1.s.pool| {
        acts, k', last := serve, k1, k;
      } else {
        var rest;
        rest, k', last := Drain(c, r1, m, k1, left);
        acts := serve + rest;
        DoConcat(c, r, serve, rest);
      }
    }
  }

  // ------------------------------------------------------------------------
  // Coming away empty-handed.

  lemma NoJobsStep(c: Config, r: Run, a: Action)
    requires r.s.pool == [] && r.h.nones == 0 && r.h.unfinished == {}
    requires forall m | 0 <= m < |r.s.managers| :: !Committed(r.s.managers[m].pc) && !r.s.managers[m].pc.Piping?
    ensures var r' := Do(c, r, a);
      && r'.s.pool == [] && r'.h.nones == 0 && r'.h.unfinished == {}
      && |r'.s.managers| == |r.s.managers|
      && forall m | 0 <= m < |r'.s.managers| :: !Committed(r'.s.managers[m].pc) && !r'.s.managers[m].pc.Piping?
  {
  }

  /** With nothing to do nobody ever expects a job. */
  lemma {:induction false} NoJobsNoRace(c: Config, acts: seq<Action>)
    requires c.jobs == []
    ensures var r := Exec(c, acts);
      && r.s.pool == [] && r.h.nones == 0 && r.h.unfinished == {}
      && |r.s.managers| == c.managers
      && forall m | 0 <= m < |r.s.managers| :: !Committed(r.s.managers[m].pc) && !r.s.managers[m].pc.Piping?
  {
    hide Do;
    if acts != [] {
      NoJobsNoRace(c, acts[..|acts| - 1]);
      NoJobsStep(c, Exec(c, acts[..|acts| - 1]), acts[|acts| - 1]);
    }
  }

  /** Managers i and later, still to start, all see a job in the pool. */
  lemma {:induction false} CommitRest(c: Config, r: Run, i: nat) returns (acts: seq<Action>)
    requires c.Valid() && i <= |r.s.managers| && r.s.pool != []
    requires forall m | i <= m < |r.s.managers| :: r.s.managers[m].pc == LoopTop && !r.s.managers[m].stopped
    ensures var r' := DoAll(c, r, acts);
      && |r'.s.managers| == |r.s.managers| && r'.s.pool == r.s.pool && r'.h.nones == r.h.nones
      && (forall m | 0 <= m < i :: r'.s.managers[m] == r.s.managers[m])
      && (forall m | i <= m < |r.s.managers| :: r'.s.managers[m].pc == Popping(0))
    decreases |r.s.managers| - i
  {
    hide Do, DoAll;
    if i == |r.s.managers| {
      acts := [];
      DoNothing(c, r);
    } else {
      DoOne(c, r, Step(i));
      Restart(c, r, i);
      var r1 := DoAll(c, r, [Step(i)]);
      CommitRun(c, r1, i, 0);
      var r2 := DoAll(c, r1, Commit(i));
      var rest := CommitRest(c, r2, i + 1);
      DoConcat(c, r, [Step(i)], Commit(i));
      DoConcat(c, r, [Step(i)] + Commit(i), rest);
      acts := [Step(i)] + Commit(i) + rest;
    }
  }

  lemma EmptyHanded(c: Config, r: Run, m: nat)
    requires m < |r.s.managers| && r.s.managers[m].pc.Popping? && r.s.pool == []
    ensures var r' := Do(c, r, Step(m));
      && r'.h.nones == r.h.nones + 1 && r'.s.pool == []
      && r'.s.managers == r.s.managers[m := r.s.managers[m].(pc := SignallingAbort)]
  {
  }

  /** Managers i and later are about to pop from an empty pool. */
  lemma {:induction false} EmptyRest(c: Config, r: Run, i: nat) returns (acts: seq<Action>)
    requires i <= |r.s.managers| && r.s.pool == []
    requires forall m | i <= m < |r.s.managers| :: r.s.managers[m].pc.Popping?
    ensures DoAll(c, r, acts).h.nones == r.h.nones + |r.s.managers| - i
    decreases |r.s.managers| - i
  {
    hide Do, DoAll;
    if i == |r.s.managers| {
      acts := [];
      DoNothing(c, r);
    } else {
      EmptyHanded(c, r, i);
      DoOne(c, r, Step(i));
      var rest := EmptyRest(c, DoAll(c, r, [Step(i)]), i + 1);
      DoConcat(c, r, [Step(i)], rest);
      acts := [Step(i)] + rest;
    }
  }

  /** All other managers see the last job in the pool, manager 0 takes it, and
      they all come away with None. */
  lemma RaceRun(c: Config) returns (acts: seq<Action>)
    requires c.Valid() && c.jobs != []
    ensures Exec(c, acts).h.nones == c.managers - 1
  {
    hide Do, DoAll;
    var r := Run(Init(c), EMPTY_HISTORY);
    DoOne(c, r, Step(0));
    Restart(c, r, 0);
    var r1 := DoAll(c, r, [Step(0)]);
    var drain, k, _ := Drain(c, r1, 0, 0, 1);
    DoConcat(c, r, [Step(0)], drain);
    acts := [Step(0)] + drain;
    var r2 := DoAll(c, r, acts);
    forall m | 1 <= m < |r2.s.managers|
      ensures r2.s.managers[m] == Manager(LoopTop, false, None)
    {
      assert r2.s.managers[m] == r1.s.managers[m] == r.s.managers[m];
    }
    var commit := CommitRest(c, r2, 1);
    DoConcat(c, r, acts, commit);
    acts := acts + commit;
    var r3 := DoAll(c, r, acts);
    assert r3.s.managers[0] == r2.s.managers[0];
    var serve, _ := ServeOne(c, r3, 0, k);
    DoConcat(c, r, acts, serve);
    acts := acts + serve;
    var r4 := DoAll(c, r, acts);
    forall m | 1 <= m < |r4.s.managers|
      ensures r4.s.managers[m].pc.Popping?
    {
      assert r4.s.managers[m] == r3.s.managers[m];
    }
    var empty := EmptyRest(c, r4, 1);
    DoConcat(c, r, acts, empty);
    acts := acts + empty;
  }

  /** The bound on empty-handed pops is reached, whatever the configuration. */
  lemma NoneBoundIsReached(c: Config)
    requires c.Valid() && c.jobs != []
    ensures exists acts: seq<Action> :: Exec(c, acts).h.nones == c.managers - 1
  {
    hide Exec;
    var acts := RaceRun(c);
  }

  /** `get_next_job` is never called on an empty pool, in any run, exactly when
      there is a single manager or nothing to do. */
  lemma NoNoneExactly(c: Config)
    requires c.Valid()
    ensures (forall acts: seq<Action> :: Exec(c, acts).h.nones == 0) <==> c.managers == 1 || c.jobs == []
  {
    hide Exec;
    if c.managers == 1 {
      forall acts: seq<Action>
        ensures Exec(c, acts).h.nones == 0
      {
        AtMostOneNonePerOtherManager(c, acts);
      }
    } else if c.jobs == [] {
      forall acts: seq<Action>
        ensures Exec(c, acts).h.nones == 0
      {
        NoJobsNoRace(c, acts);
      }
    } else {
      var acts := RaceRun(c);
    }
  }

  // ------------------------------------------------------------------------
  // Done while jobs are running.

  /** With one cluster per manager, a manager that last heard of success has no
      job of its own out, and only its own cluster 0 can have one. */
  predicate OutOk(x: Pc, out: bool) {
    match x
    case Polling(k) => k == 0
    case FirstCheck(k, report) => k == 0 && (report.Succeeded? ==> !out)
    case SecondCheck(k, report, _) => k == 0 && (report.Succeeded? ==> !out)
    case Branching(k, report, _, _) => k == 0 && (report.Succeeded? ==> !out)
    case Popping(k) => k == 0 && !out
    case Piping(k, _) => k == 0 && !out
    case SignallingDone => !out
    case Returned => !out
    case _ => true
  }

  ghost predicate OutInv(c: Config, r: Run) {
    && (forall p | p in r.h.unfinished :: p.1 == 0 && p.0 < c.managers)
    && forall m | 0 <= m < |r.s.managers| :: OutOk(r.s.managers[m].pc, (m, 0) in r.h.unfinished)
  }

  lemma OutMoves(c: Config, r: Run, a: Action)
    requires c.Valid() && c.perManager == 1 && DoneInv(c, r.s) && OutInv(c, r)
    requires !a.Scan? && a.m < |r.s.managers|
    ensures var r' := Do(c, r, a);
      && |r'.s.managers| == |r.s.managers|
      && OutOk(r'.s.managers[a.m].pc, (a.m, 0) in r'.h.unfinished)
      && (r'.h.unfinished == r.h.unfinished || r'.h.unfinished == r.h.unfinished - {(a.m, 0)}
          || r'.h.unfinished == r.h.unfinished + {(a.m, 0)})
      && forall i | 0 <= i < |r.s.managers| && i != a.m :: r'.s.managers[i] == r.s.managers[i]
  {
    assert PlaceOk(c, r.s.pool == [], r.s.managers[a.m].pc, r.s.status[a.m]);
    assert OutOk(r.s.managers[a.m].pc, (a.m, 0) in r.h.unfinished);
  }

  lemma OutStep(c: Config, r: Run, a: Action)
    requires c.Valid() && c.perManager == 1 && DoneInv(c, r.s) && OutInv(c, r)
    ensures OutInv(c, Do(c, r, a))
  {
    if !a.Scan? && a.m < |r.s.managers| {
      hide Do, OutOk;
      OutMoves(c, r, a);
      var r' := Do(c, r, a);
      forall m | 0 <= m < |r'.s.managers|
        ensures OutOk(r'.s.managers[m].pc, (m, 0) in r'.h.unfinished)
      {
        if m != a.m {
          assert OutOk(r.s.managers[m].pc, (m, 0) in r.h.unfinished);
        }
      }
    }
  }

  lemma {:induction false} OutAlways(c: Config, acts: seq<Action>)
    requires c.Valid() && c.perManager == 1
    ensures OutInv(c, Exec(c, acts))
  {
    hide DoneInv, Do;
    if acts != [] {
      OutAlways(c, acts[..|acts| - 1]);
      DoneAlways(c, acts[..|acts| - 1]);
      OutStep(c, Exec(c, acts[..|acts| - 1]), acts[|acts| - 1]);
    }
  }

  /** With one cluster per manager the verdict finds no job running. */
  lemma OneClusterFinishes(c: Config, acts: seq<Action>)
    requires c.Valid() && c.perManager == 1 && Exec(c, acts).s.verdict
    ensures Exec(c, acts).h.unfinished == {}
  {
    hide Exec;
    OutAlways(c, acts);
    DoneAlways(c, acts);
    var r := Exec(c, acts);
    forall m | 0 <= m < c.managers
      ensures (m, 0) !in r.h.unfinished
    {
      assert PlaceOk(c, r.s.pool == [], r.s.managers[m].pc, r.s.status[m]);
      assert OutOk(r.s.managers[m].pc, (m, 0) in r.h.unfinished);
    }
    assert forall p | p in r.h.unfinished :: p == (p.0, 0);
  }

  lemma Signal(c: Config, r: Run, m: nat)
    requires m < |r.s.managers| && r.s.managers[m].pc.SignallingDone? && m < |r.s.status|
    ensures Do(c, r, Step(m)) == Run(At(r.s, m, Returned).(status := r.s.status[m := DONE]), r.h)
  {
  }

  /** A cluster of manager m reports success on an empty pool and m is done. */
  lemma FinishOne(c: Config, r: Run, m: nat, k: nat) returns (acts: seq<Action>)
    requires c.Valid() && Ready(c, r.s, m, k) && r.s.pool == [] && m < |r.s.status|
    ensures var r' := DoAll(c, r, acts);
      && OnlyMoved(m, r, r') && r'.s.pool == [] && r'.s.status == r.s.status[m := DONE]
      && r'.h.unfinished == r.h.unfinished - {(m, k)}
  {
    hide Do, DoAll;
    CommitRun(c, r, m, k);
    acts := Commit(m);
    Signal(c, DoAll(c, r, acts), m);
    DoAppend(c, r, acts, Step(m));
    acts := acts + [Step(m)];
  }

  /** Managers i and later, still to start, all find the pool empty and finish. */
  lemma {:induction false} FinishRest(c: Config, r: Run, i: nat) returns (acts: seq<Action>)
    requires c.Valid() && 0 < i <= |r.s.managers| == |r.s.status| && r.s.pool == []
    requires forall m | i <= m < |r.s.managers| :: r.s.managers[m].pc == LoopTop && !r.s.managers[m].stopped
    requires forall m | 0 <= m < i :: r.s.status[m] == DONE
    ensures var r' := DoAll(c, r, acts);
      && |r'.s.status| == |r.s.status| && (forall m | 0 <= m < |r.s.status| :: r'.s.status[m] == DONE)
      && r'.s.scan == r.s.scan && r'.s.verdict == r.s.verdict
      && forall k :: (0, k) in r.h.unfinished ==> (0, k) in r'.h.unfinished
    decreases |r.s.managers| - i
  {
    hide Do, DoAll;
    if i == |r.s.managers| {
      acts := [];
      DoNothing(c, r);
    } else {
      DoOne(c, r, Step(i));
      Restart(c, r, i);
      var r1 := DoAll(c, r, [Step(i)]);
      var finish := FinishOne(c, r1, i, 0);
      var r2 := DoAll(c, r1, finish);
      forall m | i + 1 <= m < |r2.s.managers|
        ensures r2.s.managers[m].pc == LoopTop && !r2.s.managers[m].stopped
      {
        assert r2.s.managers[m] == r1.s.managers[m] == r.s.managers[m];
      }
      var rest := FinishRest(c, r2, i + 1);
      DoConcat(c, r, [Step(i)], finish);
      DoConcat(c, r, [Step(i)] + finish, rest);
      acts := [Step(i)] + finish + rest;
    }
  }

  /** The controller's check runs through managers that are all done. */
  lemma {:induction false} ScanAll(c: Config, r: Run) returns (acts: seq<Action>)
    requires r.s.scan <= |r.s.status| && forall m | 0 <= m < |r.s.status| :: r.s.status[m] == DONE
    ensures var r' := DoAll(c, r, acts); r'.s.verdict && r'.h == r.h
    decreases |r.s.status| - r.s.scan
  {
    DoOne(c, r, Scan);
    if r.s.scan == |r.s.status| {
      acts := [Scan];
    } else {
      var rest := ScanAll(c, Do(c, r, Scan));
      DoConcat(c, r, [Scan], rest);
      acts := [Scan] + rest;
    }
  }

  /** Manager 0 sends out the last job, then another of its clusters reports
      success: the verdict comes while the last job is out. */
  lemma EarlyVerdictRun(c: Config) returns (acts: seq<Action>)
    requires c.Valid() && c.AllExec() && c.perManager >= 2 && c.jobs != []
    ensures Exec(c, acts).s.verdict && Exec(c, acts).h.unfinished != {}
  {
    hide Do, DoAll;
    var r := Run(Init(c), EMPTY_HISTORY);
    DoOne(c, r, Step(0));
    Restart(c, r, 0);
    acts := [Step(0)];
    var r1 := DoAll(c, r, acts);
    var drain, k, last := Drain(c, r1, 0, 0, 0);
    DoConcat(c, r, acts, drain);
    acts := acts + drain;
    var r2 := DoAll(c, r, acts);
    assert (0, last) in r2.h.unfinished && k != last;
    var finish := FinishOne(c, r2, 0, k);
    DoConcat(c, r, acts, finish);
    acts := acts + finish;
    var r3 := DoAll(c, r, acts);
    forall m | 1 <= m < |r3.s.managers|
      ensures r3.s.managers[m] == Manager(LoopTop, false, None)
    {
      assert r3.s.managers[m] == r2.s.managers[m] == r1.s.managers[m] == r.s.managers[m];
    }
    var rest := FinishRest(c, r3, 1);
    DoConcat(c, r, acts, rest);
    acts := acts + rest;
    var scan := ScanAll(c, DoAll(c, r, acts));
    DoConcat(c, r, acts, scan);
    acts := acts + scan;
  }

  /** The verdict finds no job still running, in any run, exactly when every
      manager has a single cluster or there was nothing to do. */
  lemma VerdictMeansFinishedExactly(c: Config)
    requires c.Valid() && c.AllExec()
    ensures (forall acts: seq<Action> :: Exec(c, acts).s.verdict ==> Exec(c, acts).h.unfinished == {})
            <==> c.perManager == 1 || c.jobs == []
  {
    hide Exec;
    if c.perManager == 1 {
      forall acts: seq<Action> | Exec(c, acts).s.verdict
        ensures Exec(c, acts).h.unfinished == {}
      {
        OneClusterFinishes(c, acts);
      }
    } else if c.jobs == [] {
      forall acts: seq<Action>
        ensures Exec(c, acts).h.unfinished == {}
      {
        NoJobsNoRace(c, acts);
      }
    } else {
      var acts := EarlyVerdictRun(c);
    }
  }
}
