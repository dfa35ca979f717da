/** What the shared pool guarantees of every run of the managers. */
module SchedulerSafety {
  import opened Sums
  import opened JobPools
  import opened SchedulerProtocol

  // ------------------------------------------------------------------------
  // Conservation.

  lemma ConservedStep(c: Config, r: Run, a: Action)
    ensures var r' := Do(c, r, a); JobsOf(r'.h.popped) + r'.s.pool == JobsOf(r.h.popped) + r.s.pool
  {
    var r' := Do(c, r, a);
    if r'.h.popped != r.h.popped {
      var pop := Pop(a.m, r.s.pool[0]);
      assert JobsOf(r.h.popped + [pop]) == JobsOf(r.h.popped) + [pop.job];
      assert r.s.pool == [pop.job] + r.s.pool[1..];
    }
  }

  /** In every interleaving the submitted jobs are those handed out so far, in
      hand-out order, followed by those still in the pool. */
  lemma {:induction false} JobsAreConserved(c: Config, acts: seq<Action>)
    ensures var r := Exec(c, acts); c.jobs == JobsOf(r.h.popped) + r.s.pool
  {
    if acts != [] {
      var before := acts[..|acts| - 1];
      JobsAreConserved(c, before);
      ConservedStep(c, Exec(c, before), acts[|acts| - 1]);
    }
  }

  // ------------------------------------------------------------------------
  // Check, then act.

  /** The manager has seen the pool non-empty and has not yet popped. */
  predicate Committed(x: Pc) {
    match x
    case SecondCheck(_, report, waiting) => waiting
    case Branching(_, _, waiting, _) => waiting
    case Popping(_) => true
    case _ => false
  }

  function Commitments(ms: seq<Manager>): seq<nat> {
    seq(|ms|, i requires 0 <= i < |ms| => if Committed(ms[i].pc) then 1 else 0)
  }

  /** While jobs are left nobody has come away empty-handed; once the pool is
      empty, those who have and those who still will are fewer than the managers. */
  ghost predicate RaceInv(c: Config, r: Run) {
    && |r.s.managers| == c.managers
    && (r.s.pool != [] ==> r.h.nones == 0)
    && (r.s.pool == [] && c.managers > 0 ==> r.h.nones + Sum(Commitments(r.s.managers)) <= c.managers - 1)
  }

  lemma CommitmentMoves(ms: seq<Manager>, m: nat, x: Manager)
    requires m < |ms|
    ensures Sum(Commitments(ms[m := x])) + (if Committed(ms[m].pc) then 1 else 0)
         == Sum(Commitments(ms)) + if Committed(x.pc) then 1 else 0
  {
    SumChange(Commitments(ms), Commitments(ms[m := x]), m);
  }

  /** Everybody but manager m may be committed. */
  lemma OthersCommitted(ms: seq<Manager>, m: nat)
    requires m < |ms| && !Committed(ms[m].pc)
    ensures Sum(Commitments(ms)) <= |ms| - 1
  {
    var a := Commitments(ms);
    var b := a[m := 1];
    SumChange(a, b, m);
    SumAtMost(b, 1);
  }

  lemma RaceStep(c: Config, r: Run, a: Action)
    requires RaceInv(c, r)
    ensures RaceInv(c, Do(c, r, a))
  {
    hide Sum, Commitments;
    var r' := Do(c, r, a);
    if !a.Scan? && a.m < |r.s.managers| {
      CommitmentMoves(r.s.managers, a.m, r'.s.managers[a.m]);
      assert r'.s.managers == r.s.managers[a.m := r'.s.managers[a.m]];
      if r.s.pool != [] && r'.s.pool == [] {
        OthersCommitted(r'.s.managers, a.m);
      }
    }
  }

  lemma InitialRace(c: Config)
    ensures RaceInv(c, Run(Init(c), EMPTY_HISTORY))
  {
    SumZero(Commitments(Init(c).managers));
  }

  lemma {:induction false} RaceAlways(c: Config, acts: seq<Action>)
    ensures RaceInv(c, Exec(c, acts))
  {
    hide RaceInv, Do;
    if acts == [] {
      InitialRace(c);
    } else {
      RaceAlways(c, acts[..|acts| - 1]);
      RaceStep(c, Exec(c, acts[..|acts| - 1]), acts[|acts| - 1]);
    }
  }

  /** The check and the pop are not one step, so `get_next_job` can come back with
      None; over a whole run it does so at most once less than there are managers. */
  lemma AtMostOneNonePerOtherManager(c: Config, acts: seq<Action>)
    requires c.managers > 0
    ensures Exec(c, acts).h.nones <= c.managers - 1
  {
    hide Exec, Sum;
    RaceAlways(c, acts);
  }

  // ------------------------------------------------------------------------
  // Done means drained.

  /** What a manager's place says about the pool and its status. */
  predicate PlaceOk(c: Config, drained: bool, x: Pc, status: ManagerStatus) {
    && (x.SecondCheck? ==> (x.report.Succeeded? && !x.waiting ==> drained) && (x.waiting ==> x.report.Succeeded?))
    && (x.Branching? ==>
          && (x.report.Succeeded? ==> x.waiting || x.done)
          && (x.waiting ==> x.report.Succeeded?)
          && (x.done ==> x.report.Succeeded? && drained))
    && (x.SignallingDone? ==> drained)
    && (status.DONE? <==> x.Returned?)
    && (status.DONE? ==> drained)
    && (status.ABORT? ==> x.Died?)
  }

  ghost predicate DoneInv(c: Config, s: State) {
    && |s.managers| == |s.status| == c.managers
    && (forall m | 0 <= m < |s.managers| :: PlaceOk(c, s.pool == [], s.managers[m].pc, s.status[m]))
    && s.scan <= |s.status|
    && (forall m | 0 <= m < s.scan :: s.status[m] == DONE)
    && (s.verdict ==> s.scan == |s.status|)
  }

  lemma PlaceMoves(c: Config, s: State, a: Action)
    requires DoneInv(c, s) && !a.Scan? && a.m < |s.managers|
    ensures var s' := Next(c, s, a);
      |s'.managers| == |s.managers| && |s'.status| == |s.status|
      && PlaceOk(c, s'.pool == [], s'.managers[a.m].pc, s'.status[a.m])
  {
    assert PlaceOk(c, s.pool == [], s.managers[a.m].pc, s.status[a.m]);
  }

  lemma DoneStep(c: Config, s: State, a: Action)
    requires DoneInv(c, s)
    ensures DoneInv(c, Next(c, s, a))
  {
    hide Branch, After;
    if !a.Scan? && a.m < |s.managers| {
      PlaceMoves(c, s, a);
      assert PlaceOk(c, s.pool == [], s.managers[a.m].pc, s.status[a.m]);
      var s' := Next(c, s, a);
      forall m | 0 <= m < |s'.managers|
        ensures PlaceOk(c, s'.pool == [], s'.managers[m].pc, s'.status[m])
      {
        if m != a.m {
          assert PlaceOk(c, s.pool == [], s.managers[m].pc, s.status[m]);
        }
      }
    }
  }

  lemma InitialDone(c: Config)
    ensures DoneInv(c, Init(c))
  {
  }

  lemma {:induction false} DoneAlways(c: Config, acts: seq<Action>)
    ensures DoneInv(c, Exec(c, acts).s)
  {
    hide DoneInv, Next;
    if acts == [] {
      InitialDone(c);
    } else {
      DoneAlways(c, acts[..|acts| - 1]);
      DoneStep(c, Exec(c, acts[..|acts| - 1]).s, acts[|acts| - 1]);
    }
  }

  /** A cluster that reported success is always either given a job or makes its
      manager finish, although the two emptiness checks are separate. */
  lemma SucceededClusterIsServed(c: Config, acts: seq<Action>, m: nat)
    requires var s := Exec(c, acts).s;
      m < |s.managers| && s.managers[m].pc.Branching? && s.managers[m].pc.report.Succeeded? && !s.managers[m].stopped
    ensures var pc := Next(c, Exec(c, acts).s, Step(m)).managers[m].pc; pc.Popping? || pc.SignallingDone?
  {
    hide Exec;
    DoneAlways(c, acts);
    var s := Exec(c, acts).s;
    assert PlaceOk(c, s.pool == [], s.managers[m].pc, s.status[m]);
  }

  lemma DoneStays(c: Config, s: State, a: Action)
    requires DoneInv(c, s)
    ensures |Next(c, s, a).status| == |s.status|
    ensures s.pool == [] ==> Next(c, s, a).pool == []
    ensures forall m | 0 <= m < |s.status| && s.status[m] == DONE :: Next(c, s, a).status[m] == DONE
  {
    if !a.Scan? && a.m < |s.managers| {
      assert PlaceOk(c, s.pool == [], s.managers[a.m].pc, s.status[a.m]);
    }
  }

  /** Nothing puts a job back and nothing takes a DONE back, whatever follows. */
  lemma {:induction false} DoneAndEmptyAreStable(c: Config, acts: seq<Action>, more: seq<Action>)
    ensures var s, s' := Exec(c, acts).s, Exec(c, acts + more).s;
      && |s'.status| == |s.status|
      && (s.pool == [] ==> s'.pool == [])
      && (forall m | 0 <= m < |s.status| && s.status[m] == DONE :: s'.status[m] == DONE)
  {
    hide DoneInv, Next, Record;
    if more == [] {
      assert acts + more == acts;
    } else {
      var early, a := more[..|more| - 1], more[|more| - 1];
      assert (acts + more)[..|acts + early|] == acts + early;
      DoneAndEmptyAreStable(c, acts, early);
      DoneAlways(c, acts + early);
      DoneStays(c, Exec(c, acts + early).s, a);
    }
  }

  /** When the controller's check returns true every manager is done, although it
      reads the statuses one at a time, and every submitted job has been handed
      out, in order. */
  lemma VerdictMeansAllPopped(c: Config, acts: seq<Action>)
    requires c.managers > 0 && Exec(c, acts).s.verdict
    ensures var r := Exec(c, acts);
      && |r.s.status| == c.managers
      && (forall m | 0 <= m < c.managers :: r.s.status[m] == DONE)
      && r.s.pool == [] && JobsOf(r.h.popped) == c.jobs
  {
    hide Exec;
    DoneAlways(c, acts);
    JobsAreConserved(c, acts);
    var s := Exec(c, acts).s;
    assert PlaceOk(c, s.pool == [], s.managers[0].pc, s.status[0]);
  }
}
