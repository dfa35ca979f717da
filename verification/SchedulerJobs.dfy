/** What becomes of every job: it is in the pool, in a manager's hand, sent to a
    cluster or lost with a failed dispatch, and never two of these. */
module SchedulerJobs {
  import opened Sums
  import opened JobPools
  import opened SchedulerProtocol
  import opened SchedulerSafety
  import opened SchedulerTraces

  // ------------------------------------------------------------------------
  // Dispatches.

  /** The dispatch of manager m's job ends. */
  predicate Dispatches(s: State, a: Action, m: nat) {
    a.Pipe? && a.m == m && m < |s.managers| && s.managers[m].pc.Piping?
  }

  /** The jobs that manager m has taken to dispatch, in order, whatever came of it. */
  function Taken(c: Config, acts: seq<Action>, m: nat): seq<Job> {
    if acts == [] then []
    else
      var before, a := acts[..|acts| - 1], acts[|acts| - 1];
      var s := Exec(c, before).s;
      Taken(c, before, m) + if Dispatches(s, a, m) then [s.managers[m].pc.job] else []
  }

  function InHand(x: Pc): seq<Job> {
    if x.Piping? then [x.job] else []
  }

  lemma TakenStep(c: Config, s: State, a: Action, m: nat)
    requires m < |s.managers|
    ensures |Next(c, s, a).managers| == |s.managers|
    ensures InHand(s.managers[m].pc) + (if Pops(s, a, m) then [s.pool[0]] else [])
         == (if Dispatches(s, a, m) then [s.managers[m].pc.job] else []) + InHand(Next(c, s, a).managers[m].pc)
  {
    if a.Scan? || a.m != m {
      OthersStay(c, s, a, m);
    }
  }

  lemma Regroup(a: seq<Job>, b: seq<Job>, x: seq<Job>, y: seq<Job>, z: seq<Job>)
    requires b + x == y + z
    ensures (a + b) + x == (a + y) + z
  {
    assert (a + b) + x == a + (b + x);
  }

  lemma TakenAfter(c: Config, s: State, a: Action, m: nat, taken: seq<Job>)
    requires m < |s.managers|
    ensures |Next(c, s, a).managers| == |s.managers|
    ensures (taken + InHand(s.managers[m].pc)) + (if Pops(s, a, m) then [s.pool[0]] else [])
         == (taken + if Dispatches(s, a, m) then [s.managers[m].pc.job] else [])
            + InHand(Next(c, s, a).managers[m].pc)
  {
    hide Next, InHand;
    TakenStep(c, s, a, m);
    Regroup(taken, InHand(s.managers[m].pc), if Pops(s, a, m) then [s.pool[0]] else [],
            if Dispatches(s, a, m) then [s.managers[m].pc.job] else [], InHand(Next(c, s, a).managers[m].pc));
  }

  lemma NothingPopped(c: Config, m: nat)
    requires m < c.managers
    ensures PopsOf([], m) == [] && InHand(Init(c).managers[m].pc) == []
  {
  }

  /** A manager dispatches the jobs it pops, each one once and in the order it
      popped them: what it took to dispatch and what it has in hand are its pops. */
  lemma {:induction false} DispatchesWhatItPops(c: Config, acts: seq<Action>, m: nat)
    requires m < c.managers
    ensures var r := Exec(c, acts);
      && |r.s.managers| == c.managers
      && PopsOf(r.h.popped, m) == Taken(c, acts, m) + InHand(r.s.managers[m].pc)
  {
    hide PopsOf, Next, Record, InHand, Dispatches, Pops;
    if acts == [] {
      NothingPopped(c, m);
    } else {
      var before, a := acts[..|acts| - 1], acts[|acts| - 1];
      DispatchesWhatItPops(c, before, m);
      var r := Exec(c, before);
      TakenAfter(c, r.s, a, m, Taken(c, before, m));
      PopsStep(c, r, a, m);
    }
  }

  // ------------------------------------------------------------------------
  // Sent and unsent.

  /** A job sent to cluster k of manager m. */
  datatype Send = Send(m: nat, k: nat, job: Job)

  /** The dispatch sends its job; a job of type SETUP is passed over. */
  predicate IsSend(s: State, a: Action) {
    a.Pipe? && Dispatches(s, a, a.m) && s.managers[a.m].pc.job.jobType.EXEC? && a.outcome.Sent?
  }

  /** What was sent to the clusters, in order. */
  function Sends(c: Config, acts: seq<Action>): seq<Send> {
    if acts == [] then []
    else
      var before, a := acts[..|acts| - 1], acts[|acts| - 1];
      var s := Exec(c, before).s;
      Sends(c, before) + if IsSend(s, a) then [Send(a.m, s.managers[a.m].pc.k, s.managers[a.m].pc.job)] else []
  }

  function SentJobs(sends: seq<Send>): seq<Job> {
    seq(|sends|, i requires 0 <= i < |sends| => sends[i].job)
  }

  /** The jobs whose dispatch ended without sending them. */
  function Unsent(c: Config, acts: seq<Action>): seq<Job> {
    if acts == [] then []
    else
      var before, a := acts[..|acts| - 1], acts[|acts| - 1];
      var s := Exec(c, before).s;
      Unsent(c, before)
        + if a.Pipe? && Dispatches(s, a, a.m) && !IsSend(s, a) then [s.managers[a.m].pc.job] else []
  }

  /** A job goes to the cluster that its manager polled last and that reported
      success, and it is the job that manager popped last. */
  lemma SentWhereAsked(c: Config, acts: seq<Action>, m: nat)
    requires c.Valid() && IsSend(Exec(c, acts).s, Pipe(m, Sent))
    ensures var polled, pops := Polled(c, acts, m), PopsOf(Exec(c, acts).h.popped, m);
      && polled != [] && pops != [] && polled[|polled| - 1].report.Succeeded?
      && Sends(c, acts + [Pipe(m, Sent)]) == Sends(c, acts) + [Send(m, polled[|polled| - 1].k, pops[|pops| - 1])]
  {
    hide Exec, Polled, PopsOf, Taken;
    DoneAlways(c, acts);
    PopsFollowSuccess(c, acts, m);
    DispatchesWhatItPops(c, acts, m);
    assert (acts + [Pipe(m, Sent)])[..|acts|] == acts;
  }

  // ------------------------------------------------------------------------
  // The account of one job.

  /** For every manager, whether it has this job in hand. */
  function Holding(ms: seq<Manager>, job: Job): seq<nat> {
    seq(|ms|, i requires 0 <= i < |ms| => if InHand(ms[i].pc) == [job] then 1 else 0)
  }

  function Times(job: Job, jobs: seq<Job>): nat { multiset(jobs)[job] }

  lemma TimesAppend(job: Job, jobs: seq<Job>, more: seq<Job>)
    ensures Times(job, jobs + more) == Times(job, jobs) + Times(job, more)
  {
  }

  lemma HoldingMoves(ms: seq<Manager>, m: nat, x: Manager, job: Job)
    requires m < |ms|
    ensures Sum(Holding(ms[m := x], job)) + Times(job, InHand(ms[m].pc))
         == Sum(Holding(ms, job)) + Times(job, InHand(x.pc))
  {
    SumChange(Holding(ms, job), Holding(ms[m := x], job), m);
  }

  /** What an action takes out of the pool and out of a hand. */
  lemma HandsAfter(c: Config, s: State, a: Action, job: Job)
    requires !a.Scan? && a.m < |s.managers|
    ensures var s' := Next(c, s, a);
      && |s'.managers| == |s.managers| && s'.managers == s.managers[a.m := s'.managers[a.m]]
      && s.pool == (if Pops(s, a, a.m) then [s.pool[0]] else []) + s'.pool
      && InHand(s.managers[a.m].pc) + (if Pops(s, a, a.m) then [s.pool[0]] else [])
         == (if Dispatches(s, a, a.m) then [s.managers[a.m].pc.job] else []) + InHand(s'.managers[a.m].pc)
  {
    TakenStep(c, s, a, a.m);
  }

  lemma NobodyMoves(c: Config, s: State, a: Action)
    requires a.Scan? || a.m >= |s.managers|
    ensures Next(c, s, a).pool == s.pool && Next(c, s, a).managers == s.managers
  {
  }

  lemma AccountStep(c: Config, s: State, a: Action, job: Job)
    ensures var s' := Next(c, s, a);
      Times(job, s'.pool) + Sum(Holding(s'.managers, job))
        + Times(job, if !a.Scan? && Dispatches(s, a, a.m) then [s.managers[a.m].pc.job] else [])
      == Times(job, s.pool) + Sum(Holding(s.managers, job))
  {
    hide Sum, Holding, InHand, Pops, Next;
    if !a.Scan? && a.m < |s.managers| {
      HandsAfter(c, s, a, job);
      var s' := Next(c, s, a);
      var popped := if Pops(s, a, a.m) then [s.pool[0]] else [];
      HoldingMoves(s.managers, a.m, s'.managers[a.m], job);
      TimesAppend(job, popped, s'.pool);
      TimesAppend(job, InHand(s.managers[a.m].pc), popped);
      TimesAppend(job, if Dispatches(s, a, a.m) then [s.managers[a.m].pc.job] else [], InHand(s'.managers[a.m].pc));
    } else {
      NobodyMoves(c, s, a);
    }
  }

  lemma SentJobsAppend(sends: seq<Send>, more: seq<Send>)
    ensures SentJobs(sends + more) == SentJobs(sends) + SentJobs(more)
  {
  }

  lemma DispatchIsPipe(s: State, a: Action)
    ensures !a.Scan? && Dispatches(s, a, a.m) ==> a.Pipe? && a.m < |s.managers| && s.managers[a.m].pc.Piping?
  {
  }

  lemma OneSent(send: Send)
    ensures SentJobs([send]) == [send.job]
  {
  }

  lemma NoTimes(job: Job)
    ensures Times(job, []) == 0
  {
  }

  lemma FreshAccount(c: Config, job: Job)
    ensures Sum(Holding(Init(c).managers, job)) == 0
    ensures Times(job, SentJobs([])) == 0 && Times(job, []) == 0
  {
    SumZero(Holding(Init(c).managers, job));
  }

  /** Every submitted job is accounted for, in every interleaving: as often as it was
      submitted it is in the pool, in the hand of a manager, sent, or unsent. */
  lemma {:induction false} JobsAreAccountedFor(c: Config, acts: seq<Action>, job: Job)
    ensures var s := Exec(c, acts).s;
      Times(job, c.jobs) == Times(job, s.pool) + Sum(Holding(s.managers, job))
                            + Times(job, SentJobs(Sends(c, acts))) + Times(job, Unsent(c, acts))
  {
    hide Sum, Next, Record, Holding, Times, SentJobs, Dispatches;
    if acts == [] {
      FreshAccount(c, job);
    } else {
      var before, a := acts[..|acts| - 1], acts[|acts| - 1];
      JobsAreAccountedFor(c, before, job);
      var s := Exec(c, before).s;
      AccountStep(c, s, a, job);
      DispatchIsPipe(s, a);
      if !a.Scan? && Dispatches(s, a, a.m) {
        var x := s.managers[a.m].pc;
        TimesAppend(job, Unsent(c, before), [x.job]);
        SentJobsAppend(Sends(c, before), [Send(a.m, x.k, x.job)]);
        OneSent(Send(a.m, x.k, x.job));
        TimesAppend(job, SentJobs(Sends(c, before)), [x.job]);
      } else {
        NoTimes(job);
      }
      assert Sends(c, before) + [] == Sends(c, before) && Unsent(c, before) + [] == Unsent(c, before);
    }
  }

  // ------------------------------------------------------------------------
  // What the verdict means.

  /** The thread is about to abort or is gone. */
  predicate Doomed(x: Pc) { x.SignallingAbort? || x.Died? }

  lemma DoomedStays(c: Config, s: State, a: Action, m: nat)
    requires m < |s.managers| && Doomed(s.managers[m].pc)
    ensures |Next(c, s, a).managers| == |s.managers| && Doomed(Next(c, s, a).managers[m].pc)
  {
    if a.Scan? || a.m != m {
      OthersStay(c, s, a, m);
    }
  }

  lemma UnsentDooms(c: Config, s: State, a: Action)
    requires a.Pipe? && Dispatches(s, a, a.m) && !IsSend(s, a) && s.managers[a.m].pc.job.jobType.EXEC?
    ensures |Next(c, s, a).managers| == |s.managers| && Doomed(Next(c, s, a).managers[a.m].pc)
  {
  }

  /** A dispatch of an EXEC job that did not send it has ended its manager. */
  lemma {:induction false} UnsentHasDoomed(c: Config, acts: seq<Action>, i: nat) returns (m: nat)
    requires i < |Unsent(c, acts)| && Unsent(c, acts)[i].jobType.EXEC?
    ensures m < |Exec(c, acts).s.managers| && Doomed(Exec(c, acts).s.managers[m].pc)
  {
    hide Next, Record, Doomed;
    var before, a := acts[..|acts| - 1], acts[|acts| - 1];
    var s := Exec(c, before).s;
    if i < |Unsent(c, before)| {
      m := UnsentHasDoomed(c, before, i);
      DoomedStays(c, s, a, m);
    } else {
      m := a.m;
      UnsentDooms(c, s, a);
    }
  }

  lemma NobodyHolds(c: Config, acts: seq<Action>, job: Job)
    requires c.managers > 0 && Exec(c, acts).s.verdict
    ensures Sum(Holding(Exec(c, acts).s.managers, job)) == 0
  {
    hide Exec, Sum;
    VerdictMeansAllPopped(c, acts);
    DoneAlways(c, acts);
    var s := Exec(c, acts).s;
    forall m | 0 <= m < |s.managers|
      ensures Holding(s.managers, job)[m] == 0
    {
      assert PlaceOk(c, s.pool == [], s.managers[m].pc, s.status[m]);
    }
    SumZero(Holding(s.managers, job));
  }

  lemma NobodyDoomed(c: Config, acts: seq<Action>)
    requires c.managers > 0 && Exec(c, acts).s.verdict
    ensures var ms := Exec(c, acts).s.managers; forall m | 0 <= m < |ms| :: !Doomed(ms[m].pc)
  {
    hide Exec;
    VerdictMeansAllPopped(c, acts);
    DoneAlways(c, acts);
    var s := Exec(c, acts).s;
    forall m | 0 <= m < |s.managers|
      ensures !Doomed(s.managers[m].pc)
    {
      assert PlaceOk(c, s.pool == [], s.managers[m].pc, s.status[m]);
    }
  }

  lemma NoneUnsent(c: Config, acts: seq<Action>, job: Job)
    requires c.managers > 0 && Exec(c, acts).s.verdict && job.jobType.EXEC?
    ensures Times(job, Unsent(c, acts)) == 0
  {
    hide Exec, Unsent, Doomed;
    NobodyDoomed(c, acts);
    if job in Unsent(c, acts) {
      var i :| 0 <= i < |Unsent(c, acts)| && Unsent(c, acts)[i] == job;
      var m := UnsentHasDoomed(c, acts, i);
    }
  }

  lemma NoSetup(c: Config, job: Job)
    requires c.AllExec() && job.jobType.SETUP?
    ensures Times(job, c.jobs) == 0
  {
  }

  /** When the controller's check returns true every submitted job has been sent to
      a cluster, and as often as it was submitted: none lost, none repeated. */
  lemma VerdictMeansAllSent(c: Config, acts: seq<Action>)
    requires c.managers > 0 && c.AllExec() && Exec(c, acts).s.verdict
    ensures multiset(SentJobs(Sends(c, acts))) == multiset(c.jobs)
  {
    hide Exec, Sum, Holding, Unsent, Sends, SentJobs;
    forall job
      ensures multiset(SentJobs(Sends(c, acts)))[job] == multiset(c.jobs)[job]
    {
      JobsAreAccountedFor(c, acts, job);
      VerdictMeansAllPopped(c, acts);
      NobodyHolds(c, acts, job);
      if job.jobType.EXEC? {
        NoneUnsent(c, acts, job);
      } else {
        NoSetup(c, job);
      }
    }
  }
}
