/** The controller and its manager threads as the program has them: a shared job
    pool, a list of managers and a status dictionary, updated in place. */
module Controllers {
  import opened JobPools
  import P = SchedulerProtocol
  import SchedulerSafety
  import SchedulerJobs

  datatype ClusterName = ClusterName(setup: string, manager: nat, cluster: nat)

  datatype ManagerSpec = ManagerSpec(id: nat, clusters: seq<ClusterName>)

  datatype Error = TooFewClusters | ZeroManagers | NotDivisible

  datatype Result<+T> = Success(value: T) | Failure(error: Error)

  /** The cluster indices of some managers, one manager after the other. */
  function Indices(specs: seq<ManagerSpec>): seq<nat> {
    if specs == [] then []
    else
      var names := specs[|specs| - 1].clusters;
      Indices(specs[..|specs| - 1]) + seq(|names|, j requires 0 <= j < |names| => names[j].cluster)
  }

  /** The first n cluster indices. */
  function UpTo(n: nat): seq<nat> { seq(n, j => j) }

  lemma IndicesAppend(specs: seq<ManagerSpec>, i: nat, names: seq<ClusterName>, start: nat)
    requires Indices(specs) == UpTo(start)
    requires forall j | 0 <= j < |names| :: names[j].cluster == start + j
    ensures Indices(specs + [ManagerSpec(i, names)]) == UpTo(start + |names|)
  {
    var more := specs + [ManagerSpec(i, names)];
    assert more[..|specs|] == specs;
  }

  /** Managers with a status other than DONE, among the first n. */
  function Undone(status: map<nat, P.ManagerStatus>, n: nat): nat {
    if n == 0 then 0
    else Undone(status, n - 1) + if n - 1 in status && status[n - 1] == P.DONE then 0 else 1
  }

  /** Nobody is undone exactly when everybody is done. */
  lemma {:induction false} UndoneIsZero(status: map<nat, P.ManagerStatus>, n: nat)
    ensures Undone(status, n) == 0 <==> forall i: nat | i < n :: i in status && status[i] == P.DONE
  {
    if n > 0 {
      UndoneIsZero(status, n - 1);
    }
  }

  /** Marking one more manager done lowers the count by one, if it was undone. */
  lemma {:induction false} UndoneDrops(status: map<nat, P.ManagerStatus>, m: nat, n: nat)
    ensures Undone(status[m := P.DONE], n)
         == Undone(status, n) - if m < n && !(m in status && status[m] == P.DONE) then 1 else 0
    ensures m < n && !(m in status && status[m] == P.DONE) ==> Undone(status, n) > 0
  {
    if n > 0 {
      UndoneDrops(status, m, n - 1);
    }
  }

  lemma RangeNext(i: nat, each: nat)
    ensures (i + 1) * each == i * each + each && i * each >= 0
  {
  }

  lemma Divides(n: int, m: int)
    requires m > 0 && n % m == 0
    ensures m * (n / m) == n
  {
  }

  /** The split of the clusters over the managers: contiguous ranges of equal
      length that cover every cluster once, or the error the constructor raises. */
  method SplitClusters(setup: string, numManagers: int, numClusters: int) returns (r: Result<seq<ManagerSpec>>)
    ensures r.Success? <==> numManagers != 0 && numManagers <= numClusters && numClusters % numManagers == 0
    ensures r.Failure? ==>
      r.error == if numClusters < numManagers then TooFewClusters
                 else if numManagers == 0 then ZeroManagers else NotDivisible
    ensures r.Success? && numManagers > 0 ==>
      && |r.value| == numManagers
      && Indices(r.value) == UpTo(numClusters)
      && forall i | 0 <= i < |r.value| ::
           && r.value[i].id == i
           && |r.value[i].clusters| * numManagers == numClusters
           && forall j | 0 <= j < |r.value[i].clusters| ::
                r.value[i].clusters[j].manager == i && r.value[i].clusters[j].setup == setup
    ensures r.Success? && numManagers < 0 ==> r.value == []
  {
    if numClusters < numManagers {
      return Failure(TooFewClusters);
    }
    if numManagers == 0 {
      return Failure(ZeroManagers);
    }
    if numClusters % numManagers != 0 {
      return Failure(NotDivisible);
    }
    var specs: seq<ManagerSpec> := [];
    if numManagers > 0 {
      var each := numClusters / numManagers;
      Divides(numClusters, numManagers);
      for i := 0 to numManagers
        invariant |specs| == i
        invariant 0 <= i * each
        invariant Indices(specs) == UpTo(i * each)
        invariant forall k | 0 <= k < i ::
          && specs[k].id == k && |specs[k].clusters| == each
          && forall j | 0 <= j < each :: specs[k].clusters[j].manager == k && specs[k].clusters[j].setup == setup
      {
        var start := i * each;
        var names := seq(each, j requires 0 <= j < each => ClusterName(setup, i, start + j));
        RangeNext(i, each);
        IndicesAppend(specs, i, names, start);
        specs := specs + [ManagerSpec(i, names)];
      }
    }
    return Success(specs);
  }

  /** The pool is filled in the order of the environment list. */
  method FillPool<Env>(envs: seq<Env>, initialize: Env -> Job, pool: JobPool)
    modifies pool
    ensures |pool.jobs| == |old(pool.jobs)| + |envs|
    ensures pool.jobs[..|old(pool.jobs)|] == old(pool.jobs)
    ensures forall i | 0 <= i < |envs| :: pool.jobs[|old(pool.jobs)| + i] == initialize(envs[i])
  {
    for k := 0 to |envs|
      invariant |pool.jobs| == |old(pool.jobs)| + k
      invariant pool.jobs[..|old(pool.jobs)|] == old(pool.jobs)
      invariant forall i | 0 <= i < k :: pool.jobs[|old(pool.jobs)| + i] == initialize(envs[i])
    {
      pool.AddJob(initialize(envs[k]));
    }
  }

  class Controller {
    const c: P.Config
    const pool: JobPool
    var managers: seq<P.Manager>
    var status: map<nat, P.ManagerStatus>
    var scan: nat
    var verdict: bool

    ghost predicate Valid()
      reads this
    {
      && |managers| == c.managers
      && forall i: nat :: i in status <==> i < c.managers
    }

    ghost function Snapshot(): P.State
      requires Valid()
      reads this, pool
    {
      P.State(pool.jobs, managers,
              seq(c.managers, i requires 0 <= i < c.managers && Valid() reads this => status[i]), scan, verdict)
    }

    /** One RUNNING manager per id, over a pool that holds the submitted jobs. */
    constructor (c: P.Config, pool: JobPool)
      requires pool.jobs == c.jobs
      ensures this.c == c && this.pool == pool && Valid() && Snapshot() == P.Init(c)
    {
      this.c := c;
      this.pool := pool;
      this.managers := [];
      this.status := map[];
      this.scan, this.verdict := 0, false;
      new;
      for i := 0 to c.managers
        invariant pool.jobs == c.jobs && scan == 0 && !verdict
        invariant managers == seq(i, _ => P.Manager(P.LoopTop, false, None))
        invariant forall k: nat :: k in status <==> k < i
        invariant forall k: nat | k < i :: status[k] == P.RUNNING
      {
        AddClusterManager(i);
      }
    }

    method AddClusterManager(id: nat)
      modifies this`managers, this`status
      ensures managers == old(managers) + [P.Manager(P.LoopTop, false, None)]
      ensures status == old(status)[id := P.RUNNING]
    {
      managers := managers + [P.Manager(P.LoopTop, false, None)];
      status := status[id := P.RUNNING];
    }

    predicate CheckAllDone()
      requires Valid()
      reads this
    {
      forall i: nat | i < c.managers :: status[i] == P.DONE
    }

    /** Marks the manager done and counts those that are not; the count is zero
        exactly when the controller's check would succeed. */
    method SignalDone(m: nat) returns (undone: nat)
      requires Valid() && m < c.managers
      modifies this`status
      ensures Valid() && status == old(status)[m := P.DONE]
      ensures undone == Undone(status, c.managers)
      ensures undone == 0 <==> CheckAllDone()
      ensures undone == Undone(old(status), c.managers) - if old(status)[m] == P.DONE then 0 else 1
    {
      UndoneDrops(status, m, c.managers);
      status := status[m := P.DONE];
      undone := 0;
      for i := 0 to c.managers
        invariant undone == Undone(status, i)
      {
        if status[i] != P.DONE {
          undone := undone + 1;
        }
      }
      UndoneIsZero(status, c.managers);
    }

    method SignalAbort(m: nat)
      requires Valid() && m < c.managers
      modifies this`status
      ensures Valid() && status == old(status)[m := P.ABORT] && !CheckAllDone()
    {
      status := status[m := P.ABORT];
      assert m in status && status[m] != P.DONE;
    }

    /** The if-chain of the poll loop: what manager m does with the report. */
    method TakeBranch(m: nat)
      requires Valid() && m < |managers| && managers[m].pc.Branching?
      modifies this`managers
      ensures Valid() && Snapshot() == P.ManagerStep(c, old(Snapshot()), m)
    {
      var x := managers[m];
      var next := P.LoopTop;
      if !x.stopped {
        if x.pc.k + 1 < c.perManager {
          next := P.Polling(x.pc.k + 1);
        }
        if x.pc.waiting {
          next := P.Popping(x.pc.k);
        } else if x.pc.report.Running? {
          // continue with the next cluster
        } else if x.pc.done {
          next := P.SignallingDone;
        } else if x.pc.report.FailedSetup? {
          next := P.SignallingAbort;
        } else if x.pc.report.Failed? {
          if x.current.None? {
            next := P.SignallingAbort;
          }
        }
      }
      managers := managers[m := x.(pc := next)];
    }

    /** The step of manager m that needs no answer from outside. */
    method StepManager(m: nat)
      requires Valid() && m < |managers|
      modifies this`managers, this`status, pool
      ensures Valid() && Snapshot() == P.ManagerStep(c, old(Snapshot()), m)
    {
      var x := managers[m];
      match x.pc {
        case LoopTop =>
          managers := managers[m := x.(pc := if x.stopped then P.Died else P.Polling(0))];
        case FirstCheck(k, report) =>
          var waiting := report.Succeeded? && !pool.IsEmpty();
          managers := managers[m := x.(pc := P.SecondCheck(k, report, waiting))];
        case SecondCheck(k, report, waiting) =>
          var done := report.Succeeded? && pool.IsEmpty();
          managers := managers[m := x.(pc := P.Branching(k, report, waiting, done))];
        case Branching(_, _, _, _) =>
          TakeBranch(m);
        case Popping(k) =>
          var job := pool.GetNextJob();
          if job.None? {
            managers := managers[m := x.(pc := P.SignallingAbort)];
          } else {
            managers := managers[m := x.(pc := P.Piping(k, job.value), current := job)];
          }
        case SignallingDone =>
          var _ := SignalDone(m);
          managers := managers[m := x.(pc := P.Returned)];
        case SignallingAbort =>
          SignalAbort(m);
          managers := managers[m := x.(pc := P.Died)];
        case _ =>
      }
    }

    /** One look of the controller's check at one manager. */
    method ScanOne()
      requires Valid()
      modifies this`scan, this`verdict
      ensures Valid() && Snapshot() == P.ScanStep(old(Snapshot()))
    {
      if scan < c.managers {
        if status[scan] == P.DONE {
          scan := scan + 1;
        } else {
          scan := 0;
        }
      } else {
        verdict := true;
      }
    }

    method Perform(a: P.Action)
      requires Valid()
      modifies this, pool
      ensures Valid() && Snapshot() == P.Next(c, old(Snapshot()), a)
    {
      match a {
        case Poll(m, report) =>
          if m < |managers| && managers[m].pc.Polling? {
            var x := managers[m];
            var pc := if report.NotUp? then P.Died
                      else if report.Broken? then P.SignallingAbort
                      else P.FirstCheck(x.pc.k, report);
            managers := managers[m := x.(pc := pc)];
          }
        case Step(m) =>
          if m < |managers| {
            StepManager(m);
          }
        case Pipe(m, outcome) =>
          if m < |managers| && managers[m].pc.Piping? {
            var x := managers[m];
            var pc := if outcome.Sent? || x.pc.job.jobType.SETUP? then P.After(c, x.pc.k)
                      else if outcome.ClusterDown? then P.Died
                      else P.SignallingAbort;
            managers := managers[m := x.(pc := pc)];
          }
        case Stop(m) =>
          if m < |managers| {
            managers := managers[m := managers[m].(stopped := true)];
          }
        case Scan => ScanOne();
      }
    }

    /** A whole run: the jobs handed out, and what is left, are the jobs
        submitted; once the verdict is given every job has been handed out, and
        sent to a cluster. */
    method Run(acts: seq<P.Action>)
      requires Valid() && Snapshot() == P.Init(c)
      modifies this, pool
      ensures Valid() && Snapshot() == P.Exec(c, acts).s
      ensures c.jobs == P.JobsOf(P.Exec(c, acts).h.popped) + pool.jobs
      ensures verdict && c.managers > 0 ==> CheckAllDone() && P.JobsOf(P.Exec(c, acts).h.popped) == c.jobs
      ensures verdict && c.managers > 0 && c.AllExec() ==>
        multiset(SchedulerJobs.SentJobs(SchedulerJobs.Sends(c, acts))) == multiset(c.jobs)
    {
      for k := 0 to |acts|
        invariant Valid() && Snapshot() == P.Exec(c, acts[..k]).s
      {
        assert acts[..k + 1][..k] == acts[..k];
        Perform(acts[k]);
      }
      assert acts[..|acts|] == acts;
      SchedulerSafety.JobsAreConserved(c, acts);
      if verdict && c.managers > 0 {
        SchedulerSafety.VerdictMeansAllPopped(c, acts);
        if c.AllExec() {
          SchedulerJobs.VerdictMeansAllSent(c, acts);
        }
        forall i: nat | i < c.managers
          ensures status[i] == P.DONE
        {
          assert Snapshot().status[i] == status[i];
        }
      }
    }
  }
}
