/** Several manager threads polling their clusters and sharing one job pool: one
    transition per lock-protected or externally visible action. */
module SchedulerProtocol {
  import opened JobPools

  /** Submitted jobs, manager threads, clusters per manager. */
  datatype Config = Config(jobs: seq<Job>, managers: nat, perManager: nat) {
    /** The constructor of the controller guarantees this for positive counts. */
    predicate Valid() { managers > 0 && perManager > 0 }

    /** The controller fills its pool with EXEC jobs only. */
    predicate AllExec() { forall i | 0 <= i < |jobs| :: jobs[i].jobType.EXEC? }
  }

  /** What one poll of a cluster reports: the status string of its last job, or
      an exception. */
  datatype Report = Succeeded | Running | Failed | FailedSetup | Other | NotUp | Broken

  /** How the dispatch of a job ends: sent, or one of the two kinds of exception. */
  datatype Dispatch = Sent | ClusterDown | Refused

  datatype ManagerStatus = RUNNING | DONE | ABORT

  /** Where a manager thread stands in `_schedule_job_fifo`. */
  datatype Pc =
    | LoopTop                                               // while not stopped
    | Polling(k: nat)                                       // about to query cluster k
    | FirstCheck(k: nat, report: Report)                    // succeeded and not is_empty()
    | SecondCheck(k: nat, report: Report, waiting: bool)    // succeeded and is_empty()
    | Branching(k: nat, report: Report, waiting: bool, done: bool)
    | Popping(k: nat)                                       // get_next_job()
    | Piping(k: nat, job: Job)                              // sky.exec
    | SignallingDone
    | SignallingAbort
    | Returned
    | Died

  /** `current` is the local curr_job, unbound before the first pop. */
  datatype Manager = Manager(pc: Pc, stopped: bool, current: Option<Job>)

  /** `scan`: how many managers the controller's check has found done so far;
      `verdict`: the check has returned true. */
  datatype State = State(
    pool: seq<Job>,
    managers: seq<Manager>,
    status: seq<ManagerStatus>,
    scan: nat,
    verdict: bool)

  datatype Action =
    | Poll(m: nat, report: Report)
    | Step(m: nat)
    | Pipe(m: nat, outcome: Dispatch)
    | Stop(m: nat)
    | Scan

  function Init(c: Config): State {
    State(c.jobs,
          seq(c.managers, _ => Manager(LoopTop, false, None)),
          seq(c.managers, _ => RUNNING),
          0, false)
  }

  function At(s: State, m: nat, pc: Pc): State
    requires m < |s.managers|
  {
    s.(managers := s.managers[m := s.managers[m].(pc := pc)])
  }

  /** The next cluster of the for loop, or back to the while loop. */
  function After(c: Config, k: nat): Pc {
    if k + 1 < c.perManager then Polling(k + 1) else LoopTop
  }

  /** The if-chain behind the stop check. */
  function Branch(c: Config, x: Manager): Pc
    requires x.pc.Branching?
  {
    var Branching(k, report, waiting, done) := x.pc;
    if x.stopped then LoopTop
    else if waiting then Popping(k)
    else if report.Running? then After(c, k)
    else if done then SignallingDone
    else if report.FailedSetup? then SignallingAbort
    else if report.Failed? && x.current.None? then SignallingAbort  // curr_job is unbound
    else After(c, k)
  }

  function Mark(status: seq<ManagerStatus>, m: nat, x: ManagerStatus): seq<ManagerStatus> {
    if m < |status| then status[m := x] else status
  }

  /** A step of manager m that needs no answer from outside. */
  function ManagerStep(c: Config, s: State, m: nat): State
    requires m < |s.managers|
  {
    var x := s.managers[m];
    match x.pc
    case LoopTop => At(s, m, if x.stopped then Died else Polling(0))
    case FirstCheck(k, report) => At(s, m, SecondCheck(k, report, report.Succeeded? && s.pool != []))
    case SecondCheck(k, report, waiting) =>
      At(s, m, Branching(k, report, waiting, report.Succeeded? && s.pool == []))
    case Branching(_, _, _, _) => At(s, m, Branch(c, x))
    case Popping(k) =>
      if s.pool == [] then At(s, m, SignallingAbort)  // None has no job_type: caught, then abort
      else
        s.(pool := s.pool[1..],
           managers := s.managers[m := x.(pc := Piping(k, s.pool[0]), current := Some(s.pool[0]))])
    case SignallingDone => At(s, m, Returned).(status := Mark(s.status, m, DONE))
    case SignallingAbort => At(s, m, Died).(status := Mark(s.status, m, ABORT))
    case _ => s
  }

  /** The answer to a poll. A cluster that is not up, or any other exception, ends the thread. */
  function PollStep(c: Config, s: State, m: nat, report: Report): State
    requires m < |s.managers|
  {
    match s.managers[m].pc
    case Polling(k) =>
      At(s, m, if report.NotUp? then Died else if report.Broken? then SignallingAbort else FirstCheck(k, report))
    case _ => s
  }

  /** The dispatch; a job of type SETUP is passed over. Exceptions end the thread
      as they do in a poll. */
  function PipeStep(c: Config, s: State, m: nat, outcome: Dispatch): State
    requires m < |s.managers|
  {
    match s.managers[m].pc
    case Piping(k, job) =>
      At(s, m, if outcome.Sent? || job.jobType.SETUP? then After(c, k)
               else if outcome.ClusterDown? then Died
               else SignallingAbort)
    case _ => s
  }

  /** The controller looks at one manager's status per step. */
  function ScanStep(s: State): State {
    if s.scan < |s.status| then
      s.(scan := if s.status[s.scan] == DONE then s.scan + 1 else 0)
    else s.(verdict := true)
  }

  function Next(c: Config, s: State, a: Action): State {
    match a
    case Poll(m, report) => if m < |s.managers| then PollStep(c, s, m, report) else s
    case Step(m) => if m < |s.managers| then ManagerStep(c, s, m) else s
    case Pipe(m, outcome) => if m < |s.managers| then PipeStep(c, s, m, outcome) else s
    case Stop(m) => if m < |s.managers| then s.(managers := s.managers[m := s.managers[m].(stopped := true)]) else s
    case Scan => ScanStep(s)
  }

  // ------------------------------------------------------------------------
  // What an observer writes down.

  datatype Pop = Pop(m: nat, job: Job)

  /** `popped`: jobs handed out, in order; `nones`: calls of `get_next_job` that
      found the pool empty; `unfinished`: clusters that were sent a job and have
      not reported the end of a job since. */
  datatype History = History(popped: seq<Pop>, nones: nat, unfinished: set<(nat, nat)>)

  const EMPTY_HISTORY := History([], 0, {})

  function Record(c: Config, s: State, a: Action, h: History): History {
    match a
    case Poll(m, report) =>
      if m < |s.managers| && s.managers[m].pc.Polling? && (report.Succeeded? || report.Failed? || report.FailedSetup?)
      then h.(unfinished := h.unfinished - {(m, s.managers[m].pc.k)})
      else h
    case Step(m) =>
      if m < |s.managers| && s.managers[m].pc.Popping? then
        if s.pool == [] then h.(nones := h.nones + 1)
        else h.(popped := h.popped + [Pop(m, s.pool[0])])
      else h
    case Pipe(m, outcome) =>
      if m < |s.managers| && s.managers[m].pc.Piping? && s.managers[m].pc.job.jobType.EXEC? && outcome.Sent?
      then h.(unfinished := h.unfinished + {(m, s.managers[m].pc.k)})
      else h
    case Stop(_) => h
    case Scan => h
  }

  datatype Run = Run(s: State, h: History)

  function Do(c: Config, r: Run, a: Action): Run {
    Run(Next(c, r.s, a), Record(c, r.s, a, r.h))
  }

  function DoAll(c: Config, r: Run, acts: seq<Action>): Run {
    if acts == [] then r else Do(c, DoAll(c, r, acts[..|acts| - 1]), acts[|acts| - 1])
  }

  /** A whole run of the managers. */
  function Exec(c: Config, acts: seq<Action>): Run {
    DoAll(c, Run(Init(c), EMPTY_HISTORY), acts)
  }

  /** The jobs of a list of pops. */
  function JobsOf(pops: seq<Pop>): seq<Job> {
    seq(|pops|, i requires 0 <= i < |pops| => pops[i].job)
  }
}
