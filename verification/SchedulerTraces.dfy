/** What an observer sees of one manager: which clusters it polls, how it acts on
    the answers, how it ends, and what a stop does; and how the controller looks. */
module SchedulerTraces {
  import opened Words
  import opened Sums
  import opened JobPools
  import opened SchedulerProtocol
  import opened SchedulerSafety

  // ------------------------------------------------------------------------
  // The polls of one manager.

  datatype Answer = Answer(k: nat, report: Report)

  /** Action a is the answer to a poll of manager m. */
  predicate Polls(s: State, a: Action, m: nat) {
    a.Poll? && a.m == m && m < |s.managers| && s.managers[m].pc.Polling?
  }

  /** The clusters manager m has polled so far, with the answers. */
  function Polled(c: Config, acts: seq<Action>, m: nat): seq<Answer> {
    if acts == [] then []
    else
      var before, a := acts[..|acts| - 1], acts[|acts| - 1];
      var s := Exec(c, before).s;
      Polled(c, before, m) + if Polls(s, a, m) then [Answer(s.managers[m].pc.k, a.report)] else []
  }

  /** The jobs of manager m in a list of pops. */
  function PopsOf(pops: seq<Pop>, m: nat): seq<Job> {
    if pops == [] then []
    else
      var before, pop := pops[..|pops| - 1], pops[|pops| - 1];
      PopsOf(before, m) + if pop.m == m then [pop.job] else []
  }

  lemma PopsOfAppend(pops: seq<Pop>, pop: Pop, m: nat)
    ensures PopsOf(pops + [pop], m) == PopsOf(pops, m) + if pop.m == m then [pop.job] else []
  {
    assert (pops + [pop])[..|pops|] == pops;
  }

  /** Action a hands the oldest job to manager m. */
  predicate Pops(s: State, a: Action, m: nat) {
    a == Step(m) && m < |s.managers| && s.managers[m].pc.Popping? && s.pool != []
  }

  lemma PopsStep(c: Config, r: Run, a: Action, m: nat)
    ensures PopsOf(Record(c, r.s, a, r.h).popped, m)
         == PopsOf(r.h.popped, m) + if Pops(r.s, a, m) then [r.s.pool[0]] else []
  {
    hide PopsOf;
    if Record(c, r.s, a, r.h).popped != r.h.popped {
      PopsOfAppend(r.h.popped, Pop(a.m, r.s.pool[0]), m);
    }
  }

  /** The cluster due after n polls, if they go round. */
  function Turn(c: Config, n: nat): nat
    requires c.Valid()
  {
    n % c.perManager
  }

  lemma NextTurn(c: Config, n: nat)
    requires c.Valid()
    ensures Turn(c, 0) == 0 && Turn(c, n) < c.perManager
    ensures Turn(c, n + 1) == if Turn(c, n) + 1 < c.perManager then Turn(c, n) + 1 else 0
  {
    var k, q := n % c.perManager, n / c.perManager;
    assert n + 1 == q * c.perManager + (k + 1) == (q + 1) * c.perManager + (k + 1 - c.perManager);
    if k + 1 < c.perManager {
      ModUnique(n + 1, q, k + 1, c.perManager);
    } else {
      ModUnique(n + 1, q + 1, 0, c.perManager);
    }
  }

  /** The manager is acting on its last answer, from cluster k. */
  predicate ActsOn(c: Config, polled: seq<Answer>, k: nat, report: Report)
    requires c.Valid()
  {
    polled != [] && polled[|polled| - 1] == Answer(k, report) && k == Turn(c, |polled| - 1)
  }

  /** Where the manager is, after the polls it has made. */
  predicate InTurn(c: Config, x: Manager, polled: seq<Answer>)
    requires c.Valid()
  {
    match x.pc
    case LoopTop => Turn(c, |polled|) == 0 || x.stopped
    case Polling(k) => k == Turn(c, |polled|)
    case FirstCheck(k, report) => ActsOn(c, polled, k, report)
    case SecondCheck(k, report, waiting) => ActsOn(c, polled, k, report) && (waiting ==> report.Succeeded?)
    case Branching(k, report, waiting, done) =>
      ActsOn(c, polled, k, report) && (waiting || done ==> report.Succeeded?)
    case Popping(k) => ActsOn(c, polled, k, Succeeded)
    case Piping(k, _) => ActsOn(c, polled, k, Succeeded)
    case SignallingDone => polled != [] && polled[|polled| - 1].report.Succeeded?
    case Returned => polled != [] && polled[|polled| - 1].report.Succeeded?
    case _ => true
  }

  /** The i-th poll of the manager was of cluster i, counting round. */
  ghost predicate RoundRobin(c: Config, polled: seq<Answer>)
    requires c.Valid()
  {
    forall i | 0 <= i < |polled| :: polled[i].k == Turn(c, i)
  }

  /** An action of another manager, or of the controller, leaves manager m alone. */
  lemma OthersStay(c: Config, s: State, a: Action, m: nat)
    requires m < |s.managers| && (a.Scan? || a.m != m)
    ensures var s' := Next(c, s, a);
      && |s'.managers| == |s.managers| && |s'.status| == |s.status|
      && s'.managers[m] == s.managers[m]
      && (m < |s.status| ==> s'.status[m] == s.status[m])
  {
  }

  lemma StepTurn(c: Config, s: State, m: nat, polled: seq<Answer>)
    requires c.Valid() && m < |s.managers| && InTurn(c, s.managers[m], polled)
    ensures |ManagerStep(c, s, m).managers| == |s.managers| && InTurn(c, ManagerStep(c, s, m).managers[m], polled)
  {
    hide Turn, Mark;
    NextTurn(c, |polled|);
    if |polled| > 0 {
      NextTurn(c, |polled| - 1);
    }
  }

  lemma OwnTurn(c: Config, s: State, a: Action, m: nat, polled: seq<Answer>)
    requires c.Valid() && m < |s.managers| && !a.Scan? && a.m == m
    requires InTurn(c, s.managers[m], polled)
    ensures var polled' := polled + if Polls(s, a, m) then [Answer(s.managers[m].pc.k, a.report)] else [];
      && |Next(c, s, a).managers| == |s.managers|
      && InTurn(c, Next(c, s, a).managers[m], polled')
      && (Polls(s, a, m) ==> s.managers[m].pc.k == Turn(c, |polled|))
  {
    hide Turn, ManagerStep;
    assert polled + [] == polled;
    StepTurn(c, s, m, polled);
    NextTurn(c, |polled|);
    if |polled| > 0 {
      NextTurn(c, |polled| - 1);
    }
  }

  lemma TurnStep(c: Config, s: State, a: Action, m: nat, polled: seq<Answer>)
    requires c.Valid() && m < |s.managers|
    requires InTurn(c, s.managers[m], polled) && RoundRobin(c, polled)
    ensures var polled' := polled + if Polls(s, a, m) then [Answer(s.managers[m].pc.k, a.report)] else [];
      && |Next(c, s, a).managers| == |s.managers|
      && InTurn(c, Next(c, s, a).managers[m], polled') && RoundRobin(c, polled')
  {
    hide Turn, InTurn, Next;
    assert polled + [] == polled;
    if a.Scan? || a.m != m {
      OthersStay(c, s, a, m);
    } else {
      OwnTurn(c, s, a, m, polled);
    }
  }

  lemma FreshManager(c: Config, m: nat)
    requires c.Valid() && m < c.managers
    ensures InTurn(c, Init(c).managers[m], []) && RoundRobin(c, [])
  {
  }

  lemma {:induction false} TurnAlways(c: Config, acts: seq<Action>, m: nat)
    requires c.Valid() && m < c.managers
    ensures |Exec(c, acts).s.managers| == c.managers
    ensures InTurn(c, Exec(c, acts).s.managers[m], Polled(c, acts, m)) && RoundRobin(c, Polled(c, acts, m))
  {
    hide InTurn, RoundRobin, Next, Record, Polls;
    if acts == [] {
      FreshManager(c, m);
    } else {
      var before := acts[..|acts| - 1];
      TurnAlways(c, before, m);
      TurnStep(c, Exec(c, before).s, acts[|acts| - 1], m, Polled(c, before, m));
    }
  }

  /** Every manager polls its clusters round and round, whatever the answers are
      and whatever the others do: its i-th poll is of cluster i modulo their number. */
  lemma PollsGoRound(c: Config, acts: seq<Action>, m: nat, i: nat)
    requires c.Valid() && m < c.managers && i < |Polled(c, acts, m)|
    ensures Polled(c, acts, m)[i].k == i % c.perManager
  {
    hide Exec, Polled;
    TurnAlways(c, acts, m);
  }

  /** A manager pops a job, or has one in hand, only for the cluster it polled last,
      and only after that cluster reported success. */
  lemma PopsFollowSuccess(c: Config, acts: seq<Action>, m: nat)
    requires c.Valid() && m < |Exec(c, acts).s.managers|
    requires var pc := Exec(c, acts).s.managers[m].pc; pc.Popping? || pc.Piping?
    ensures var polled := Polled(c, acts, m);
      polled != [] && polled[|polled| - 1] == Answer(Exec(c, acts).s.managers[m].pc.k, Succeeded)
  {
    hide Exec, Polled;
    DoneAlways(c, acts);
    TurnAlways(c, acts, m);
  }

  // ------------------------------------------------------------------------
  // How a manager ends.

  datatype Ending = Going | Finishing | Aborting | Quitting

  /** The dispatch of an EXEC job by manager m ends in an exception. */
  predicate FailsToSend(s: State, a: Action, m: nat) {
    && a.Pipe? && a.m == m && m < |s.managers|
    && s.managers[m].pc.Piping? && s.managers[m].pc.job.jobType.EXEC? && !a.outcome.Sent?
  }

  /** Manager m, not stopped, acts on a report. */
  predicate Acts(s: State, a: Action, m: nat) {
    a == Step(m) && m < |s.managers| && s.managers[m].pc.Branching? && !s.managers[m].stopped
  }

  /** The observed events that end manager m in ABORT: an exception while polling or
      dispatching, a pop that finds nothing, a failed setup, and a failed job
      before the manager ever popped one. */
  predicate IsFatal(r: Run, a: Action, m: nat) {
    || (Polls(r.s, a, m) && a.report.Broken?)
    || (FailsToSend(r.s, a, m) && a.outcome.Refused?)
    || (a == Step(m) && m < |r.s.managers| && r.s.managers[m].pc.Popping? && r.s.pool == [])
    || (Acts(r.s, a, m) && r.s.managers[m].pc.report.FailedSetup?)
    || (Acts(r.s, a, m) && r.s.managers[m].pc.report.Failed? && PopsOf(r.h.popped, m) == [])
  }

  /** The events that end its thread without a word: a cluster that is not up, or
      the loop test after a stop. */
  predicate IsQuit(r: Run, a: Action, m: nat) {
    || (Polls(r.s, a, m) && a.report.NotUp?)
    || (FailsToSend(r.s, a, m) && a.outcome.ClusterDown?)
    || (a == Step(m) && m < |r.s.managers| && r.s.managers[m].pc.LoopTop? && r.s.managers[m].stopped)
  }

  /** The event that ends it in DONE: a success for which it found the pool empty. */
  predicate IsFinish(r: Run, a: Action, m: nat) {
    Acts(r.s, a, m) && r.s.managers[m].pc.report.Succeeded? && !r.s.managers[m].pc.waiting
  }

  /** What the next action makes of a manager's ending. */
  function Ends(r: Run, a: Action, m: nat, e: Ending): Ending {
    if e != Going then e
    else if IsFatal(r, a, m) then Aborting
    else if IsQuit(r, a, m) then Quitting
    else if IsFinish(r, a, m) then Finishing
    else Going
  }

  /** The first of these events in a run. */
  function EndingOf(c: Config, acts: seq<Action>, m: nat): Ending {
    if acts == [] then Going
    else
      var before, a := acts[..|acts| - 1], acts[|acts| - 1];
      Ends(Exec(c, before), a, m, EndingOf(c, before, m))
  }

  /** What the end of a manager looks like from outside. */
  predicate Shows(x: Pc, status: ManagerStatus, e: Ending) {
    && (e.Aborting? <==> x.SignallingAbort? || status.ABORT?)
    && (e.Quitting? <==> x.Died? && status.RUNNING?)
    && (e.Finishing? <==> x.SignallingDone? || status.DONE?)
  }

  /** The manager's local curr_job is bound exactly when it has popped. */
  predicate CurrentIsPopped(r: Run, m: nat)
    requires m < |r.s.managers|
  {
    r.s.managers[m].current.None? <==> PopsOf(r.h.popped, m) == []
  }

  lemma CurrentStep(c: Config, r: Run, a: Action, m: nat)
    requires m < |r.s.managers| && CurrentIsPopped(r, m)
    ensures |Do(c, r, a).s.managers| == |r.s.managers| && CurrentIsPopped(Do(c, r, a), m)
  {
    hide PopsOf, Record;
    PopsStep(c, r, a, m);
    var pops := PopsOf(r.h.popped, m);
    assert pops + [] == pops;
    if a.Scan? || a.m != m {
      OthersStay(c, r.s, a, m);
    }
  }

  lemma StepEnd(c: Config, r: Run, m: nat, e: Ending)
    requires m < |r.s.managers| == |r.s.status|
    requires PlaceOk(c, r.s.pool == [], r.s.managers[m].pc, r.s.status[m])
    requires CurrentIsPopped(r, m) && Shows(r.s.managers[m].pc, r.s.status[m], e)
    ensures var s' := ManagerStep(c, r.s, m);
      && |s'.managers| == |s'.status| == |r.s.managers|
      && Shows(s'.managers[m].pc, s'.status[m], Ends(r, Step(m), m, e))
  {
    hide PopsOf;
  }

  lemma OwnEnd(c: Config, r: Run, a: Action, m: nat, e: Ending)
    requires m < |r.s.managers| == |r.s.status| && !a.Scan? && a.m == m
    requires PlaceOk(c, r.s.pool == [], r.s.managers[m].pc, r.s.status[m])
    requires CurrentIsPopped(r, m) && Shows(r.s.managers[m].pc, r.s.status[m], e)
    ensures var s' := Next(c, r.s, a);
      && |s'.managers| == |s'.status| == |r.s.managers|
      && Shows(s'.managers[m].pc, s'.status[m], Ends(r, a, m, e))
  {
    if a.Step? {
      hide PopsOf, ManagerStep, Shows, Ends;
      StepEnd(c, r, m, e);
    } else {
      hide PopsOf, ManagerStep;
    }
  }

  lemma ShowsStep(c: Config, r: Run, a: Action, m: nat, e: Ending)
    requires DoneInv(c, r.s) && m < c.managers
    requires CurrentIsPopped(r, m) && Shows(r.s.managers[m].pc, r.s.status[m], e)
    ensures var s' := Next(c, r.s, a);
      && |s'.managers| == |s'.status| == c.managers
      && Shows(s'.managers[m].pc, s'.status[m], Ends(r, a, m, e))
  {
    hide PopsOf, Next, Shows, PlaceOk;
    assert PlaceOk(c, r.s.pool == [], r.s.managers[m].pc, r.s.status[m]);
    if a.Scan? || a.m != m {
      OthersStay(c, r.s, a, m);
    } else {
      OwnEnd(c, r, a, m, e);
    }
  }

  lemma FreshEnding(c: Config, m: nat)
    requires m < c.managers
    ensures CurrentIsPopped(Run(Init(c), EMPTY_HISTORY), m)
    ensures Shows(Init(c).managers[m].pc, Init(c).status[m], Going)
  {
  }

  lemma {:induction false} ShowsAlways(c: Config, acts: seq<Action>, m: nat)
    requires m < c.managers
    ensures var r := Exec(c, acts);
      && |r.s.managers| == |r.s.status| == c.managers
      && CurrentIsPopped(r, m) && Shows(r.s.managers[m].pc, r.s.status[m], EndingOf(c, acts, m))
  {
    hide DoneInv, Next, Record, Ends, Shows, CurrentIsPopped;
    if acts == [] {
      FreshEnding(c, m);
    } else {
      var before := acts[..|acts| - 1];
      ShowsAlways(c, before, m);
      DoneAlways(c, before);
      CurrentStep(c, Exec(c, before), acts[|acts| - 1], m);
      ShowsStep(c, Exec(c, before), acts[|acts| - 1], m, EndingOf(c, before, m));
    }
  }

  /** A manager ends exactly as the observed events say, in every interleaving: it is
      about to abort or has status ABORT exactly if a fatal event came first, it is
      about to be done or DONE exactly if it found the pool empty after a success,
      it is gone with status RUNNING exactly if it quit, and otherwise it goes on. */
  lemma EndsExactly(c: Config, acts: seq<Action>, m: nat)
    requires m < c.managers
    ensures var s, e := Exec(c, acts).s, EndingOf(c, acts, m);
      && |s.managers| == |s.status| == c.managers
      && (s.managers[m].pc.SignallingAbort? || s.status[m].ABORT? <==> e.Aborting?)
      && (s.managers[m].pc.SignallingDone? || s.status[m].DONE? <==> e.Finishing?)
      && (s.managers[m].pc.Died? && s.status[m].RUNNING? <==> e.Quitting?)
  {
    hide Exec, EndingOf;
    ShowsAlways(c, acts, m);
  }

  /** The cluster after k, or the test of the while loop. */
  function Onward(c: Config, k: nat): Pc { if k + 1 < c.perManager then Polling(k + 1) else LoopTop }

  /** One answer and the three steps of manager m that follow it. */
  function Turnaround(m: nat, report: Report): seq<Action> { [Poll(m, report), Step(m), Step(m), Step(m)] }

  /** Where an undisturbed, unstopped manager is after acting on an answer. */
  function Consequence(c: Config, r: Run, m: nat, k: nat, report: Report): Pc {
    match report
    case Succeeded => if r.s.pool != [] then Popping(k) else SignallingDone
    case Running => Onward(c, k)
    case Other => Onward(c, k)
    case Failed => if PopsOf(r.h.popped, m) == [] then SignallingAbort else Onward(c, k)
    case FailedSetup => SignallingAbort
    case NotUp => Died
    case Broken => Died
  }

  lemma ExecAppend(c: Config, acts: seq<Action>, a: Action)
    ensures Exec(c, acts + [a]) == Do(c, Exec(c, acts), a)
  {
    assert (acts + [a])[..|acts|] == acts;
  }

  lemma TurnaroundRun(c: Config, acts: seq<Action>, m: nat, report: Report)
    ensures var r0 := Exec(c, acts);
      var r1 := Do(c, r0, Poll(m, report));
      var r2 := Do(c, r1, Step(m));
      var r3 := Do(c, r2, Step(m));
      Exec(c, acts + Turnaround(m, report)) == Do(c, r3, Step(m))
  {
    hide Do, Exec;
    var a, b := Poll(m, report), Step(m);
    assert acts + Turnaround(m, report) == acts + [a] + [b] + [b] + [b];
    ExecAppend(c, acts, a);
    ExecAppend(c, acts + [a], b);
    ExecAppend(c, acts + [a] + [b], b);
    ExecAppend(c, acts + [a] + [b] + [b], b);
  }

  /** What an answer leads to, for every reachable state: with nothing in between,
      a success is served from the pool or, if it is empty, ends in DONE; a running
      cluster is left alone; a failed job is passed over, unless the manager
      has not popped any; a failed setup and an exception abort; a cluster that is
      not up kills the thread and leaves its status. */
  lemma AnswerDecides(c: Config, acts: seq<Action>, m: nat, report: Report)
    requires var s := Exec(c, acts).s; m < |s.managers| && s.managers[m].pc.Polling? && !s.managers[m].stopped
    ensures var r, s' := Exec(c, acts), Exec(c, acts + Turnaround(m, report)).s;
      var x := r.s.managers[m];
      && m < |r.s.status|
      && s'.managers == r.s.managers[m := x.(pc := Consequence(c, r, m, x.pc.k, report))]
      && s'.pool == r.s.pool
      && s'.status == if report.Broken? then r.s.status[m := ABORT] else r.s.status
  {
    hide Exec, PopsOf;
    DoneAlways(c, acts);
    ShowsAlways(c, acts, m);
    TurnaroundRun(c, acts, m, report);
    hide EndingOf, Shows;
    var r0 := Exec(c, acts);
    var k := r0.s.managers[m].pc.k;
    var r1 := Do(c, r0, Poll(m, report));
    if !report.NotUp? && !report.Broken? {
      assert r1.s == At(r0.s, m, FirstCheck(k, report));
      var waiting := report.Succeeded? && r0.s.pool != [];
      var r2 := Do(c, r1, Step(m));
      assert r2.s == At(r0.s, m, SecondCheck(k, report, waiting));
      var r3 := Do(c, r2, Step(m));
      assert r3.s == At(r0.s, m, Branching(k, report, waiting, report.Succeeded? && r0.s.pool == []));
    } else {
      var x := r0.s.managers[m];
      assert r1.s.managers == r0.s.managers[m := x.(pc := if report.NotUp? then Died else SignallingAbort)];
      var r2 := Do(c, r1, Step(m));
      assert r2.s.managers == r0.s.managers[m := x.(pc := Died)];
    }
  }

  // ------------------------------------------------------------------------
  // Managers keep going.

  /** Manager m moves other than by an answer to a poll. */
  predicate Moves(c: Config, s: State, a: Action, m: nat) {
    && (a.Step? || a.Pipe?) && a.m == m && m < |s.managers| == |Next(c, s, a).managers|
    && Next(c, s, a).managers[m].pc != s.managers[m].pc
  }

  function MovesOf(c: Config, acts: seq<Action>, m: nat): nat {
    if acts == [] then 0
    else
      var before, a := acts[..|acts| - 1], acts[|acts| - 1];
      MovesOf(c, before, m) + if Moves(c, Exec(c, before).s, a, m) then 1 else 0
  }

  /** The most moves before the next poll. */
  function MovesLeft(x: Pc): nat {
    match x
    case LoopTop => 1
    case Polling(_) => 0
    case FirstCheck(_, _) => 6
    case SecondCheck(_, _, _) => 5
    case Branching(_, _, _, _) => 4
    case Popping(_) => 3
    case Piping(_, _) => 2
    case SignallingDone => 1
    case SignallingAbort => 1
    case Returned => 0
    case Died => 0
  }

  lemma MovesStep(c: Config, s: State, a: Action, m: nat)
    requires m < |s.managers|
    ensures |Next(c, s, a).managers| == |s.managers|
    ensures MovesLeft(Next(c, s, a).managers[m].pc) + (if Moves(c, s, a, m) then 1 else 0)
         <= MovesLeft(s.managers[m].pc) + if Polls(s, a, m) then 6 else 0
  {
    if a.Scan? || a.m != m {
      OthersStay(c, s, a, m);
    }
  }

  /** A manager never runs on without polling: six moves for each poll, and one to
      get there. */
  lemma {:induction false} MovesBounded(c: Config, acts: seq<Action>, m: nat)
    requires m < c.managers
    ensures |Exec(c, acts).s.managers| == c.managers
    ensures MovesOf(c, acts, m) + MovesLeft(Exec(c, acts).s.managers[m].pc) <= 6 * |Polled(c, acts, m)| + 1
  {
    hide Next, Record, Moves, Polls;
    if acts != [] {
      var before := acts[..|acts| - 1];
      MovesBounded(c, before, m);
      MovesStep(c, Exec(c, before).s, acts[|acts| - 1], m);
    }
  }

  /** And it is never stuck: until it has returned or died it can be polled for or
      can move. */
  lemma NeverStuck(c: Config, acts: seq<Action>, m: nat)
    requires m < |Exec(c, acts).s.managers|
    requires var pc := Exec(c, acts).s.managers[m].pc; !pc.Returned? && !pc.Died?
    ensures var s := Exec(c, acts).s; exists a :: Polls(s, a, m) || Moves(c, s, a, m)
  {
    hide Exec;
    var s := Exec(c, acts).s;
    var pc := s.managers[m].pc;
    if pc.Polling? {
      assert Polls(s, Poll(m, Running), m);
    } else if pc.Piping? {
      assert Moves(c, s, Pipe(m, Sent), m);
    } else {
      assert Moves(c, s, Step(m), m);
    }
  }

  // ------------------------------------------------------------------------
  // Stopping.

  /** Polls a stopped manager can still make. */
  function PollsLeft(x: Pc): nat {
    if x.Polling? || x.Popping? || x.Piping? then 1 else 0
  }

  /** Pops a stopped manager can still make. */
  function PopsLeft(x: Pc): nat {
    if x.Popping? then 1 else 0
  }

  lemma OwnStopped(c: Config, s: State, a: Action, m: nat)
    requires m < |s.managers| == |s.status| && s.managers[m].stopped && !a.Scan? && a.m == m
    requires PlaceOk(c, s.pool == [], s.managers[m].pc, s.status[m])
    ensures var s' := Next(c, s, a);
      && |s'.managers| == |s'.status| == |s.managers| && s'.managers[m].stopped
      && PollsLeft(s'.managers[m].pc) + (if Polls(s, a, m) then 1 else 0) <= PollsLeft(s.managers[m].pc)
      && PopsLeft(s'.managers[m].pc) + (if Pops(s, a, m) then 1 else 0) <= PopsLeft(s.managers[m].pc)
      && (s'.status[m].DONE? || s'.managers[m].pc.SignallingDone?
          ==> s.status[m].DONE? || s.managers[m].pc.SignallingDone?)
  {
  }

  lemma StoppedStep(c: Config, r: Run, a: Action, m: nat)
    requires DoneInv(c, r.s) && m < c.managers && r.s.managers[m].stopped
    ensures var r' := Do(c, r, a);
      && |r'.s.managers| == |r'.s.status| == c.managers && r'.s.managers[m].stopped
      && PollsLeft(r'.s.managers[m].pc) + (if Polls(r.s, a, m) then 1 else 0) <= PollsLeft(r.s.managers[m].pc)
      && |PopsOf(r'.h.popped, m)| + PopsLeft(r'.s.managers[m].pc)
         <= |PopsOf(r.h.popped, m)| + PopsLeft(r.s.managers[m].pc)
      && (r'.s.status[m].DONE? || r'.s.managers[m].pc.SignallingDone?
          ==> r.s.status[m].DONE? || r.s.managers[m].pc.SignallingDone?)
  {
    hide PopsOf, PlaceOk, Next, Record, PollsLeft, PopsLeft;
    assert PlaceOk(c, r.s.pool == [], r.s.managers[m].pc, r.s.status[m]);
    PopsStep(c, r, a, m);
    if a.Scan? || a.m != m {
      OthersStay(c, r.s, a, m);
    } else {
      OwnStopped(c, r.s, a, m);
    }
  }

  lemma Lengths(c: Config, acts: seq<Action>)
    ensures |Exec(c, acts).s.managers| == |Exec(c, acts).s.status| == c.managers
  {
    DoneAlways(c, acts);
  }

  /** From r to r' manager m makes at most the polls and pops left to it, and becomes
      done only if it was about to say so. */
  ghost predicate WindsDown(c: Config, acts: seq<Action>, later: seq<Action>, m: nat) {
    var r, r' := Exec(c, acts), Exec(c, later);
    && m < |r.s.managers| == |r.s.status| == |r'.s.managers| == |r'.s.status|
    && |Polled(c, later, m)| + PollsLeft(r'.s.managers[m].pc)
       <= |Polled(c, acts, m)| + PollsLeft(r.s.managers[m].pc)
    && |PopsOf(r'.h.popped, m)| + PopsLeft(r'.s.managers[m].pc)
       <= |PopsOf(r.h.popped, m)| + PopsLeft(r.s.managers[m].pc)
    && (r'.s.status[m].DONE? || r'.s.managers[m].pc.SignallingDone?
        ==> r.s.status[m].DONE? || r.s.managers[m].pc.SignallingDone?)
  }

  lemma StopStops(c: Config, acts: seq<Action>, m: nat)
    requires m < |Exec(c, acts).s.managers|
    ensures var s := Exec(c, acts + [Stop(m)]).s; m < |s.managers| && s.managers[m].stopped
    ensures WindsDown(c, acts, acts + [Stop(m)], m)
  {
    Lengths(c, acts);
    assert (acts + [Stop(m)])[..|acts|] == acts;
  }

  /** Once manager m is stopped, and whatever happens then, it makes at most one more
      poll, pops only if it was about to, and does not become done unless it was
      about to say so. */
  lemma {:induction false} StopIsObeyed(c: Config, acts: seq<Action>, m: nat, more: seq<Action>)
    requires m < |Exec(c, acts).s.managers|
    ensures var s := Exec(c, acts + [Stop(m)] + more).s; m < |s.managers| && s.managers[m].stopped
    ensures WindsDown(c, acts, acts + [Stop(m)] + more, m)
  {
    hide DoneInv, Next, Record, Polls, PopsOf, PollsLeft, PopsLeft;
    var stop := acts + [Stop(m)];
    if more == [] {
      assert stop + more == stop;
      StopStops(c, acts, m);
    } else {
      var early, a := more[..|more| - 1], more[|more| - 1];
      assert (stop + more)[..|stop + early|] == stop + early;
      StopIsObeyed(c, acts, m, early);
      DoneAlways(c, stop + early);
      Lengths(c, stop + early);
      StoppedStep(c, Exec(c, stop + early), a, m);
    }
  }

  // ------------------------------------------------------------------------
  // Quiet runs.

  predicate IsHarmless(report: Report) {
    report.Succeeded? || report.Running? || report.Other?
  }

  predicate IsGentle(a: Action) {
    && !a.Stop?
    && (a.Poll? ==> IsHarmless(a.report))
    && (a.Pipe? ==> a.outcome.Sent?)
  }

  /** Nobody is stopped, nothing fails, and every dispatch succeeds. */
  predicate Gentle(acts: seq<Action>) {
    forall i | 0 <= i < |acts| :: IsGentle(acts[i])
  }

  /** Managers that are about to abort, gone, or marked ABORT. */
  predicate HasFailed(x: Pc, status: ManagerStatus) {
    x.SignallingAbort? || x.Died? || status.ABORT?
  }

  function Failures(s: State): seq<nat>
    requires |s.managers| == |s.status|
  {
    seq(|s.managers|, i requires 0 <= i < |s.managers| =>
      if HasFailed(s.managers[i].pc, s.status[i]) then 1 else 0)
  }

  predicate IsUnharmed(x: Manager) {
    !x.stopped && match x.pc
      case FirstCheck(_, report) => IsHarmless(report)
      case SecondCheck(_, report, _) => IsHarmless(report)
      case Branching(_, report, _, _) => IsHarmless(report)
      case _ => true
  }

  lemma GentleStep(c: Config, r: Run, a: Action, m: nat)
    requires |r.s.managers| == |r.s.status| && m < |r.s.managers| && IsGentle(a)
    requires PlaceOk(c, r.s.pool == [], r.s.managers[m].pc, r.s.status[m]) && IsUnharmed(r.s.managers[m])
    ensures var r' := Do(c, r, a);
      && |r'.s.managers| == |r'.s.status| == |r.s.managers| && IsUnharmed(r'.s.managers[m])
      && (a.Scan? || a.m != m ==> r'.s.managers[m] == r.s.managers[m] && r'.s.status[m] == r.s.status[m])
      && (!a.Scan? && a.m == m ==>
            (if HasFailed(r'.s.managers[m].pc, r'.s.status[m]) then 1 else 0)
            == (if HasFailed(r.s.managers[m].pc, r.s.status[m]) then 1 else 0) + r'.h.nones - r.h.nones)
      && (a.Scan? || a.m >= |r.s.managers| ==> r'.h.nones == r.h.nones)
  {
    if a.Scan? || a.m != m {
      OthersStay(c, r.s, a, m);
    }
  }

  lemma NonesStay(c: Config, r: Run, a: Action)
    ensures |Do(c, r, a).s.managers| == |r.s.managers| && |Do(c, r, a).s.status| == |r.s.status|
    ensures a.Scan? || a.m >= |r.s.managers| ==> Do(c, r, a).h.nones == r.h.nones
  {
  }

  lemma GentleSum(c: Config, r: Run, a: Action)
    requires DoneInv(c, r.s) && IsGentle(a) && Sum(Failures(r.s)) == r.h.nones
    requires forall m | 0 <= m < |r.s.managers| :: IsUnharmed(r.s.managers[m])
    ensures var r' := Do(c, r, a);
      && |r'.s.managers| == |r'.s.status| == |r.s.managers| && Sum(Failures(r'.s)) == r'.h.nones
      && forall m | 0 <= m < |r'.s.managers| :: IsUnharmed(r'.s.managers[m])
  {
    hide Sum, Do, IsUnharmed, HasFailed, PlaceOk;
    var r' := Do(c, r, a);
    forall m | 0 <= m < |r.s.managers|
      ensures |r'.s.managers| == |r'.s.status| == |r.s.managers| && IsUnharmed(r'.s.managers[m])
      ensures a.Scan? || a.m != m ==> Failures(r'.s)[m] == Failures(r.s)[m]
    {
      assert PlaceOk(c, r.s.pool == [], r.s.managers[m].pc, r.s.status[m]);
      GentleStep(c, r, a, m);
    }
    NonesStay(c, r, a);
    if !a.Scan? && a.m < |r.s.managers| {
      assert PlaceOk(c, r.s.pool == [], r.s.managers[a.m].pc, r.s.status[a.m]);
      GentleStep(c, r, a, a.m);
      SumChange(Failures(r.s), Failures(r'.s), a.m);
    } else {
      assert Failures(r'.s) == Failures(r.s);
    }
  }

  lemma FreshIsGentle(c: Config)
    ensures var s := Init(c);
      && |s.managers| == |s.status| == c.managers && Sum(Failures(s)) == 0
      && forall m | 0 <= m < |s.managers| :: IsUnharmed(s.managers[m])
  {
    SumZero(Failures(Init(c)));
  }

  /** When nothing fails around it, a manager fails only by coming away
      empty-handed: in every run without stops in which clusters succeed, run or
      report something else, and every dispatch is sent, the managers that have
      failed number exactly the pops that found nothing. */
  lemma {:induction false} OnlyNonesAbort(c: Config, acts: seq<Action>)
    requires Gentle(acts)
    ensures var r := Exec(c, acts);
      && |r.s.managers| == |r.s.status| == c.managers
      && Sum(Failures(r.s)) == r.h.nones
      && forall m | 0 <= m < |r.s.managers| :: IsUnharmed(r.s.managers[m])
  {
    hide Sum, DoneInv, Do, IsUnharmed, IsGentle;
    if acts == [] {
      FreshIsGentle(c);
    } else {
      var before, a := acts[..|acts| - 1], acts[|acts| - 1];
      OnlyNonesAbort(c, before);
      DoneAlways(c, before);
      assert IsGentle(a);
      GentleSum(c, Exec(c, before), a);
    }
  }

  // ------------------------------------------------------------------------
  // The controller's check.

  /** The managers that the current call of the check has found done, in order. */
  function Looks(c: Config, acts: seq<Action>): seq<nat> {
    if acts == [] then []
    else
      var before, a := acts[..|acts| - 1], acts[|acts| - 1];
      var s := Exec(c, before).s;
      if !a.Scan? || s.scan >= |s.status| then Looks(c, before)
      else if s.status[s.scan] == DONE then Looks(c, before) + [s.scan]
      else []
  }

  lemma VerdictScan(c: Config, acts: seq<Action>)
    ensures Exec(c, acts).s.verdict ==> Exec(c, acts).s.scan == c.managers
  {
    DoneAlways(c, acts);
  }

  lemma ScanChanges(c: Config, s: State, a: Action)
    ensures !a.Scan? ==> Next(c, s, a).scan == s.scan && Next(c, s, a).verdict == s.verdict
  {
  }

  /** The check returns true only after looking at every manager, from the first to
      the last, within one call: a look that finds one not done begins afresh. */
  lemma {:induction false} CheckLooksAtAll(c: Config, acts: seq<Action>)
    ensures var s := Exec(c, acts).s;
      Looks(c, acts) == seq(s.scan, i => i) && (s.verdict ==> Looks(c, acts) == seq(c.managers, i => i))
  {
    hide DoneInv, Record;
    if acts != [] {
      var before := acts[..|acts| - 1];
      CheckLooksAtAll(c, before);
      DoneAlways(c, acts);
      ScanChanges(c, Exec(c, before).s, acts[|acts| - 1]);
    }
    VerdictScan(c, acts);
  }

  function Scans(acts: seq<Action>): nat {
    if acts == [] then 0 else Scans(acts[..|acts| - 1]) + if acts[|acts| - 1].Scan? then 1 else 0
  }

  lemma ScanInRange(c: Config, s: State)
    requires DoneInv(c, s)
    ensures s.scan <= |s.status| == c.managers
  {
  }

  lemma ScanAdvances(c: Config, s: State, a: Action)
    requires s.scan <= |s.status| && forall m | 0 <= m < |s.status| :: s.status[m] == DONE
    ensures s.verdict ==> Next(c, s, a).verdict
    ensures a.Scan? ==> Next(c, s, a).verdict || Next(c, s, a).scan == s.scan + 1
    ensures !a.Scan? ==> Next(c, s, a).scan == s.scan
  {
  }

  /** And once every manager is done it does return true, after at most one look
      per manager and one more, whatever else goes on. */
  lemma {:induction false} VerdictComes(c: Config, acts: seq<Action>, more: seq<Action>)
    requires forall m | 0 <= m < |Exec(c, acts).s.status| :: Exec(c, acts).s.status[m] == DONE
    ensures var s := Exec(c, acts + more).s;
      s.verdict || (Scans(more) <= s.scan <= c.managers)
    ensures Scans(more) > c.managers ==> Exec(c, acts + more).s.verdict
  {
    hide DoneInv, Next, Record;
    DoneAlways(c, acts + more);
    ScanInRange(c, Exec(c, acts + more).s);
    if more == [] {
      assert acts + more == acts;
    } else {
      var early, a := more[..|more| - 1], more[|more| - 1];
      assert (acts + more)[..|acts + early|] == acts + early;
      VerdictComes(c, acts, early);
      DoneAndEmptyAreStable(c, acts, early);
      DoneAlways(c, acts + early);
      ScanInRange(c, Exec(c, acts + early).s);
      ScanAdvances(c, Exec(c, acts + early).s, a);
    }
  }
}
