/** Total correctness of a client flush: every scheduler that keeps going, by
    productive steps or in fair rounds, finishes it with everything delivered. */
module ChannelCompletion {
  import opened Words
  import opened Sums
  import opened ChannelProtocol
  import opened ChannelInvariant
  import opened ChannelDelivery
  import opened ChannelProgress

  /** Every push, flush and `recv` that was begun has returned. */
  predicate Complete(s: State) {
    AllIdle(s.warps) && s.host.Resting?
  }

  predicate NoStarts(acts: seq<Action>) {
    forall i | 0 <= i < |acts| :: !Starts(acts[i])
  }

  // ------------------------------------------------------------------------
  // A client flush, from its call to its return.

  /** The client flush is under way, or has returned and left the channel empty;
      nothing has been reserved since its call. */
  predicate FlushPhase(c: Config, s: State, h: History, log: seq<Entry>) {
    && Log(h) == log
    && (h.flusher.Client? || (AllIdle(s.warps) && s.head == s.tail == c.base))
  }

  lemma FlushBegins(c: Config, acts: seq<Action>, w: nat)
    requires c.Valid() && Fits(c, acts) && AllIdle(Exec(c, acts).s.warps) && w < c.warps
    ensures var r := Exec(c, acts + [StartFlush(w)]);
      Fits(c, acts + [StartFlush(w)]) && FlushPhase(c, r.s, r.h, Log(Exec(c, acts).h))
  {
    hide Exec, Sum, Bytes, Written, Delivered, Counts;
    Invariant(c, acts);
    ExecAppend(c, acts, StartFlush(w));
  }

  /** One step of the flushing warp: it goes on, or returns to an empty channel. */
  lemma ClientStep(c: Config, acts: seq<Action>, w: nat)
    requires c.Valid() && Fits(c, acts) && Exec(c, acts).h.flusher == Client(w)
    ensures var r, r' := Exec(c, acts), Exec(c, acts + [Device(w)]);
      FlushPhase(c, r'.s, r'.h, Log(r.h))
  {
    hide Exec, Sum, Bytes, Written, Delivered, Counts;
    Invariant(c, acts);
    ExecAppend(c, acts, Device(w));
    var s, h := Exec(c, acts).s, Exec(c, acts).h;
    assert WarpOk(c, h.late, h.flusher, w, s.warps[w]);
    assert h.past + h.epoch + [] == Log(h);
    if DeviceStep(c, s, w).warps[w].Idle? {
      ClientFlushDelivers(c, acts, w);
    }
  }

  /** The other warps stay idle, and the host does not touch the pointers. */
  lemma OthersStep(c: Config, s: State, h: History, a: Action)
    requires c.Valid() && Inv(c, s, h) && !Starts(a)
    requires FlushPhase(c, s, h, Log(h))
    requires h.flusher.Client? ==> a != Device(h.flusher.w)
    ensures FlushPhase(c, Next(c, s, a), Record(c, s, a, h), Log(h))
  {
    hide Sum, Bytes, Written, Delivered, Counts;
    if a.Device? && a.w < |s.warps| {
      assert WarpOk(c, h.late, h.flusher, a.w, s.warps[a.w]);
    }
  }

  lemma PhaseLog(c: Config, s: State, h: History, log: seq<Entry>)
    requires FlushPhase(c, s, h, log)
    ensures Log(h) == log
  {
  }

  lemma {:induction false} FlushGoesOn(c: Config, acts: seq<Action>, more: seq<Action>)
    requires c.Valid() && Fits(c, acts) && NoStarts(more)
    requires var r := Exec(c, acts); FlushPhase(c, r.s, r.h, Log(r.h))
    ensures Fits(c, acts + more)
    ensures var r := Exec(c, acts + more); FlushPhase(c, r.s, r.h, Log(Exec(c, acts).h))
  {
    hide Exec, Inv, FlushPhase, Next, Record;
    if more == [] {
      assert acts + more == acts;
    } else {
      var n := |more| - 1;
      assert acts + more == (acts + more[..n]) + [more[n]];
      FlushGoesOn(c, acts, more[..n]);
      var r := Exec(c, acts + more[..n]);
      PhaseLog(c, r.s, r.h, Log(Exec(c, acts).h));
      if r.h.flusher.Client? && more[n] == Device(r.h.flusher.w) {
        ClientStep(c, acts + more[..n], more[n].w);
      } else {
        Invariant(c, acts + more[..n]);
        OthersStep(c, r.s, r.h, more[n]);
        ExecAppend(c, acts + more[..n], more[n]);
      }
    }
  }

  lemma ClientIsNotIdle(c: Config, s: State, h: History)
    requires Inv(c, s, h)
    ensures h.flusher.Client? ==> !AllIdle(s.warps)
  {
    hide Sum, Bytes, Written, Delivered, Counts;
    if h.flusher.Client? {
      assert WarpOk(c, h.late, h.flusher, h.flusher.w, s.warps[h.flusher.w]);
    }
  }

  /** Everything pushed before the point where the log was `log` has arrived, in
      order, and the channel is empty again. */
  ghost predicate DeliveredAll(c: Config, acts: seq<Action>, s: State, h: History) {
    var log := Log(Exec(c, acts).h);
    && AllIdle(s.warps) && s.head == s.tail == c.base
    && h.received == Bytes(log)
    && forall v | 0 <= v < c.warps :: PacketsOf(log, v) == Pushed(c, acts, v)
  }

  /** A client flush that has come to an end delivered what was pushed before it. */
  lemma FlushEnds(c: Config, acts: seq<Action>, w: nat, more: seq<Action>)
    requires c.Valid() && Fits(c, acts) && AllIdle(Exec(c, acts).s.warps) && w < c.warps && NoStarts(more)
    requires Complete(Exec(c, acts + [StartFlush(w)] + more).s)
    ensures var r := Exec(c, acts + [StartFlush(w)] + more); DeliveredAll(c, acts, r.s, r.h)
  {
    hide Exec, Inv, Bytes, PacketsOf, Pushed;
    var begun := acts + [StartFlush(w)];
    FlushBegins(c, acts, w);
    FlushGoesOn(c, begun, more);
    Invariant(c, begun + more);
    ClientIsNotIdle(c, Exec(c, begun + more).s, Exec(c, begun + more).h);
    QuiescentMeansDelivered(c, begun + more);
    forall v | 0 <= v < c.warps
      ensures PacketsOf(Log(Exec(c, acts).h), v) == Pushed(c, acts, v)
    {
      WarpOrder(c, acts, v);
    }
  }

  lemma ProductiveIsNoStart(c: Config, acts: seq<Action>, more: seq<Action>)
    requires AllProductive(c, acts, more)
    ensures NoStarts(more)
  {
    hide Exec, Next;
    forall i | 0 <= i < |more|
      ensures !Starts(more[i])
    {
      assert Productive(c, Exec(c, acts + more[..i]).s, more[i]);
    }
  }

  /** Total correctness of `flush`, for schedulers that do not spin: called with
      all warps outside `push`, and followed by productive steps of the warps and
      the host until none is left, it is over within the budget; then the host has
      received exactly what was ever pushed, each warp's packets in program order,
      and the channel is empty. */
  lemma FlushCompletes(c: Config, acts: seq<Action>, w: nat, more: seq<Action>, max: nat)
    requires c.Valid() && Fits(c, acts) && AllIdle(Exec(c, acts).s.warps) && w < c.warps && 0 < max < TWO_32
    requires AllProductive(c, acts + [StartFlush(w)], more)
    requires forall a | ChunkIs(a, max) :: !Productive(c, Exec(c, acts + [StartFlush(w)] + more).s, a)
    ensures |more| <= Budget(c, acts + [StartFlush(w)])
    ensures var r := Exec(c, acts + [StartFlush(w)] + more); DeliveredAll(c, acts, r.s, r.h)
  {
    hide Exec, Productive, AllProductive, Budget, DeliveredAll;
    FlushBegins(c, acts, w);
    ProductiveIsNoStart(c, acts + [StartFlush(w)], more);
    MaximalRunCompletes(c, acts + [StartFlush(w)], more, max);
    FlushEnds(c, acts, w, more);
  }

  // ------------------------------------------------------------------------
  // Fair rounds.

  /** A stretch of a run in which every warp and the host get a turn, in any order
      and any number of times, spinning or not; nothing new is begun. */
  predicate IsRound(c: Config, round: seq<Action>, max: nat) {
    && NoStarts(round) && FixedChunk(round, max)
    && (forall w | 0 <= w < c.warps :: Device(w) in round)
    && StartRecv(max) in round && HostStep in round
  }

  predicate AllRounds(c: Config, rounds: seq<seq<Action>>, max: nat) {
    forall i | 0 <= i < |rounds| :: IsRound(c, rounds[i], max)
  }

  function Joined(rounds: seq<seq<Action>>): seq<Action> {
    if rounds == [] then [] else Joined(rounds[..|rounds| - 1]) + rounds[|rounds| - 1]
  }

  lemma NothingHappens(c: Config, s: State, a: Action)
    requires !Starts(a)
    ensures Productive(c, s, a) || Next(c, s, a) == s
  {
  }

  /** Steps that do no work leave the state as it is. */
  lemma {:induction false} WorkOrNothing(c: Config, acts: seq<Action>, more: seq<Action>)
    requires Fits(c, acts) && NoStarts(more)
    ensures Fits(c, acts + more) && Budget(c, acts + more) == Budget(c, acts)
    ensures Work(c, acts) <= Work(c, acts + more)
    ensures Work(c, acts) == Work(c, acts + more) ==>
      && Exec(c, acts + more).s == Exec(c, acts).s
      && forall i | 0 <= i < |more| :: !Productive(c, Exec(c, acts).s, more[i])
  {
    hide Exec, Work, Budget, Fits, Productive;
    if more == [] {
      assert acts + more == acts;
    } else {
      var n := |more| - 1;
      assert acts + more == (acts + more[..n]) + [more[n]];
      WorkOrNothing(c, acts, more[..n]);
      StepWork(c, acts + more[..n], more[n]);
      ExecAppend(c, acts + more[..n], more[n]);
      NothingHappens(c, Exec(c, acts + more[..n]).s, more[n]);
    }
  }

  lemma InRound(c: Config, acts: seq<Action>, a: Action, round: seq<Action>, max: nat)
    requires IsRound(c, round, max)
    requires Productive(c, Exec(c, acts).s, a) && ChunkIs(a, max)
    ensures a in round
  {
    hide Exec, DeviceStep;
    EntriesAreOfWarps(c, acts);
  }

  /** In an unfinished state a round does some work. */
  lemma RoundWorks(c: Config, acts: seq<Action>, round: seq<Action>, max: nat)
    requires c.Valid() && Fits(c, acts) && 0 < max < TWO_32 && IsRound(c, round, max)
    requires !Complete(Exec(c, acts).s)
    ensures Work(c, acts) < Work(c, acts + round)
  {
    hide Exec, Work, Productive, Fits;
    WorkOrNothing(c, acts, round);
    NoDeadlock(c, acts, max);
    var s := Exec(c, acts).s;
    var a :| Productive(c, s, a) && ChunkIs(a, max);
    assert a in round by {
      InRound(c, acts, a, round, max);
    }
  }

  /** A finished state stays as it is. */
  lemma CompleteIsStill(c: Config, s: State, h: History, a: Action)
    requires c.Valid() && Inv(c, s, h) && Complete(s) && !Starts(a)
    ensures Next(c, s, a) == s
  {
    hide Sum, Bytes, Written, Counts;
    assert s.doorbell == 0 by {
      ClientIsNotIdle(c, s, h);
    }
  }

  lemma {:induction false} CompleteStays(c: Config, acts: seq<Action>, more: seq<Action>)
    requires c.Valid() && Fits(c, acts) && NoStarts(more) && Complete(Exec(c, acts).s)
    ensures Exec(c, acts + more).s == Exec(c, acts).s
  {
    hide Exec, Inv, Fits, Next, Complete, Work, Budget;
    if more == [] {
      assert acts + more == acts;
    } else {
      var n := |more| - 1;
      assert acts + more == (acts + more[..n]) + [more[n]];
      CompleteStays(c, acts, more[..n]);
      WorkOrNothing(c, acts, more[..n]);
      Invariant(c, acts + more[..n]);
      ExecAppend(c, acts + more[..n], more[n]);
      var r := Exec(c, acts + more[..n]);
      CompleteIsStill(c, r.s, r.h, more[n]);
    }
  }

  lemma {:induction false} RoundsWork(c: Config, acts: seq<Action>, rounds: seq<seq<Action>>, max: nat)
    requires c.Valid() && Fits(c, acts) && 0 < max < TWO_32 && AllRounds(c, rounds, max)
    ensures NoStarts(Joined(rounds))
    ensures Fits(c, acts + Joined(rounds)) && Budget(c, acts + Joined(rounds)) == Budget(c, acts)
    ensures Complete(Exec(c, acts + Joined(rounds)).s)
         || Work(c, acts + Joined(rounds)) >= Work(c, acts) + |rounds|
  {
    hide Exec, Work, Budget, Fits, Complete;
    if rounds == [] {
      assert acts + Joined(rounds) == acts;
    } else {
      var n := |rounds| - 1;
      var early, round := Joined(rounds[..n]), rounds[n];
      RoundsWork(c, acts, rounds[..n], max);
      assert acts + Joined(rounds) == (acts + early) + round;
      WorkOrNothing(c, acts + early, round);
      if Complete(Exec(c, acts + early).s) {
        CompleteStays(c, acts + early, round);
      } else {
        RoundWorks(c, acts + early, round, max);
      }
    }
  }

  lemma StillWork(c: Config, acts: seq<Action>, max: nat) returns (a: Action)
    requires c.Valid() && Fits(c, acts) && 0 < max < TWO_32 && !Complete(Exec(c, acts).s)
    ensures Productive(c, Exec(c, acts).s, a) && !Starts(a)
  {
    hide Exec, Next;
    NoDeadlock(c, acts, max);
    a :| Productive(c, Exec(c, acts).s, a) && ChunkIs(a, max);
  }

  /** Progress under fairness, spin steps included: after as many rounds as the
      budget, whatever the order within each, every push, flush and `recv` begun
      before them has returned. */
  lemma RoundsComplete(c: Config, acts: seq<Action>, rounds: seq<seq<Action>>, max: nat)
    requires c.Valid() && Fits(c, acts) && 0 < max < TWO_32 && AllRounds(c, rounds, max)
    requires |rounds| >= Budget(c, acts)
    ensures Complete(Exec(c, acts + Joined(rounds)).s)
  {
    hide Exec, Work, Budget, Fits, Complete, AllRounds;
    RoundsWork(c, acts, rounds, max);
    var after := acts + Joined(rounds);
    if !Complete(Exec(c, after).s) {
      var a := StillWork(c, after, max);
      StepWork(c, after, a);
      WorkIsBounded(c, after + [a]);
    }
  }

  /** Total correctness of `flush` under fairness: called with all warps outside
      `push`, after as many rounds as the budget it has delivered everything. */
  lemma FlushCompletesInRounds(c: Config, acts: seq<Action>, w: nat, rounds: seq<seq<Action>>, max: nat)
    requires c.Valid() && Fits(c, acts) && AllIdle(Exec(c, acts).s.warps) && w < c.warps && 0 < max < TWO_32
    requires AllRounds(c, rounds, max) && |rounds| >= Budget(c, acts + [StartFlush(w)])
    ensures var r := Exec(c, acts + [StartFlush(w)] + Joined(rounds)); DeliveredAll(c, acts, r.s, r.h)
  {
    hide Exec, Budget, DeliveredAll, AllRounds, Complete;
    FlushBegins(c, acts, w);
    RoundsWork(c, acts + [StartFlush(w)], rounds, max);
    RoundsComplete(c, acts + [StartFlush(w)], rounds, max);
    FlushEnds(c, acts, w, Joined(rounds));
  }
}
