/** Progress of the channel: no reachable state is stuck, the work of every run
    is bounded by what it was asked to push, and a packet that exceeds the
    buffer is exactly what breaks this. */
module ChannelProgress {
  import opened Words
  import opened Sums
  import opened ChannelProtocol
  import opened ChannelInvariant
  import opened ChannelDelivery

  /** A call of `push` or `flush` by client code. */
  predicate Starts(a: Action) { a.StartPush? || a.StartFlush? }

  /** A step inside `push`, `flush` or `recv` that is not a turn of a spin loop
      and not a `recv` that finds nothing. */
  predicate Productive(c: Config, s: State, a: Action) {
    !Starts(a) && Next(c, s, a) != s
  }

  // ------------------------------------------------------------------------
  // No deadlock.

  /** A warp that is neither spinning nor waiting for anybody can move. */
  lemma MovesAlone(c: Config, s: State, w: nat)
    requires w < |s.warps|
    requires s.warps[w].Reserving? || s.warps[w].Copying? || s.warps[w].ReadingLength?
          || s.warps[w].ResettingTail? || s.warps[w].ResettingHead?
          || (s.warps[w].Ringing? && s.doorbell == 0)
          || (s.warps[w].AwaitingHost? && s.doorbell == 0)
          || (s.warps[w].AwaitingTail? && s.tail == s.warps[w].ticket)
          || (s.warps[w].Spinning? && s.head <= c.End())
    ensures Productive(c, s, Device(w))
  {
    assert DeviceStep(c, s, w).warps[w] != s.warps[w];
  }

  lemma HostMoves(c: Config, s: State)
    requires !s.host.Resting?
    ensures Productive(c, s, HostStep)
  {
    assert HostNext(c, s).host != s.host;
  }

  /** Somebody can move while a warp is flushing. */
  lemma FlusherHelped(c: Config, s: State, h: History, max: nat) returns (a: Action)
    requires c.Valid() && Inv(c, s, h) && s.host.Resting? && 0 < max < TWO_32
    requires h.flusher.Pushing? || h.flusher.Client?
    ensures Productive(c, s, a) && ChunkIs(a, max)
  {
    hide Sum, Bytes, Written;
    var f := h.flusher.w;
    var x := s.warps[f];
    assert WarpOk(c, h.late, h.flusher, f, x);
    a := Device(f);
    if x.AwaitingTail? && s.tail != x.ticket {
      var v := SumWitness(InFlights(s.warps));
      MovesAlone(c, s, v);
      a := Device(v);
    } else if x.AwaitingHost? && s.doorbell != 0 {
      a := StartRecv(max);
      assert Fetch(s, max).host.Fetching?;
    } else {
      MovesAlone(c, s, f);
    }
  }

  lemma SomebodyMoves(c: Config, s: State, h: History, max: nat) returns (a: Action)
    requires c.Valid() && Inv(c, s, h) && 0 < max < TWO_32
    requires !AllIdle(s.warps) || !s.host.Resting?
    ensures Productive(c, s, a) && ChunkIs(a, max)
  {
    hide Sum, Bytes, Written, Delivered, Counts, Productive;
    if !s.host.Resting? {
      HostMoves(c, s);
      a := HostStep;
    } else {
      var w :| 0 <= w < |s.warps| && s.warps[w] != Idle;
      assert WarpOk(c, h.late, h.flusher, w, s.warps[w]);
      HeadTells(c, s, h);
      if IsFlusher(s.warps[w]) || (s.warps[w].Spinning? && s.head > c.End()) {
        a := FlusherHelped(c, s, h, max);
      } else {
        MovesAlone(c, s, w);
        a := Device(w);
      }
    }
  }

  /** No deadlock: as long as a push or flush is unfinished, or the host is inside
      `recv`, some step is productive; the host may use any chunk size. */
  lemma NoDeadlock(c: Config, acts: seq<Action>, max: nat)
    requires c.Valid() && Fits(c, acts) && 0 < max < TWO_32
    requires var s := Exec(c, acts).s; !AllIdle(s.warps) || !s.host.Resting?
    ensures exists a :: Productive(c, Exec(c, acts).s, a) && ChunkIs(a, max)
  {
    hide Exec, Inv, Productive;
    Invariant(c, acts);
    var a := SomebodyMoves(c, Exec(c, acts).s, Exec(c, acts).h, max);
  }

  // ------------------------------------------------------------------------
  // The cost of a run.

  /** Productive device steps. */
  function DeviceWork(c: Config, acts: seq<Action>): nat {
    if acts == [] then 0
    else
      var before, a := acts[..|acts| - 1], acts[|acts| - 1];
      DeviceWork(c, before) + if a.Device? && Productive(c, Exec(c, before).s, a) then 1 else 0
  }

  /** Productive steps of the host. */
  function HostWork(c: Config, acts: seq<Action>): nat {
    if acts == [] then 0
    else
      var before, a := acts[..|acts| - 1], acts[|acts| - 1];
      HostWork(c, before) + if !a.Device? && Productive(c, Exec(c, before).s, a) then 1 else 0
  }

  function Work(c: Config, acts: seq<Action>): nat { DeviceWork(c, acts) + HostWork(c, acts) }

  function Cost(p: seq<byte>, bytes: bool): nat { if bytes then |p| else 1 }

  /** What the pushes begun in a run weigh: their bytes, or their number. */
  function Asked(c: Config, acts: seq<Action>, bytes: bool): nat {
    if acts == [] then 0
    else
      var before, a := acts[..|acts| - 1], acts[|acts| - 1];
      Asked(c, before, bytes)
        + if a.StartPush? && MayPush(Exec(c, before).s, a.w, a.packet) then Cost(a.packet, bytes) else 0
  }

  /** Client flushes begun in a run. */
  function ClientFlushes(c: Config, acts: seq<Action>): nat {
    if acts == [] then 0
    else
      var before, a := acts[..|acts| - 1], acts[|acts| - 1];
      ClientFlushes(c, before) + if a.StartFlush? && MayFlush(Exec(c, before).s, a.w) then 1 else 0
  }

  /** What a warp's pending push still weighs. */
  function Owed(x: Warp, bytes: bool): nat {
    if Pending(x) == [] then 0 else Cost(PacketOf(x), bytes)
  }

  function AllOwed(ws: seq<Warp>, bytes: bool): seq<nat> {
    seq(|ws|, i requires 0 <= i < |ws| => Owed(ws[i], bytes))
  }

  function LogCost(log: seq<Entry>, bytes: bool): nat {
    if bytes then |Bytes(log)| else |log|
  }

  lemma ReservedDevice(c: Config, s: State, h: History, w: nat, bytes: bool)
    requires w < |s.warps|
    ensures var s', h' := DeviceStep(c, s, w), RecordDevice(c, s, w, h);
      LogCost(Log(h'), bytes) + Sum(AllOwed(s'.warps, bytes)) == LogCost(Log(h), bytes) + Sum(AllOwed(s.warps, bytes))
  {
    hide Sum, Bytes;
    var s' := DeviceStep(c, s, w);
    var o, y := s.warps[w], s'.warps[w];
    SumChange(AllOwed(s.warps, bytes), AllOwed(s'.warps, bytes), w);
    if o.Reserving? && y.Copying? {
      var e := Entry(w, o.packet, y.at);
      assert h.past + (h.epoch + [e]) == Log(h) + [e];
      BytesAppend(Log(h), e);
    } else if o.ResettingHead? {
      assert h.past + h.epoch + [] == Log(h);
    }
  }

  lemma ReservedStep(c: Config, s: State, h: History, a: Action, bytes: bool)
    ensures var s', h' := Next(c, s, a), Record(c, s, a, h);
      LogCost(Log(h'), bytes) + Sum(AllOwed(s'.warps, bytes))
      == LogCost(Log(h), bytes) + Sum(AllOwed(s.warps, bytes))
         + if a.StartPush? && MayPush(s, a.w, a.packet) then Cost(a.packet, bytes) else 0
  {
    hide Sum, DeviceStep, RecordDevice;
    match a {
      case StartPush(w, p) =>
        if MayPush(s, w, p) {
          SumChange(AllOwed(s.warps, bytes), AllOwed(s.warps[w := Reserving(p)], bytes), w);
        }
      case StartFlush(w) =>
        if MayFlush(s, w) {
          SumChange(AllOwed(s.warps, bytes), AllOwed(s.warps[w := ReadingLength(External)], bytes), w);
        }
      case Device(w) =>
        if w < |s.warps| {
          ReservedDevice(c, s, h, w, bytes);
        }
      case StartRecv(_) =>
      case HostStep =>
    }
  }

  /** What was reserved and what the warps still have pending is exactly what was
      asked for, in packets and in bytes. */
  lemma {:induction false} ReservedWasAsked(c: Config, acts: seq<Action>, bytes: bool)
    ensures var r := Exec(c, acts);
      LogCost(Log(r.h), bytes) + Sum(AllOwed(r.s.warps, bytes)) == Asked(c, acts, bytes)
  {
    hide Sum, Next, Record, MayPush;
    if acts == [] {
      SumZero(AllOwed(Init(c).warps, bytes));
    } else {
      var before, a := acts[..|acts| - 1], acts[|acts| - 1];
      ReservedWasAsked(c, before, bytes);
      ReservedStep(c, Exec(c, before).s, Exec(c, before).h, a, bytes);
    }
  }

  // ------------------------------------------------------------------------
  // Failed reservations.

  lemma {:induction false} AtMostAll(late: set<nat>, n: nat)
    requires forall i | i in late :: i < n
    ensures |late| <= n
  {
    if n > 0 {
      AtMostAll(late - {n - 1}, n - 1);
      assert late <= (late - {n - 1}) + {n - 1};
    } else {
      assert late == {};
    }
  }

  lemma LateAreWarps(c: Config, s: State, h: History)
    requires Inv(c, s, h)
    ensures forall i | i in h.late :: i < c.warps
  {
  }

  lemma EpochNotEmpty(c: Config, s: State, h: History, w: nat)
    requires Inv(c, s, h) && w < |s.warps| && s.warps[w].ResettingHead?
    ensures h.epoch != []
  {
    hide Sum, Written, Delivered;
    assert WarpOk(c, h.late, h.flusher, w, s.warps[w]);
  }

  /** Action a ends an epoch. */
  predicate ResetsHead(s: State, a: Action) {
    a.Device? && a.w < |s.warps| && s.warps[a.w].ResettingHead?
  }

  /** Action a is a reservation of warp w that fails. */
  predicate FailsToReserve(c: Config, s: State, a: Action, w: nat) {
    && a == Device(w) && w < |s.warps| && s.warps[w].Reserving?
    && !DeviceStep(c, s, w).warps[w].Copying?
  }

  /** Finished epochs: head resets so far. */
  function Epochs(c: Config, acts: seq<Action>): nat {
    if acts == [] then 0
    else
      var before, a := acts[..|acts| - 1], acts[|acts| - 1];
      Epochs(c, before) + if ResetsHead(Exec(c, before).s, a) then 1 else 0
  }

  /** Failed reservations of warp w over the whole run. */
  function FailsOf(c: Config, acts: seq<Action>, w: nat): nat {
    if acts == [] then 0
    else
      var before, a := acts[..|acts| - 1], acts[|acts| - 1];
      FailsOf(c, before, w) + if FailsToReserve(c, Exec(c, before).s, a, w) then 1 else 0
  }

  /** Failed reservations of warp w since the last head reset. */
  function FailsInEpoch(c: Config, acts: seq<Action>, w: nat): nat {
    if acts == [] then 0
    else
      var before, a := acts[..|acts| - 1], acts[|acts| - 1];
      var s := Exec(c, before).s;
      if ResetsHead(s, a) then 0
      else FailsInEpoch(c, before, w) + if FailsToReserve(c, s, a, w) then 1 else 0
  }

  lemma LateStep(c: Config, s: State, h: History, a: Action, w: nat)
    requires c.Valid() && Inv(c, s, h)
    ensures var h' := Record(c, s, a, h);
      && (ResetsHead(s, a) ==> h'.late == {})
      && (FailsToReserve(c, s, a, w) ==> w !in h.late && w in h'.late)
      && (!ResetsHead(s, a) && !FailsToReserve(c, s, a, w) ==> (w in h'.late <==> w in h.late))
  {
    hide Inv;
    if a.Device? && a.w < |s.warps| {
      BeforeStep(c, s, h, a.w);
    }
  }

  lemma NotBoth(c: Config, s: State, a: Action, w: nat)
    ensures !ResetsHead(s, a) || !FailsToReserve(c, s, a, w)
  {
  }

  /** In every epoch every warp fails at most once: it is late exactly when it
      has failed, and then once. */
  lemma {:induction false} OneFailPerEpoch(c: Config, acts: seq<Action>, w: nat)
    requires c.Valid() && Fits(c, acts)
    ensures FailsInEpoch(c, acts, w) == if w in Exec(c, acts).h.late then 1 else 0
  {
    hide Inv, Next, Record, ResetsHead, FailsToReserve;
    if acts != [] {
      var before, a := acts[..|acts| - 1], acts[|acts| - 1];
      OneFailPerEpoch(c, before, w);
      Invariant(c, before);
      LateStep(c, Exec(c, before).s, Exec(c, before).h, a, w);
      NotBoth(c, Exec(c, before).s, a, w);
    }
  }

  /** So over a run a warp fails at most once per finished epoch, and once more
      if it is late in the current one. */
  lemma {:induction false} FailsPerWarp(c: Config, acts: seq<Action>, w: nat)
    requires c.Valid() && Fits(c, acts)
    ensures FailsOf(c, acts, w) <= Epochs(c, acts) + if w in Exec(c, acts).h.late then 1 else 0
  {
    hide Inv, Exec, ResetsHead, FailsToReserve;
    if acts != [] {
      var before, a := acts[..|acts| - 1], acts[|acts| - 1];
      FailsPerWarp(c, before, w);
      OneFailPerEpoch(c, before, w);
      OneFailPerEpoch(c, acts, w);
      NotBoth(c, Exec(c, before).s, a, w);
    }
  }

  lemma FailsStep(c: Config, s: State, h: History, w: nat)
    requires c.Valid() && Inv(c, s, h) && w < |s.warps|
    ensures var h' := RecordDevice(c, s, w, h);
      if s.warps[w].ResettingHead? then h'.fails == h.fails && h'.late == {}
      else h'.fails - h.fails == |h'.late| - |h.late|
  {
    hide Inv;
    BeforeStep(c, s, h, w);
  }

  /** All failed reservations of a run: at most one per warp and epoch. */
  lemma {:induction false} FailsPerEpoch(c: Config, acts: seq<Action>)
    requires c.Valid() && Fits(c, acts)
    ensures var h := Exec(c, acts).h;
      h.fails <= c.warps * Epochs(c, acts) + |h.late| && |h.late| <= c.warps
  {
    hide Inv, Next, RecordDevice;
    if acts != [] {
      var before, a := acts[..|acts| - 1], acts[|acts| - 1];
      FailsPerEpoch(c, before);
      Invariant(c, before);
      var s, h := Exec(c, before).s, Exec(c, before).h;
      if a.Device? && a.w < |s.warps| {
        FailsStep(c, s, h, a.w);
        assert c.warps * (Epochs(c, before) + 1) == c.warps * Epochs(c, before) + c.warps;
      }
    }
    Invariant(c, acts);
    LateAreWarps(c, Exec(c, acts).s, Exec(c, acts).h);
    AtMostAll(Exec(c, acts).h.late, c.warps);
  }

  /** Flushes that reset the head never outnumber the reservations they flushed. */
  lemma {:induction false} FlushesBounded(c: Config, acts: seq<Action>)
    requires c.Valid() && Fits(c, acts)
    ensures Epochs(c, acts) <= |Exec(c, acts).h.past|
  {
    hide Inv, DeviceStep;
    if acts != [] {
      var before, a := acts[..|acts| - 1], acts[|acts| - 1];
      FlushesBounded(c, before);
      Invariant(c, before);
      var s, h := Exec(c, before).s, Exec(c, before).h;
      if ResetsHead(s, a) {
        EpochNotEmpty(c, s, h, a.w);
      }
    }
  }

  // ------------------------------------------------------------------------
  // Every productive device step is paid for.

  function FlushCredit(x: Warp): nat {
    match x
    case AwaitingTail(_, _) => 6
    case ReadingLength(_) => 5
    case Ringing(_, _) => 4
    case AwaitingHost(_) => 3
    case ResettingTail(_) => 2
    case ResettingHead(_) => 1
    case Spinning(_) => 1
    case Copying(p, _, done) => if done < |p| then |p| - done + 1 else 1
    case _ => 0
  }

  /** The productive steps warp x can still make before it fails a reservation. */
  function Credit(x: Warp): nat {
    FlushCredit(x) + if Pending(x) == [] then 0 else |PacketOf(x)| + 2
  }

  function Credits(ws: seq<Warp>): seq<nat> {
    seq(|ws|, i requires 0 <= i < |ws| => Credit(ws[i]))
  }

  lemma InitialCredit(c: Config)
    ensures Sum(Credits(Init(c).warps)) == 0
  {
    SumZero(Credits(Init(c).warps));
  }

  lemma CreditSpent(c: Config, s: State, w: nat)
    requires w < |s.warps|
    ensures var s' := DeviceStep(c, s, w);
      var o, y := s.warps[w], s'.warps[w];
      (if s' != s then 1 else 0) + Credit(y) <= Credit(o) + if o.Reserving? && !y.Copying? then 7 else 0
  {
    var s' := DeviceStep(c, s, w);
    assert s'.warps[w] == s.warps[w] ==> s' == s;
  }

  lemma PaidDevice(c: Config, s: State, h: History, w: nat)
    requires w < |s.warps|
    ensures var s', h' := DeviceStep(c, s, w), RecordDevice(c, s, w, h);
      (if s' != s then 1 else 0) + Sum(Credits(s'.warps)) <= Sum(Credits(s.warps)) + 7 * (h'.fails - h.fails)
  {
    hide Sum, Credit;
    var s' := DeviceStep(c, s, w);
    SumChange(Credits(s.warps), Credits(s'.warps), w);
    CreditSpent(c, s, w);
  }

  lemma PaidStep(c: Config, s: State, h: History, a: Action)
    ensures var s', h' := Next(c, s, a), Record(c, s, a, h);
      (if a.Device? && Productive(c, s, a) then 1 else 0) + Sum(Credits(s'.warps))
      <= Sum(Credits(s.warps)) + 7 * (h'.fails - h.fails)
         + (if a.StartPush? && MayPush(s, a.w, a.packet) then |a.packet| + 2 else 0)
         + if a.StartFlush? && MayFlush(s, a.w) then 5 else 0
  {
    hide Sum, DeviceStep, RecordDevice;
    match a {
      case StartPush(w, p) =>
        if MayPush(s, w, p) {
          SumChange(Credits(s.warps), Credits(s.warps[w := Reserving(p)]), w);
        }
      case StartFlush(w) =>
        if MayFlush(s, w) {
          SumChange(Credits(s.warps), Credits(s.warps[w := ReadingLength(External)]), w);
        }
      case Device(w) =>
        if w < |s.warps| {
          PaidDevice(c, s, h, w);
        }
      case StartRecv(_) =>
      case HostStep =>
    }
  }

  lemma {:induction false} DeviceWorkIsPaid(c: Config, acts: seq<Action>)
    ensures var r := Exec(c, acts);
      DeviceWork(c, acts) + Sum(Credits(r.s.warps))
      <= Asked(c, acts, true) + 2 * Asked(c, acts, false) + 7 * r.h.fails + 5 * ClientFlushes(c, acts)
  {
    hide Sum, Next, Record, Productive, Credits, MayPush, MayFlush;
    if acts == [] {
      InitialCredit(c);
    } else {
      var before, a := acts[..|acts| - 1], acts[|acts| - 1];
      DeviceWorkIsPaid(c, before);
      PaidStep(c, Exec(c, before).s, Exec(c, before).h, a);
    }
  }

  // ------------------------------------------------------------------------
  // Every productive host step is paid for by a received byte.

  function HostSpent(host: Host): nat {
    match host
    case Resting => 0
    case Fetching(_, _, got) => 1 + |got|
    case Clearing(_, got) => 2 + |got|
  }

  lemma HostPays(c: Config, s: State, h: History, a: Action)
    requires s.host.Clearing? ==> |s.host.got| > 0
    ensures var s', h' := Next(c, s, a), Record(c, s, a, h);
      (if !a.Device? && Productive(c, s, a) then 1 else 0) + 4 * |h.received| + HostSpent(s.host)
      <= 4 * |h'.received| + HostSpent(s'.host)
  {
  }

  /** What the host holds is what the doorbell promised, and comes on top of
      what it has returned. */
  lemma HostChunk(c: Config, s: State, h: History)
    requires Inv(c, s, h)
    ensures s.host.Clearing? ==> |s.host.got| > 0
    ensures !s.host.Resting? ==> HostSpent(s.host) <= 4 * s.doorbell
    ensures |h.received| + s.doorbell <= |Bytes(Log(h))|
  {
    hide Sum, Bytes, Written, Counts, Shape;
    BytesConcat(h.past, h.epoch);
  }

  lemma {:induction false} HostWorkIsPaid(c: Config, acts: seq<Action>)
    requires c.Valid() && Fits(c, acts)
    ensures var r := Exec(c, acts);
      HostWork(c, acts) <= 4 * |r.h.received| + HostSpent(r.s.host)
  {
    hide Inv, Next, Record, Productive;
    if acts != [] {
      var before, a := acts[..|acts| - 1], acts[|acts| - 1];
      HostWorkIsPaid(c, before);
      Invariant(c, before);
      HostChunk(c, Exec(c, before).s, Exec(c, before).h);
      HostPays(c, Exec(c, before).s, Exec(c, before).h, a);
    }
  }

  /** The budget of a run: linear in the bytes it was asked to push, and in the
      packets once per warp. */
  function Budget(c: Config, acts: seq<Action>): nat {
    5 * Asked(c, acts, true) + 2 * Asked(c, acts, false)
      + 7 * (c.warps * (Asked(c, acts, false) + 1)) + 5 * ClientFlushes(c, acts)
  }

  lemma DoorbellNonNegative(c: Config, s: State, h: History)
    requires Inv(c, s, h)
    ensures s.doorbell >= 0
  {
  }

  /** However the warps and the host are scheduled, the productive steps of a run
      are bounded by what was asked of it. */
  lemma WorkIsBounded(c: Config, acts: seq<Action>)
    requires c.Valid() && Fits(c, acts)
    ensures Work(c, acts) <= Budget(c, acts)
  {
    hide Exec, Inv, Sum, DeviceWork, HostWork, Asked, ClientFlushes, Epochs, Bytes;
    var s, h := Exec(c, acts).s, Exec(c, acts).h;
    DeviceWorkIsPaid(c, acts);
    HostWorkIsPaid(c, acts);
    FailsPerEpoch(c, acts);
    FlushesBounded(c, acts);
    ReservedWasAsked(c, acts, true);
    ReservedWasAsked(c, acts, false);
    Invariant(c, acts);
    HostChunk(c, s, h);
    DoorbellNonNegative(c, s, h);
    var asked := Asked(c, acts, false);
    AtMostTimes(c.warps, Epochs(c, acts), asked);
    assert c.warps * (asked + 1) == c.warps * asked + c.warps;
  }

  // ------------------------------------------------------------------------
  // Maximal runs complete.

  lemma SameBudget(c: Config, acts: seq<Action>, a: Action)
    requires !Starts(a)
    ensures Budget(c, acts + [a]) == Budget(c, acts)
  {
    hide Exec, MayPush, MayFlush, Cost;
    assert (acts + [a])[..|acts|] == acts;
    assert Asked(c, acts + [a], true) == Asked(c, acts, true);
    assert Asked(c, acts + [a], false) == Asked(c, acts, false);
    assert ClientFlushes(c, acts + [a]) == ClientFlushes(c, acts);
    hide Asked, ClientFlushes;
  }

  /** A step that begins no push and no flush: it adds to the work exactly when it
      changes the state, and the budget stays. */
  lemma StepWork(c: Config, acts: seq<Action>, a: Action)
    requires Fits(c, acts) && !Starts(a)
    ensures Fits(c, acts + [a]) && Budget(c, acts + [a]) == Budget(c, acts)
    ensures Work(c, acts + [a]) == Work(c, acts) + if Productive(c, Exec(c, acts).s, a) then 1 else 0
  {
    hide Exec, Productive, Budget;
    SameBudget(c, acts, a);
    assert (acts + [a])[..|acts|] == acts;
  }

  /** Every action of `more`, taken after `acts`, is productive. */
  ghost predicate AllProductive(c: Config, acts: seq<Action>, more: seq<Action>) {
    forall k | 0 <= k < |more| :: Productive(c, Exec(c, acts + more[..k]).s, more[k])
  }

  lemma ProductiveStarts(c: Config, s: State, a: Action)
    requires Productive(c, s, a)
    ensures !Starts(a)
  {
  }

  lemma {:induction false} ProductiveWork(c: Config, acts: seq<Action>, more: seq<Action>)
    requires AllProductive(c, acts, more) && Fits(c, acts)
    ensures Fits(c, acts + more)
    ensures Work(c, acts + more) == Work(c, acts) + |more|
    ensures Budget(c, acts + more) == Budget(c, acts)
  {
    hide Exec, Work, Budget, Productive, Fits;
    if more == [] {
      assert acts + more == acts;
    } else {
      var n := |more| - 1;
      var early := more[..n];
      assert acts + more == (acts + early) + [more[n]];
      forall k | 0 <= k < n
        ensures Productive(c, Exec(c, acts + early[..k]).s, early[k])
      {
        assert early[..k] == more[..k];
      }
      ProductiveWork(c, acts, early);
      assert Productive(c, Exec(c, acts + more[..n]).s, more[n]);
      ProductiveStarts(c, Exec(c, acts + more[..n]).s, more[n]);
      StepWork(c, acts + early, more[n]);
    }
  }

  /** From any reachable state, a scheduler that keeps taking productive steps
      stops within the budget, and it can only stop when every push and flush has
      returned and the host is outside `recv`. */
  lemma MaximalRunCompletes(c: Config, acts: seq<Action>, more: seq<Action>, max: nat)
    requires c.Valid() && Fits(c, acts) && 0 < max < TWO_32
    requires AllProductive(c, acts, more)
    ensures |more| <= Budget(c, acts)
    ensures var s := Exec(c, acts + more).s;
      (forall a :: ChunkIs(a, max) ==> !Productive(c, s, a)) ==> AllIdle(s.warps) && s.host.Resting?
  {
    hide Exec, Productive, Work, Budget, AllProductive;
    ProductiveWork(c, acts, more);
    WorkIsBounded(c, acts + more);
    var s := Exec(c, acts + more).s;
    if !AllIdle(s.warps) || !s.host.Resting? {
      NoDeadlock(c, acts + more, max);
    }
  }
}
