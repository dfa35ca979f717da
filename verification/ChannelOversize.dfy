/** Packets larger than the buffer. The code does not reject them: the first one
    to meet an empty epoch leaves through the zero-byte early return of `flush`,
    which does not reset the head, and no later push can ever reserve again. */
module ChannelOversize {
  import opened Words
  import opened Sums
  import opened ChannelProtocol
  import opened ChannelInvariant
  import opened ChannelDelivery
  import opened ChannelProgress

  /** The address space has room for one largest packet per warp and two more. */
  ghost predicate Roomy(c: Config) {
    c.Valid() && c.base + (c.warps + 2) * TWO_32 < TWO_64
  }

  function SpinLoads(ws: seq<Warp>): seq<nat> {
    seq(|ws|, i requires 0 <= i < |ws| => if ws[i].Spinning? then |ws[i].packet| else 0)
  }

  /** The warp waits for a reset nobody will make, or is about to. */
  predicate Hopeless(x: Warp) {
    (x.Idle? || x.Reserving? || x.Spinning?) && |PacketOf(x)| < TWO_32
  }

  /** The head is beyond the end, nothing is buffered, and nobody is flushing. */
  ghost predicate Jammed(c: Config, s: State) {
    && |s.warps| == c.warps
    && c.End() < s.head <= c.base + TWO_32 + Sum(SpinLoads(s.warps))
    && s.tail == c.base && s.doorbell == 0 && s.host == Resting
    && (exists i :: 0 <= i < |s.warps| && s.warps[i].Spinning?)
    && forall i | 0 <= i < |s.warps| :: Hopeless(s.warps[i])
  }

  lemma SpinLoadsMove(ws: seq<Warp>, w: nat, y: Warp)
    requires w < |ws| && !ws[w].Spinning?
    ensures Sum(SpinLoads(ws[w := y])) == Sum(SpinLoads(ws)) + if y.Spinning? then |y.packet| else 0
  {
    SumChange(SpinLoads(ws), SpinLoads(ws[w := y]), w);
  }

  /** A warp that moves from outside the spin keeps the jam. */
  lemma JamMoves(c: Config, s: State, w: nat, y: Warp, head: nat)
    requires Jammed(c, s) && w < |s.warps| && !s.warps[w].Spinning? && Hopeless(y)
    requires head == s.head + if y.Spinning? then |y.packet| else 0
    ensures Jammed(c, Goto(s.(head := head), w, y))
    ensures forall i | 0 <= i < |s.warps| && s.warps[i].Spinning? :: s.warps[w := y][i] == s.warps[i]
  {
    hide Sum;
    SpinLoadsMove(s.warps, w, y);
    var k :| 0 <= k < |s.warps| && s.warps[k].Spinning?;
    assert s.warps[w := y][k].Spinning?;
  }

  lemma JamFacts(c: Config, s: State, w: nat)
    requires Jammed(c, s) && w < |s.warps|
    ensures s.head > c.End() && s.doorbell == 0 && s.host == Resting && !AllIdle(s.warps) && Hopeless(s.warps[w])
  {
    var k :| 0 <= k < |s.warps| && s.warps[k].Spinning?;
  }

  lemma JamRoom(c: Config, s: State, w: nat)
    requires Roomy(c) && Jammed(c, s) && w < |s.warps| && s.warps[w].Reserving?
    ensures s.head + |s.warps[w].packet| < TWO_64
  {
    var a := SpinLoads(s.warps);
    SumAtMost(a, TWO_32);
  }

  lemma JamDevice(c: Config, s: State, h: History, w: nat)
    requires Roomy(c) && Jammed(c, s) && w < |s.warps|
    ensures var s', h' := DeviceStep(c, s, w), RecordDevice(c, s, w, h);
      && Jammed(c, s')
      && h'.received == h.received && h'.past == h.past && h'.epoch == h.epoch
      && forall i | 0 <= i < |s.warps| && s.warps[i].Spinning? :: s'.warps[i] == s.warps[i]
  {
    hide Jammed;
    JamFacts(c, s, w);
    if s.warps[w].Reserving? {
      JamRoom(c, s, w);
      var p := s.warps[w].packet;
      JamMoves(c, s, w, Spinning(p), s.head + |p|);
    }
  }

  lemma JamWitness(c: Config, s: State) returns (k: nat)
    requires Jammed(c, s)
    ensures k < |s.warps|
  {
    k :| 0 <= k < |s.warps| && s.warps[k].Spinning?;
  }

  /** Jammed is for ever, whatever is pushed and however often the host calls. */
  lemma JamStays(c: Config, s: State, h: History, a: Action)
    requires Roomy(c) && Jammed(c, s)
    ensures var s', h' := Next(c, s, a), Record(c, s, a, h);
      && Jammed(c, s')
      && h'.received == h.received && h'.past == h.past && h'.epoch == h.epoch
      && forall i | 0 <= i < |s.warps| && s.warps[i].Spinning? :: s'.warps[i] == s.warps[i]
  {
    hide Jammed, DeviceStep, RecordDevice;
    var k := JamWitness(c, s);
    JamFacts(c, s, k);
    if a.Device? && a.w < |s.warps| {
      JamDevice(c, s, h, a.w);
    } else if a.StartPush? && MayPush(s, a.w, a.packet) {
      JamMoves(c, s, a.w, Reserving(a.packet), s.head);
    }
  }

  /** The run in which warp w alone pushes p. */
  function PushAlone(w: nat, p: seq<byte>): seq<Action> {
    [StartPush(w, p), Device(w), Device(w), Device(w), Device(w)]
  }

  /** A device step that neither reserves nor resets leaves the logs alone. */
  lemma QuietStep(c: Config, s: State, h: History, w: nat)
    requires w < |s.warps| && !s.warps[w].ResettingHead? && !DeviceStep(c, s, w).warps[w].Copying?
    ensures var h' := RecordDevice(c, s, w, h);
      h'.past == h.past && h'.epoch == h.epoch && h'.received == h.received
  {
  }

  /** The fresh channel with warp w at x and the head elsewhere. */
  function Lone(c: Config, w: nat, head: nat, x: Warp): State
    requires w < c.warps
  {
    Init(c).(head := head, warps := Init(c).warps[w := x])
  }

  /** The lone push: reserve beyond the end, find the tail at the ticket, read a
      zero length, return without a reset, and reserve once more. */
  lemma LoneSteps(c: Config, w: nat, p: seq<byte>)
    requires w < c.warps && c.base + |p| + |p| < TWO_64 && c.Size() < |p|
    ensures DeviceStep(c, Lone(c, w, c.base, Reserving(p)), w) == Lone(c, w, c.base + |p|, AwaitingTail(p, c.base))
    ensures DeviceStep(c, Lone(c, w, c.base + |p|, AwaitingTail(p, c.base)), w)
         == Lone(c, w, c.base + |p|, ReadingLength(InPush(p)))
    ensures DeviceStep(c, Lone(c, w, c.base + |p|, ReadingLength(InPush(p))), w)
         == Lone(c, w, c.base + |p|, Reserving(p))
    ensures DeviceStep(c, Lone(c, w, c.base + |p|, Reserving(p)), w)
         == Lone(c, w, c.base + |p| + |p|, Spinning(p))
  {
  }

  lemma LoneStep(c: Config, w: nat, from: State, h: History, to: State)
    requires w < |from.warps| && !from.warps[w].ResettingHead?
    requires DeviceStep(c, from, w) == to && !to.warps[w].Copying?
    requires h.received == [] && h.past == h.epoch == []
    ensures var h' := Record(c, from, Device(w), h);
      Next(c, from, Device(w)) == to && h'.received == [] && h'.past == h'.epoch == []
  {
    QuietStep(c, from, h, w);
  }

  lemma LonePushStarts(c: Config, w: nat, p: seq<byte>)
    requires w < c.warps && 0 < |p| < TWO_32
    ensures Next(c, Init(c), StartPush(w, p)) == Lone(c, w, c.base, Reserving(p))
    ensures Record(c, Init(c), StartPush(w, p), EMPTY_HISTORY) == EMPTY_HISTORY
  {
  }

  lemma JammedAlone(c: Config, s: State, w: nat, p: seq<byte>)
    requires Roomy(c) && w < c.warps && c.Size() < |p| < TWO_32
    requires s == Init(c).(head := c.base + |p| + |p|, warps := Init(c).warps[w := Spinning(p)])
    ensures Jammed(c, s)
  {
    hide Sum;
    SumAtLeast(SpinLoads(s.warps), w);
    assert s.warps[w].Spinning?;
  }

  lemma Steps(c: Config, w: nat, p: seq<byte>)
    ensures var acts := PushAlone(w, p);
      var r0 := Run(Init(c), EMPTY_HISTORY);
      var r1 := Run(Next(c, r0.s, acts[0]), Record(c, r0.s, acts[0], r0.h));
      var r2 := Run(Next(c, r1.s, acts[1]), Record(c, r1.s, acts[1], r1.h));
      var r3 := Run(Next(c, r2.s, acts[2]), Record(c, r2.s, acts[2], r2.h));
      var r4 := Run(Next(c, r3.s, acts[3]), Record(c, r3.s, acts[3], r3.h));
      Exec(c, acts) == Run(Next(c, r4.s, acts[4]), Record(c, r4.s, acts[4], r4.h))
  {
    hide Next, Record;
    var d := Device(w);
    var a := StartPush(w, p);
    assert PushAlone(w, p) == [a, d, d, d] + [d] && [a, d, d, d] == [a, d, d] + [d];
    assert [a, d, d] == [a, d] + [d] && [a, d] == [a] + [d] && [a] == [] + [a];
    ExecAppend(c, [], a);
    ExecAppend(c, [a], d);
    ExecAppend(c, [a, d], d);
    ExecAppend(c, [a, d, d], d);
    ExecAppend(c, [a, d, d, d], d);
  }

  /** With p larger than the buffer, the lone push ends in a spin that nothing can end. */
  lemma LonePushJams(c: Config, w: nat, p: seq<byte>)
    requires Roomy(c) && w < c.warps && c.Size() < |p| < TWO_32
    ensures var r := Exec(c, PushAlone(w, p));
      && Jammed(c, r.s) && r.h.received == [] && r.h.past == r.h.epoch == []
      && r.s.warps == Init(c).warps[w := Spinning(p)]
  {
    hide Sum, DeviceStep, RecordDevice, Exec, Jammed;
    AtMostTimes(TWO_32, 2, c.warps + 2);
    LoneSteps(c, w, p);
    var s1 := Lone(c, w, c.base, Reserving(p));
    var s2 := Lone(c, w, c.base + |p|, AwaitingTail(p, c.base));
    var s3 := Lone(c, w, c.base + |p|, ReadingLength(InPush(p)));
    var s4 := Lone(c, w, c.base + |p|, Reserving(p));
    var s5 := Lone(c, w, c.base + |p| + |p|, Spinning(p));
    var h1 := EMPTY_HISTORY;
    LonePushStarts(c, w, p);
    LoneStep(c, w, s1, h1, s2);
    var h2 := Record(c, s1, Device(w), h1);
    LoneStep(c, w, s2, h2, s3);
    var h3 := Record(c, s2, Device(w), h2);
    LoneStep(c, w, s3, h3, s4);
    var h4 := Record(c, s3, Device(w), h3);
    LoneStep(c, w, s4, h4, s5);
    Steps(c, w, p);
    JammedAlone(c, s5, w, p);
  }

  lemma JamShape(c: Config, s: State)
    requires Jammed(c, s)
    ensures |s.warps| == c.warps
  {
  }

  /** After a packet larger than the buffer has been pushed into a fresh channel,
      no continuation of the run ever delivers a byte, and the push never returns. */
  lemma {:induction false} OversizedPushHangs(c: Config, w: nat, p: seq<byte>, more: seq<Action>)
    requires Roomy(c) && w < c.warps && c.Size() < |p| < TWO_32
    ensures var r := Exec(c, PushAlone(w, p) + more);
      && Jammed(c, r.s)
      && r.s.warps[w] == Spinning(p)
      && r.h.received == [] && Log(r.h) == []
  {
    hide Jammed, Next, Record, Exec;
    LonePushJams(c, w, p);
    if more == [] {
      assert PushAlone(w, p) + more == PushAlone(w, p);
      JamShape(c, Exec(c, PushAlone(w, p)).s);
    } else {
      var n := |more| - 1;
      OversizedPushHangs(c, w, p, more[..n]);
      assert PushAlone(w, p) + more == (PushAlone(w, p) + more[..n]) + [more[n]];
      ExecAppend(c, PushAlone(w, p) + more[..n], more[n]);
      var r := Exec(c, PushAlone(w, p) + more[..n]);
      JamShape(c, r.s);
      JamStays(c, r.s, r.h, more[n]);
      JamShape(c, Exec(c, PushAlone(w, p) + more).s);
    }
  }

  /** Everybody is done, or somebody can move. */
  ghost predicate Live(c: Config, s: State) {
    (AllIdle(s.warps) && s.host.Resting?) || exists a :: Productive(c, s, a)
  }

  lemma FitsIsLive(c: Config, acts: seq<Action>)
    requires c.Valid() && Fits(c, acts)
    ensures Live(c, Exec(c, acts).s)
  {
    hide Exec, Productive;
    var s := Exec(c, acts).s;
    if !AllIdle(s.warps) || !s.host.Resting? {
      NoDeadlock(c, acts, 1);
    }
  }

  lemma JamIsDead(c: Config, p: seq<byte>)
    requires Roomy(c) && c.warps > 0 && c.Size() < |p| < TWO_32
    ensures !Live(c, Exec(c, PushAlone(0, p)).s)
  {
    hide Exec;
    LonePushJams(c, 0, p);
    var s := Exec(c, PushAlone(0, p)).s;
    assert s.warps[0] == Spinning(p);
    forall a
      ensures !Productive(c, s, a)
    {
      if a.Device? && 0 < a.w < |s.warps| {
        assert s.warps[a.w] == Idle;
      }
    }
  }

  /** The channel is deadlock-free for packets of up to `largest` bytes exactly
      when `largest` does not exceed the buffer. */
  lemma DeadlockFreeExactly(c: Config, largest: nat)
    requires Roomy(c) && c.warps > 0 && 0 < largest < TWO_32
    ensures (forall acts: seq<Action> | PacketsAtMost(acts, largest) :: Live(c, Exec(c, acts).s))
            <==> largest <= c.Size()
  {
    hide Exec, Live, Productive;
    if largest <= c.Size() {
      forall acts: seq<Action> | PacketsAtMost(acts, largest)
        ensures Live(c, Exec(c, acts).s)
      {
        FitsIsLive(c, acts);
      }
    } else {
      var p := seq(largest, _ => 0 as byte);
      JamIsDead(c, p);
      assert PacketsAtMost(PushAlone(0, p), largest);
    }
  }
}
