/** The warps really are in `push` at the same time: a push begins whatever the
    other warps are doing in theirs, all warps can copy at once, and the bound on
    the head is reached with all of them late. */
module ChannelConcurrency {
  import opened Words
  import opened ChannelProtocol
  import opened ChannelInvariant
  import opened ChannelDelivery

  /** No client flush is under way. */
  predicate NoClientFlush(s: State) {
    forall i | 0 <= i < |s.warps| :: !FlushesExternally(s.warps[i])
  }

  /** A push of an idle warp begins at once, in every state without a client flush,
      wherever the other warps stand in `push`: it is next to reserve, and it counts
      as asked for. */
  lemma PushBegins(c: Config, acts: seq<Action>, w: nat, p: seq<byte>)
    requires var s := Exec(c, acts).s; w < |s.warps| && s.warps[w].Idle? && NoClientFlush(s)
    requires 0 < |p| < TWO_32
    ensures var s, s' := Exec(c, acts).s, Exec(c, acts + [StartPush(w, p)]).s;
      && s' == s.(warps := s.warps[w := Reserving(p)])
      && PacketOf(s'.warps[w]) == p
      && Pushed(c, acts + [StartPush(w, p)], w) == Pushed(c, acts, w) + [p]
  {
    ExecAppend(c, acts, StartPush(w, p));
    assert (acts + [StartPush(w, p)])[..|acts|] == acts;
  }

  /** An idle warp begins a push and takes its place. */
  lemma PushAndReserve(c: Config, acts: seq<Action>, w: nat, p: seq<byte>)
    requires var s := Exec(c, acts).s; w < |s.warps| && s.warps[w].Idle? && NoClientFlush(s)
    requires 0 < |p| < TWO_32 && Exec(c, acts).s.head + |p| < TWO_64
    ensures var s, s' := Exec(c, acts).s, Exec(c, acts + [StartPush(w, p), Device(w)]).s;
      && s'.head == s.head + |p| && s'.tail == s.tail
      && s'.warps == s.warps[w := if s.head + |p| <= c.End() then Copying(p, s.head, 0)
                                  else if s.head <= c.End() then AwaitingTail(p, s.head)
                                  else Spinning(p)]
  {
    hide Exec;
    PushBegins(c, acts, w, p);
    assert acts + [StartPush(w, p), Device(w)] == (acts + [StartPush(w, p)]) + [Device(w)];
    ExecAppend(c, acts + [StartPush(w, p)], Device(w));
  }

  // ------------------------------------------------------------------------
  // All copying at once.

  /** Packets end to end. */
  function Flat(packets: seq<seq<byte>>): seq<byte> {
    if packets == [] then [] else Flat(packets[..|packets| - 1]) + packets[|packets| - 1]
  }

  /** One warp after the other begins its push and reserves; nobody copies yet. */
  function ReserveAll(packets: seq<seq<byte>>): seq<Action> {
    if packets == [] then []
    else
      var n := |packets| - 1;
      ReserveAll(packets[..n]) + [StartPush(n, packets[n]), Device(n)]
  }

  /** Where the packet of warp w goes if the warps reserve in order. */
  function Place(c: Config, packets: seq<seq<byte>>, w: nat): nat
    requires w <= |packets|
  {
    c.base + |Flat(packets[..w])|
  }

  /** The first warps are about to copy the packets, each to its own place, and the
      other warps have not begun. */
  ghost predicate AllReserved(c: Config, packets: seq<seq<byte>>, s: State) {
    && |s.warps| == c.warps
    && s.head == Place(c, packets, |packets|)
    && (forall w | 0 <= w < |packets| && w < c.warps :: s.warps[w] == Copying(packets[w], Place(c, packets, w), 0))
    && forall w | |packets| <= w < c.warps :: s.warps[w].Idle?
  }

  lemma PlaceStays(c: Config, packets: seq<seq<byte>>, p: seq<byte>, w: nat)
    requires w <= |packets|
    ensures Place(c, packets + [p], w) == Place(c, packets, w)
  {
    assert (packets + [p])[..w] == packets[..w];
  }

  lemma PlaceNext(c: Config, packets: seq<seq<byte>>, p: seq<byte>)
    ensures Place(c, packets + [p], |packets| + 1) == Place(c, packets, |packets|) + |p|
  {
    assert (packets + [p])[..|packets| + 1] == packets + [p];
    assert (packets + [p])[..|packets|] == packets == packets[..|packets|];
  }

  lemma OneMoreReserved(c: Config, packets: seq<seq<byte>>, s: State, p: seq<byte>, s': State)
    requires AllReserved(c, packets, s) && |packets| < c.warps
    requires s'.head == s.head + |p| && s'.warps == s.warps[|packets| := Copying(p, s.head, 0)]
    ensures AllReserved(c, packets + [p], s')
  {
    hide Place;
    PlaceNext(c, packets, p);
    forall w | 0 <= w <= |packets|
      ensures Place(c, packets + [p], w) == Place(c, packets, w)
    {
      PlaceStays(c, packets, p, w);
    }
  }

  lemma NextToReserve(c: Config, packets: seq<seq<byte>>, s: State)
    requires AllReserved(c, packets, s) && |packets| < c.warps
    ensures |packets| < |s.warps| && s.warps[|packets|].Idle? && NoClientFlush(s)
    ensures s.head == Place(c, packets, |packets|)
  {
    hide Place;
  }

  lemma FreshChannel(c: Config)
    ensures Exec(c, []).s == Init(c) && AllReserved(c, [], Init(c))
  {
  }

  lemma {:induction false} ReserveAllRun(c: Config, packets: seq<seq<byte>>)
    requires c.Valid() && |packets| <= c.warps && |Flat(packets)| <= c.Size()
    requires forall w | 0 <= w < |packets| :: 0 < |packets[w]|
    ensures Fits(c, ReserveAll(packets)) && AllReserved(c, packets, Exec(c, ReserveAll(packets)).s)
  {
    hide Exec, AllReserved, NoClientFlush;
    if packets == [] {
      FreshChannel(c);
    } else {
      var n := |packets| - 1;
      var early, p := packets[..n], packets[n];
      ReserveAllRun(c, early);
      var s := Exec(c, ReserveAll(early)).s;
      NextToReserve(c, early, s);
      assert packets == early + [p] && early[..n] == early;
      PushAndReserve(c, ReserveAll(early), n, p);
      OneMoreReserved(c, early, s, p, Exec(c, ReserveAll(packets)).s);
    }
  }

  /** Any packets, one per warp, that fit the buffer together can all be in the
      copy phase at the same time, each at its own place. */
  lemma AllCopyAtOnce(c: Config, packets: seq<seq<byte>>)
    requires c.Valid() && |packets| == c.warps && |Flat(packets)| <= c.Size()
    requires forall w | 0 <= w < |packets| :: 0 < |packets[w]|
    ensures exists acts: seq<Action> :: Fits(c, acts) && AllReserved(c, packets, Exec(c, acts).s)
  {
    hide Exec, Fits, AllReserved;
    ReserveAllRun(c, packets);
    var acts := ReserveAll(packets);
  }

  // ------------------------------------------------------------------------
  // All late at once.

  function Turns(w: nat, n: nat): seq<Action> { seq(n, _ => Device(w)) }

  /** A warp copies its first k bytes. */
  lemma {:induction false} CopyBytes(c: Config, acts: seq<Action>, w: nat, k: nat)
    requires var s := Exec(c, acts).s;
      w < |s.warps| && s.warps[w].Copying? && s.warps[w].done == 0 && k <= |s.warps[w].packet|
    ensures var s, s' := Exec(c, acts).s, Exec(c, acts + Turns(w, k)).s;
      s'.head == s.head && s'.warps == s.warps[w := s.warps[w].(done := k)]
  {
    hide Exec;
    if k == 0 {
      assert acts + Turns(w, 0) == acts;
    } else {
      CopyBytes(c, acts, w, k - 1);
      assert acts + Turns(w, k) == (acts + Turns(w, k - 1)) + [Device(w)];
      ExecAppend(c, acts + Turns(w, k - 1), Device(w));
    }
  }

  /** Warp 0 alone fills the buffer with p. */
  function FillRun(p: seq<byte>): seq<Action> {
    [StartPush(0, p), Device(0)] + Turns(0, |p| + 1)
  }

  lemma BufferFills(c: Config, p: seq<byte>)
    requires c.Valid() && 0 < c.warps && |p| == c.Size()
    ensures var s := Exec(c, FillRun(p)).s; s.head == c.End() && |s.warps| == c.warps && AllIdle(s.warps)
  {
    hide Exec;
    FreshChannel(c);
    var begun := [StartPush(0, p), Device(0)];
    assert [] + begun == begun;
    PushAndReserve(c, [], 0, p);
    CopyBytes(c, begun, 0, |p|);
    assert FillRun(p) == (begun + Turns(0, |p|)) + [Device(0)];
    ExecAppend(c, begun + Turns(0, |p|), Device(0));
  }

  /** With the buffer full, the first i warps begin a push of p and fail. */
  function FailAll(p: seq<byte>, i: nat): seq<Action> {
    if i == 0 then FillRun(p) else FailAll(p, i - 1) + [StartPush(i - 1, p), Device(i - 1)]
  }

  /** The first i warps are late, the head is beyond the end by `size` bytes for
      each of them, and the other warps have not begun. */
  ghost predicate Late(c: Config, s: State, i: nat, size: nat) {
    && |s.warps| == c.warps
    && s.head == c.End() + i * size
    && (forall w | 0 <= w < i && w < c.warps :: s.warps[w].Spinning? || s.warps[w].AwaitingTail?)
    && forall w | i <= w < c.warps :: s.warps[w].Idle?
  }

  lemma LateHead(c: Config, i: nat)
    requires c.Valid() && i < c.warps
    ensures c.End() + i * c.Size() + c.Size() == c.End() + (i + 1) * c.Size() < TWO_64
  {
    AtMostTimes(c.Size(), i + 1, c.warps);
    assert c.Size() * (i + 1) == i * c.Size() + c.Size();
  }

  lemma NobodyLate(c: Config, s: State)
    requires s.head == c.End() && |s.warps| == c.warps && AllIdle(s.warps)
    ensures Late(c, s, 0, c.Size())
  {
  }

  /** Warp i finds the buffer full too. */
  lemma OneMoreLate(c: Config, s: State, i: nat, p: seq<byte>, s': State)
    requires c.Valid() && Late(c, s, i, |p|) && i < c.warps && |p| == c.Size()
    requires s'.head == s.head + |p|
    requires s'.warps == s.warps[i := if s.head <= c.End() then AwaitingTail(p, s.head) else Spinning(p)]
    ensures Late(c, s', i + 1, |p|)
  {
    LateHead(c, i);
  }

  lemma NextToFail(c: Config, s: State, i: nat)
    requires c.Valid() && Late(c, s, i, c.Size()) && i < c.warps
    ensures i < |s.warps| && s.warps[i].Idle? && NoClientFlush(s)
    ensures c.End() < s.head + c.Size() < TWO_64
  {
    LateHead(c, i);
    assert i * c.Size() >= 0;
  }

  lemma {:induction false} FailAllRun(c: Config, p: seq<byte>, i: nat)
    requires c.Valid() && 0 < c.warps && i <= c.warps && |p| == c.Size()
    ensures PacketsAtMost(FailAll(p, i), c.Size()) && Late(c, Exec(c, FailAll(p, i)).s, i, c.Size())
  {
    hide Exec, Late, NoClientFlush;
    if i == 0 {
      BufferFills(c, p);
      NobodyLate(c, Exec(c, FillRun(p)).s);
    } else {
      FailAllRun(c, p, i - 1);
      var s := Exec(c, FailAll(p, i - 1)).s;
      NextToFail(c, s, i - 1);
      PushAndReserve(c, FailAll(p, i - 1), i - 1, p);
      OneMoreLate(c, s, i - 1, p, Exec(c, FailAll(p, i)).s);
    }
  }

  /** The bound on the head is exact: in every channel with a warp there is a run
      with packets of the buffer's size in which all warps are late at once and the
      head is one packet per warp beyond the end. */
  lemma HeadBoundIsReached(c: Config)
    requires c.Valid() && 0 < c.warps
    ensures exists acts: seq<Action> ::
              PacketsAtMost(acts, c.Size()) && Late(c, Exec(c, acts).s, c.warps, c.Size())
  {
    hide Exec, PacketsAtMost, Late;
    var p := seq(c.Size(), _ => 0 as byte);
    FailAllRun(c, p, c.warps);
    var acts := FailAll(p, c.warps);
  }
}
