/** `recv` as one call: atomic in spite of the warps, exactly ceil(n / m) calls
    per flush, and never splitting a packet when the chunks are aligned. */
module ChannelReceive {
  import opened Words
  import opened Sums
  import opened ChannelProtocol
  import opened ChannelInvariant
  import opened ChannelDelivery

  /** What one call of `recv` returns and leaves in the doorbell and the read head. */
  datatype Call = Call(nbytes: int, doorbell: int, readHead: nat)

  function Recv(base: nat, doorbell: int, readHead: nat, max: nat): Call {
    var rung := Uint32(doorbell);
    if rung == 0 then Call(0, doorbell, readHead)
    else
      var nbytes := if rung > max then Int32(max) else Int32(rung);
      var left := Int32(rung - nbytes);
      Call(nbytes, left, if left > 0 then Uint64(readHead + nbytes) else base)
  }

  /** The conversions between int and uint32_t lose nothing, because a flush
      length is positive and at most `buff_size`. */
  lemma RecvConversions(base: nat, doorbell: int, readHead: nat, max: nat)
    requires 0 <= doorbell < TWO_31 && 0 < max < TWO_32 && readHead + doorbell < TWO_64
    ensures Recv(base, doorbell, readHead, max) ==
      if doorbell == 0 then Call(0, 0, readHead)
      else if max < doorbell then Call(max, doorbell - max, readHead + max)
      else Call(doorbell, 0, base)
  {
  }

  // ------------------------------------------------------------------------
  // Draining one flush.

  /** The macro CEILING of utils.h. */
  function Ceiling(x: nat, y: nat): nat
    requires y > 0
  {
    (x + y - 1) / y
  }

  function Min(a: int, b: int): int { if a < b then a else b }

  lemma CeilingExact(n: nat, m: nat, k: nat)
    requires m > 0
    ensures k < Ceiling(n, m) <==> k * m < n
  {
    var q, r := (n + m - 1) / m, (n + m - 1) % m;
    assert n + m - 1 == q * m + r && 0 <= r < m;
    assert (q - k) * m == q * m - k * m;
    MulSign(q - k, m);
    MulSign(q - k - 1, m);
  }

  /** Action a rings the doorbell, which starts the drain of a flush. */
  predicate Rings(s: State, a: Action) {
    a.Device? && a.w < |s.warps| && s.warps[a.w].Ringing? && s.doorbell == 0
  }

  /** The calls of `recv` that have returned data since the doorbell was rung. */
  function Calls(c: Config, acts: seq<Action>): nat {
    if acts == [] then 0
    else
      var before, a := acts[..|acts| - 1], acts[|acts| - 1];
      var s := Exec(c, before).s;
      if Rings(s, a) then 0
      else Calls(c, before) + if a.HostStep? && s.host.Clearing? then 1 else 0
  }

  /** With chunks of m bytes, `off` of the n bytes of a flush asked for so far and
      the flusher at x: what the doorbell still shows and what the host is doing. */
  predicate Draining(x: Warp, n: nat, off: int, m: nat, doorbell: int, host: Host) {
    && (Offered(x) ==> doorbell == n - Min(off, n) && off - m < n)
    && (host.Fetching? ==> host.nbytes == Min(m, host.rung))
    && (host.Clearing? ==> host.left == doorbell - Min(m, doorbell))
  }

  ghost predicate Drains(s: State, h: History, off: int, m: nat) {
    Draining(Stage(s.warps, h.flusher), |Content(h)|, off, m, s.doorbell, s.host)
  }

  /** What the invariant says of the doorbell and the host. */
  lemma HostFacts(c: Config, s: State, h: History)
    requires c.Valid() && Inv(c, s, h)
    ensures 0 <= s.doorbell <= |Content(h)| <= c.Size() < TWO_31
    ensures s.doorbell > 0 || !s.host.Resting? ==> Stage(s.warps, h.flusher).AwaitingHost? && s.doorbell > 0
    ensures s.host.Fetching? ==> s.host.rung == s.doorbell && |s.host.got| <= s.host.nbytes <= s.doorbell
  {
    hide Sum, Bytes, Written, Shape;
  }

  lemma InvShape(c: Config, s: State, h: History)
    requires Inv(c, s, h)
    ensures Shape(c, s.warps, h.late, h.flusher)
  {
  }

  /** A warp that is not flushing reserves nothing while the host drains. */
  lemma PusherDrains(c: Config, s: State, h: History, w: nat)
    requires c.Valid() && Inv(c, s, h) && w < |s.warps| && !IsFlusher(s.warps[w])
    ensures var s', h' := DeviceStep(c, s, w), RecordDevice(c, s, w, h);
      var x, x' := Stage(s.warps, h.flusher), Stage(s'.warps, h'.flusher);
      && s'.doorbell == s.doorbell && s'.host == s.host
      && (Offered(x') ==> x' == x && Content(h') == Content(h))
  {
    hide Inv, Bytes, Stage, Content;
    BeforeStep(c, s, h, w);
    HeadTells(c, s, h);
    InvShape(c, s, h);
    DeviceStage(c, s, h, w);
    DeviceContent(c, s, h, w);
  }

  /** The flusher offers the content when it rings, and nothing after the head reset. */
  lemma FlusherDrains(c: Config, s: State, h: History, w: nat)
    requires c.Valid() && Inv(c, s, h) && w < |s.warps| && IsFlusher(s.warps[w])
    ensures var s', h' := DeviceStep(c, s, w), RecordDevice(c, s, w, h);
      var x, x' := Stage(s.warps, h.flusher), Stage(s'.warps, h'.flusher);
      && s'.host == s.host
      && (Rings(s, Device(w)) ==> s'.doorbell == |Content(h')| > 0)
      && (!Rings(s, Device(w)) ==> s'.doorbell == s.doorbell)
      && (Offered(x') ==> Content(h') == Content(h) && (Offered(x) || Rings(s, Device(w))))
  {
    hide Inv, Bytes, Stage, Content, Int32, Uint32;
    BeforeStep(c, s, h, w);
    InvShape(c, s, h);
    DeviceStage(c, s, h, w);
    DeviceContent(c, s, h, w);
    HostFacts(c, s, h);
    if s.warps[w].Ringing? {
      Int32Small(s.warps[w].nbytes);
    }
  }

  lemma DrainsDevice(c: Config, s: State, h: History, w: nat, off: int, m: nat)
    requires c.Valid() && Inv(c, s, h) && Drains(s, h, off, m) && 0 < m && w < |s.warps|
    ensures Drains(DeviceStep(c, s, w), RecordDevice(c, s, w, h), if Rings(s, Device(w)) then 0 else off, m)
  {
    hide Inv, Bytes, Stage, Content, DeviceStep, RecordDevice;
    if IsFlusher(s.warps[w]) {
      FlusherDrains(c, s, h, w);
      HostFacts(c, s, h);
    } else {
      PusherDrains(c, s, h, w);
    }
  }

  lemma DrainsHost(c: Config, s: State, h: History, off: int, m: nat)
    requires c.Valid() && Inv(c, s, h) && Drains(s, h, off, m) && 0 < m
    ensures Drains(HostNext(c, s), Record(c, s, HostStep, h), if s.host.Clearing? then off + m else off, m)
  {
    hide Inv, Bytes, Stage;
    HostFacts(c, s, h);
    if s.host.Fetching? {
      Int32Small(s.host.rung - s.host.nbytes);
    }
  }

  lemma DrainsFetch(c: Config, s: State, h: History, off: int, m: nat)
    requires c.Valid() && Inv(c, s, h) && Drains(s, h, off, m) && MayRecv(s, m)
    ensures Drains(Fetch(s, m), h, off, m)
  {
    hide Inv, Bytes, Stage;
    HostFacts(c, s, h);
  }

  /** A push or a flush that begins offers the host nothing yet. */
  lemma DrainsStart(c: Config, s: State, h: History, a: Action, off: int, m: nat)
    requires c.Valid() && Inv(c, s, h) && Drains(s, h, off, m) && (a.StartPush? || a.StartFlush?)
    ensures Drains(Next(c, s, a), Record(c, s, a, h), off, m)
  {
    hide Inv, Bytes;
    InvShape(c, s, h);
  }

  lemma DrainsNext(c: Config, s: State, h: History, a: Action, off: int, m: nat)
    requires c.Valid() && Inv(c, s, h) && Drains(s, h, off, m) && 0 < m && ChunkIs(a, m)
    ensures Drains(Next(c, s, a), Record(c, s, a, h),
                   if Rings(s, a) then 0 else if a.HostStep? && s.host.Clearing? then off + m else off, m)
  {
    hide Inv, Drains, DeviceStep, RecordDevice, HostNext, Fetch;
    match a {
      case Device(w) =>
        if w < |s.warps| {
          DrainsDevice(c, s, h, w, off, m);
        }
      case StartRecv(max) =>
        if MayRecv(s, max) {
          DrainsFetch(c, s, h, off, m);
        }
      case HostStep =>
        DrainsHost(c, s, h, off, m);
      case _ =>
        DrainsStart(c, s, h, a, off, m);
    }
  }

  lemma DrainsInit(c: Config, m: nat)
    requires 0 < m
    ensures Drains(Init(c), EMPTY_HISTORY, 0, m)
  {
  }

  lemma {:induction false} DrainsAlways(c: Config, acts: seq<Action>, m: nat)
    requires c.Valid() && Fits(c, acts) && FixedChunk(acts, m) && 0 < m
    ensures Drains(Exec(c, acts).s, Exec(c, acts).h, Calls(c, acts) * m, m)
  {
    hide Inv, Drains, Next, Record, Rings;
    if acts == [] {
      DrainsInit(c, m);
    } else {
      var before, a := acts[..|acts| - 1], acts[|acts| - 1];
      DrainsAlways(c, before, m);
      Invariant(c, before);
      assert ChunkIs(a, m);
      var k := Calls(c, before);
      DrainsNext(c, Exec(c, before).s, Exec(c, before).h, a, k * m, m);
      assert (k + 1) * m == k * m + m && 0 * m == 0;
    }
  }

  lemma OfferedIsStage(c: Config, s: State, h: History, w: nat)
    requires Inv(c, s, h) && w < |s.warps| && IsFlusher(s.warps[w])
    ensures Stage(s.warps, h.flusher) == s.warps[w]
  {
    hide Sum, Bytes, Written, Delivered, Counts;
    assert WarpOk(c, h.late, h.flusher, w, s.warps[w]);
  }

  /** The bytes that the doorbell and the host's hand stand for. */
  lemma DrainedBytes(c: Config, s: State, h: History)
    requires c.Valid() && Inv(c, s, h) && Offered(Stage(s.warps, h.flusher))
    ensures var n := |Bytes(h.epoch)|;
      && 0 <= s.doorbell <= n
      && h.received == Bytes(h.past) + Bytes(h.epoch)[..n - s.doorbell]
      && (s.host.Clearing? ==> 0 <= s.host.left <= s.doorbell
                               && s.host.got == Bytes(h.epoch)[n - s.doorbell..n - s.host.left])
      && (s.doorbell == 0 ==> s.host.Resting? && s.readHead == c.base)
  {
    hide Sum, Bytes, Written, Shape, Counts;
  }

  /** In every run in which the host asks for m bytes at a time: k calls after the
      ring, `recv` has returned the first min(k*m, n) of the n bytes of the flush on
      top of the earlier epochs, and the call it is in returns those from k*m up
      to min((k+1)*m, n). */
  lemma DrainCall(c: Config, acts: seq<Action>, m: nat, w: nat)
    requires c.Valid() && Fits(c, acts) && FixedChunk(acts, m) && 0 < m
    requires var s := Exec(c, acts).s; w < |s.warps| && Offered(s.warps[w])
    ensures var s, h, k, n := Exec(c, acts).s, Exec(c, acts).h, Calls(c, acts), |Bytes(Exec(c, acts).h.epoch)|;
      && 0 <= Min(k * m, n)
      && h.received == Bytes(h.past) + Bytes(h.epoch)[..Min(k * m, n)]
      && (s.host.Clearing? ==> k * m < n && s.host.got == Bytes(h.epoch)[k * m..Min(k * m + m, n)])
  {
    hide Exec, Inv, Bytes, Stage, Calls, FixedChunk;
    Invariant(c, acts);
    var s, h := Exec(c, acts).s, Exec(c, acts).h;
    OfferedIsStage(c, s, h, w);
    DrainsAlways(c, acts, m);
    DrainedBytes(c, s, h);
    HostFacts(c, s, h);
    var off := Calls(c, acts) * m;
    assert off >= 0;
  }

  lemma OfferedContent(c: Config, s: State, h: History)
    requires Inv(c, s, h) && Offered(Stage(s.warps, h.flusher))
    ensures |Bytes(h.epoch)| > 0
  {
    hide Sum, Bytes, Written, Shape, Delivered;
  }

  /** In every run in which the host asks for m bytes at a time, a flush of n bytes
      takes exactly ceil(n / m) calls that return data: while the doorbell is set
      there were fewer and it shows what they left; once it is clear, and up to the
      head reset, there were that many and the read head is back at the start. */
  lemma DrainTakesCeiling(c: Config, acts: seq<Action>, m: nat, w: nat)
    requires c.Valid() && Fits(c, acts) && FixedChunk(acts, m) && 0 < m
    requires var s := Exec(c, acts).s; w < |s.warps| && Offered(s.warps[w])
    ensures var s, k, n := Exec(c, acts).s, Calls(c, acts), |Bytes(Exec(c, acts).h.epoch)|;
      if s.doorbell > 0 then s.doorbell == n - k * m && k < Ceiling(n, m)
      else k == Ceiling(n, m) && s.host.Resting? && s.readHead == c.base
  {
    hide Exec, Inv, Bytes, Stage, Calls, FixedChunk, Ceiling;
    Invariant(c, acts);
    var s, h := Exec(c, acts).s, Exec(c, acts).h;
    OfferedIsStage(c, s, h, w);
    DrainsAlways(c, acts, m);
    DrainedBytes(c, s, h);
    OfferedContent(c, s, h);
    var k, n := Calls(c, acts), |Bytes(h.epoch)|;
    CeilingExact(n, m, k);
    if k > 0 {
      CeilingExact(n, m, k - 1);
      assert (k - 1) * m == k * m - m;
    }
  }

  /** Between two calls, while a flush drains, the read head and the doorbell
      add up to the flushed length; once drained the read head is at the start. */
  lemma DrainPosition(c: Config, acts: seq<Action>)
    requires c.Valid() && Fits(c, acts) && Exec(c, acts).s.host.Resting?
    ensures var s, h := Exec(c, acts).s, Exec(c, acts).h;
      if s.doorbell != 0 then s.readHead - c.base + s.doorbell == |Bytes(h.epoch)|
      else s.readHead == c.base
  {
    hide Exec, Sum, Bytes, Written, Shape, Counts;
    Invariant(c, acts);
  }

  // ------------------------------------------------------------------------
  // One call is atomic.

  /** The bytes a call returns, if it ran alone. */
  function Chunk(c: Config, s: State, max: nat): seq<byte> {
    var from, nbytes := s.readHead - c.base, Recv(c.base, s.doorbell, s.readHead, max).nbytes;
    if 0 <= from <= from + nbytes <= |s.buff| then s.buff[from..from + nbytes] else []
  }

  /** The call has come this far and nothing it depends on has moved. */
  ghost predicate InCall(c: Config, start: Run, max: nat, r: Run) {
    var call, chunk := Recv(c.base, start.s.doorbell, start.s.readHead, max), Chunk(c, start.s, max);
    && r.s.doorbell == start.s.doorbell && r.s.buff == start.s.buff
    && r.h.received == start.h.received
    && match r.s.host
       case Resting => false
       case Fetching(rung, nbytes, got) =>
         && rung == start.s.doorbell && nbytes == call.nbytes == |chunk| && r.s.readHead == start.s.readHead
         && |got| <= |chunk| && got == chunk[..|got|]
       case Clearing(left, got) =>
         left == call.doorbell && r.s.readHead == call.readHead && got == chunk
  }

  lemma RestingHost(c: Config, before: seq<byte>, content: seq<byte>, received: seq<byte>, x: Warp,
                    doorbell: int, readHead: nat)
    requires Delivered(c, before, content, received, x, doorbell, readHead, Resting) && doorbell != 0
    ensures 0 < doorbell <= |content| && readHead == c.base + |content| - doorbell
  {
  }

  lemma BuffSize(c: Config, content: seq<byte>, buff: seq<byte>, ws: seq<Warp>)
    requires Written(c, content, buff, ws)
    ensures |buff| == c.Size()
  {
  }

  lemma StartFacts(c: Config, s: State, h: History)
    requires c.Valid() && Inv(c, s, h) && s.host.Resting? && s.doorbell != 0
    ensures 0 < s.doorbell < TWO_31
    ensures c.base <= s.readHead && s.readHead + s.doorbell <= c.base + |s.buff| < TWO_64
  {
    hide Sum, Bytes, Written, Shape, Counts, Delivered;
    ContentFits(c, Content(h), s.buff, s.warps);
    BuffSize(c, Content(h), s.buff, s.warps);
    RestingHost(c, Bytes(h.past), Content(h), h.received, Stage(s.warps, h.flusher), s.doorbell, s.readHead);
  }

  lemma ChunkLength(c: Config, s: State, max: nat)
    requires 0 < s.doorbell < TWO_31 && 0 < max < TWO_32
    requires c.base <= s.readHead && s.readHead + s.doorbell <= c.base + |s.buff| < TWO_64
    ensures |Chunk(c, s, max)| == Recv(c.base, s.doorbell, s.readHead, max).nbytes > 0
  {
    RecvConversions(c.base, s.doorbell, s.readHead, max);
  }

  lemma CallStarts(c: Config, s: State, h: History, max: nat)
    requires c.Valid() && Inv(c, s, h) && MayRecv(s, max) && s.doorbell != 0
    ensures InCall(c, Run(s, h), max, Run(Fetch(s, max), h))
  {
    hide Inv;
    StartFacts(c, s, h);
    ChunkLength(c, s, max);
    RecvConversions(c.base, s.doorbell, s.readHead, max);
  }

  lemma HostInCall(c: Config, start: Run, max: nat, s: State, h: History)
    requires InCall(c, start, max, Run(s, h))
    requires 0 < max < TWO_32 && 0 < start.s.doorbell < TWO_31
    requires c.base <= start.s.readHead && start.s.readHead + start.s.doorbell <= c.base + |s.buff| < TWO_64
    ensures var r' := Run(HostNext(c, s), Record(c, s, HostStep, h));
      if s.host.Fetching? then InCall(c, start, max, r')
      else
        var call := Recv(c.base, start.s.doorbell, start.s.readHead, max);
        && r'.s.host.Resting? && r'.s.doorbell == call.doorbell && r'.s.readHead == call.readHead
        && r'.h.received == start.h.received + Chunk(c, start.s, max)
  {
    RecvConversions(c.base, start.s.doorbell, start.s.readHead, max);
    if s.host.Fetching? && |s.host.got| < s.host.nbytes {
      var from, k := start.s.readHead - c.base, |s.host.got|;
      assert Chunk(c, start.s, max)[k] == s.buff[from + k];
    }
  }

  lemma DeviceLeavesHost(c: Config, s: State, h: History, w: nat)
    ensures var s', h' := Next(c, s, Device(w)), Record(c, s, Device(w), h);
      s'.host == s.host && s'.readHead == s.readHead && h'.received == h.received
  {
  }

  lemma DeviceLeavesCall(c: Config, acts: seq<Action>, w: nat, start: Run, max: nat)
    requires c.Valid() && Fits(c, acts) && Exec(c, acts).s.doorbell != 0
    requires InCall(c, start, max, Exec(c, acts))
    ensures var r := Exec(c, acts);
      InCall(c, start, max, Run(Next(c, r.s, Device(w)), Record(c, r.s, Device(w), r.h)))
  {
    hide Exec, Recv, Chunk;
    RungBufferIsStable(c, acts, w);
    DeviceLeavesHost(c, Exec(c, acts).s, Exec(c, acts).h, w);
  }

  lemma FitsPrefix(c: Config, acts: seq<Action>, more: seq<Action>)
    requires Fits(c, acts + more)
    ensures Fits(c, acts)
  {
    forall i | 0 <= i < |acts|
      ensures acts[i].StartPush? ==> |acts[i].packet| <= c.Size()
    {
      assert acts[i] == (acts + more)[i];
    }
  }

  lemma FetchIsNext(c: Config, s: State, h: History, max: nat)
    requires MayRecv(s, max)
    ensures Next(c, s, StartRecv(max)) == Fetch(s, max) && Record(c, s, StartRecv(max), h) == h
  {
  }

  lemma HostStepIsNext(c: Config, s: State, h: History)
    ensures Next(c, s, HostStep) == HostNext(c, s)
  {
  }

  lemma CallKeepsDoorbell(c: Config, start: Run, max: nat, r: Run)
    requires InCall(c, start, max, r)
    ensures r.s.doorbell == start.s.doorbell && r.s.buff == start.s.buff && !r.s.host.Resting?
  {
  }

  lemma StartsLeaveCall(c: Config, start: Run, max: nat, r: Run, a: Action)
    requires InCall(c, start, max, r) && (a.StartPush? || a.StartFlush? || a.StartRecv?)
    ensures InCall(c, start, max, Run(Next(c, r.s, a), Record(c, r.s, a, r.h)))
  {
    hide Recv, Chunk;
  }

  /** While the host is inside one call, other actions do not disturb it. */
  lemma {:induction false} CallGoesOn(c: Config, acts: seq<Action>, max: nat, more: seq<Action>)
    requires c.Valid() && Fits(c, acts + [StartRecv(max)] + more)
    requires MayRecv(Exec(c, acts).s, max) && Exec(c, acts).s.doorbell != 0
    requires forall k | 0 <= k <= |more| :: !Exec(c, acts + [StartRecv(max)] + more[..k]).s.host.Resting?
    ensures InCall(c, Exec(c, acts), max, Exec(c, acts + [StartRecv(max)] + more))
  {
    hide Exec, InCall, Next, Record, Inv;
    var call := acts + [StartRecv(max)];
    assert acts + ([StartRecv(max)] + more) == call + more;
    FitsPrefix(c, acts, [StartRecv(max)] + more);
    Invariant(c, acts);
    var start := Exec(c, acts);
    if more == [] {
      assert call + more == call;
      ExecAppend(c, acts, StartRecv(max));
      CallStarts(c, start.s, start.h, max);
      FetchIsNext(c, start.s, start.h, max);
    } else {
      var n := |more| - 1;
      var early := more[..n];
      assert call + more == (call + early) + [more[n]];
      forall k | 0 <= k <= |early|
        ensures !Exec(c, call + early[..k]).s.host.Resting?
      {
        assert early[..k] == more[..k];
      }
      FitsPrefix(c, call + early, [more[n]]);
      CallGoesOn(c, acts, max, early);
      var r := Exec(c, call + early);
      assert !Exec(c, call + more[..|more|]).s.host.Resting? && more[..|more|] == more;
      ExecAppend(c, call + early, more[n]);
      StartFacts(c, start.s, start.h);
      CallKeepsDoorbell(c, start, max, r);
      match more[n] {
        case Device(w) =>
          DeviceLeavesCall(c, call + early, w, start, max);
        case HostStep =>
          HostInCall(c, start, max, r.s, r.h);
          HostStepIsNext(c, r.s, r.h);
        case _ =>
          StartsLeaveCall(c, start, max, r, more[n]);
      }
    }
  }

  lemma StillIn(c: Config, start: Run, max: nat, r: Run)
    requires InCall(c, start, max, r) && HostNext(c, r.s).host.Resting?
    ensures r.s.host.Clearing?
  {
  }

  /** A call of `recv` is atomic: however many steps of the warps fall between its
      own, it returns the bytes, and leaves the doorbell and the read head, that
      it would have had it run alone at its start. */
  lemma RecvIsAtomic(c: Config, acts: seq<Action>, max: nat, more: seq<Action>)
    requires c.Valid() && Fits(c, acts + [StartRecv(max)] + more)
    requires MayRecv(Exec(c, acts).s, max) && Exec(c, acts).s.doorbell != 0
    requires forall k | 0 <= k <= |more| :: !Exec(c, acts + [StartRecv(max)] + more[..k]).s.host.Resting?
    requires Exec(c, acts + [StartRecv(max)] + more + [HostStep]).s.host.Resting?
    ensures var start, end := Exec(c, acts), Exec(c, acts + [StartRecv(max)] + more + [HostStep]);
      var call := Recv(c.base, start.s.doorbell, start.s.readHead, max);
      && end.s.doorbell == call.doorbell && end.s.readHead == call.readHead
      && end.h.received == start.h.received + Chunk(c, start.s, max)
      && |Chunk(c, start.s, max)| == call.nbytes > 0
  {
    hide Exec, InCall, Next, Record, Inv, Recv, Chunk;
    CallGoesOn(c, acts, max, more);
    assert acts + ([StartRecv(max)] + more) == acts + [StartRecv(max)] + more;
    FitsPrefix(c, acts, [StartRecv(max)] + more);
    Invariant(c, acts);
    var start, r := Exec(c, acts), Exec(c, acts + [StartRecv(max)] + more);
    StartFacts(c, start.s, start.h);
    CallKeepsDoorbell(c, start, max, r);
    ExecAppend(c, acts + [StartRecv(max)] + more, HostStep);
    HostInCall(c, start, max, r.s, r.h);
    HostStepIsNext(c, r.s, r.h);
    StillIn(c, start, max, r);
    ChunkLength(c, start.s, max);
  }
}
