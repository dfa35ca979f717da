/** What the channel guarantees of every run: delivery in reservation order,
    per-warp order, sound commit counting, a unique flusher, a stable buffer. */
module ChannelDelivery {
  import opened Words
  import opened Sums
  import opened ChannelProtocol
  import opened ChannelInvariant

  /** Every successful reservation, in order. */
  function Log(h: History): seq<Entry> { h.past + h.epoch }

  /** Whatever the number of warps, the interleaving and the chunk sizes, the
      bytes returned by `recv` are a prefix of the packets in reservation order;
      what is missing is at most the current epoch. */
  lemma ReceivedIsPrefix(c: Config, acts: seq<Action>)
    requires c.Valid() && Fits(c, acts)
    ensures var h := Exec(c, acts).h;
      Bytes(h.past) <= h.received <= Bytes(Log(h))
  {
    hide Exec, Sum, Bytes, Written, Shape, Counts;
    Invariant(c, acts);
    var h := Exec(c, acts).h;
    BytesConcat(h.past, h.epoch);
  }

  /** With every warp outside `push` and nothing left in the buffer, everything
      ever reserved has been received. */
  lemma QuiescentMeansDelivered(c: Config, acts: seq<Action>)
    requires c.Valid() && Fits(c, acts)
    requires var s := Exec(c, acts).s; AllIdle(s.warps) && s.tail == c.base
    ensures var h := Exec(c, acts).h; h.received == Bytes(Log(h))
  {
    hide Exec, Sum, Bytes, Written;
    Invariant(c, acts);
    var s, h := Exec(c, acts).s, Exec(c, acts).h;
    BytesConcat(h.past, h.epoch);
    SumZero(InFlights(s.warps));
    if !h.flusher.Nobody? {
      assert WarpOk(c, h.late, h.flusher, h.flusher.w, s.warps[h.flusher.w]);
    }
  }

  lemma {:induction false} ExecAppend(c: Config, acts: seq<Action>, a: Action)
    ensures var r := Exec(c, acts);
      Exec(c, acts + [a]) == Run(Next(c, r.s, a), Record(c, r.s, a, r.h))
  {
    assert (acts + [a])[..|acts|] == acts;
  }

  /** When a client flush returns, everything reserved so far has been received
      and the channel is empty. */
  lemma ClientFlushDelivers(c: Config, acts: seq<Action>, w: nat)
    requires c.Valid() && Fits(c, acts)
    requires var s := Exec(c, acts).s;
      w < |s.warps| && FlushesExternally(s.warps[w]) && DeviceStep(c, s, w).warps[w].Idle?
    ensures var r := Exec(c, acts + [Device(w)]);
      && r.h.received == Bytes(Log(r.h))
      && r.s.head == r.s.tail == c.base
      && AllIdle(r.s.warps)
  {
    hide Exec, Sum, Bytes, Written, Delivered;
    Invariant(c, acts);
    ExecAppend(c, acts, Device(w));
    var s, h, more := Exec(c, acts).s, Exec(c, acts).h, acts + [Device(w)];
    assert WarpOk(c, h.late, h.flusher, w, s.warps[w]);
    assert h.flusher == Client(w);
    forall i | 0 <= i < |s.warps| && i != w
      ensures s.warps[i].Idle?
    {
      assert WarpOk(c, h.late, h.flusher, i, s.warps[i]);
    }
    HeadTells(c, s, h);
    assert Exec(c, more).s.head == Exec(c, more).s.tail == c.base;
    QuiescentMeansDelivered(c, more);
  }

  // ------------------------------------------------------------------------
  // Per-warp order.

  /** The packets warp w was asked to push, in program order. */
  function Pushed(c: Config, acts: seq<Action>, w: nat): seq<seq<byte>> {
    if acts == [] then []
    else
      var before, a := acts[..|acts| - 1], acts[|acts| - 1];
      if a.StartPush? && a.w == w && MayPush(Exec(c, before).s, w, a.packet)
      then Pushed(c, before, w) + [a.packet]
      else Pushed(c, before, w)
  }

  /** The packets of warp w in a log, in log order. */
  function PacketsOf(log: seq<Entry>, w: nat): seq<seq<byte>> {
    if log == [] then []
    else
      var before, e := log[..|log| - 1], log[|log| - 1];
      if e.warp == w then PacketsOf(before, w) + [e.packet] else PacketsOf(before, w)
  }

  /** The packet of a push that has not yet reserved its place. */
  function Pending(x: Warp): seq<seq<byte>> {
    if x.Idle? || x.Copying? || FlushesExternally(x) then [] else [PacketOf(x)]
  }

  lemma PacketsOfAppend(log: seq<Entry>, e: Entry, w: nat)
    ensures PacketsOf(log + [e], w) == PacketsOf(log, w) + if e.warp == w then [e.packet] else []
  {
    assert (log + [e])[..|log|] == log;
  }

  lemma WarpOrderDevice(c: Config, s: State, h: History, v: nat, w: nat)
    requires v < |s.warps| && w < |s.warps|
    ensures var s', h' := DeviceStep(c, s, v), RecordDevice(c, s, v, h);
      && |s'.warps| == |s.warps|
      && PacketsOf(Log(h'), w) + Pending(s'.warps[w]) == PacketsOf(Log(h), w) + Pending(s.warps[w])
  {
    hide PacketsOf;
    if s.warps[v].Reserving? {
      var y := DeviceStep(c, s, v).warps[v];
      if y.Copying? {
        var e := Entry(v, s.warps[v].packet, y.at);
        assert h.past + (h.epoch + [e]) == Log(h) + [e];
        PacketsOfAppend(Log(h), e, w);
      }
    } else if s.warps[v].ResettingHead? {
      assert h.past + h.epoch + [] == Log(h);
    }
  }

  lemma WarpOrderStep(c: Config, s: State, h: History, a: Action, w: nat)
    requires w < |s.warps|
    ensures var s', h' := Next(c, s, a), Record(c, s, a, h);
      && |s'.warps| == |s.warps|
      && PacketsOf(Log(h'), w) + Pending(s'.warps[w])
         == PacketsOf(Log(h), w) + Pending(s.warps[w])
            + (if a.StartPush? && a.w == w && MayPush(s, w, a.packet) then [a.packet] else [])
  {
    hide PacketsOf, DeviceStep, RecordDevice;
    if a.Device? && a.w < |s.warps| {
      WarpOrderDevice(c, s, h, a.w, w);
    }
  }

  /** Each warp's packets enter the log exactly once and in program order,
      however many flushes and retries fall between them; only the push it is in
      may still be missing. Packets of any size. */
  lemma {:induction false} WarpOrder(c: Config, acts: seq<Action>, w: nat)
    requires w < c.warps
    ensures var r := Exec(c, acts);
      |r.s.warps| == c.warps && Pushed(c, acts, w) == PacketsOf(Log(r.h), w) + Pending(r.s.warps[w])
  {
    if acts != [] {
      var before, a := acts[..|acts| - 1], acts[|acts| - 1];
      WarpOrder(c, before, w);
      var s, h := Exec(c, before).s, Exec(c, before).h;
      WarpOrderStep(c, s, h, a, w);
    }
  }

  lemma EntriesStep(c: Config, s: State, h: History, a: Action)
    requires forall i | 0 <= i < |Log(h)| :: Log(h)[i].warp < |s.warps|
    ensures |Next(c, s, a).warps| == |s.warps|
    ensures var h' := Record(c, s, a, h);
      forall i | 0 <= i < |Log(h')| :: Log(h')[i].warp < |s.warps|
  {
    if a.Device? && a.w < |s.warps| {
      var h' := RecordDevice(c, s, a.w, h);
      var y := DeviceStep(c, s, a.w).warps[a.w];
      if s.warps[a.w].Reserving? && y.Copying? {
        assert Log(h') == Log(h) + [Entry(a.w, s.warps[a.w].packet, y.at)];
      } else {
        assert Log(h') == Log(h);
      }
    }
  }

  lemma {:induction false} EntriesAreOfWarps(c: Config, acts: seq<Action>)
    ensures var r := Exec(c, acts);
      |r.s.warps| == c.warps && forall i | 0 <= i < |Log(r.h)| :: Log(r.h)[i].warp < c.warps
  {
    hide Next, RecordDevice;
    if acts != [] {
      var before, a := acts[..|acts| - 1], acts[|acts| - 1];
      EntriesAreOfWarps(c, before);
      EntriesStep(c, Exec(c, before).s, Exec(c, before).h, a);
    }
  }

  /** End to end: with every warp outside `push` and nothing buffered, as after a
      client flush, the received stream is the packets of the log, and the log
      holds the packets of each warp once each, in the order it pushed them, and
      nothing else. */
  lemma AllPushesDelivered(c: Config, acts: seq<Action>)
    requires c.Valid() && Fits(c, acts)
    requires var s := Exec(c, acts).s; AllIdle(s.warps) && s.tail == c.base
    ensures var h := Exec(c, acts).h;
      && h.received == Bytes(Log(h))
      && (forall w | 0 <= w < c.warps :: PacketsOf(Log(h), w) == Pushed(c, acts, w))
      && (forall i | 0 <= i < |Log(h)| :: Log(h)[i].warp < c.warps)
  {
    hide Exec, PacketsOf, Pushed, Bytes;
    QuiescentMeansDelivered(c, acts);
    EntriesAreOfWarps(c, acts);
    forall w | 0 <= w < c.warps
      ensures PacketsOf(Log(Exec(c, acts).h), w) == Pushed(c, acts, w)
    {
      WarpOrder(c, acts, w);
    }
  }

  // ------------------------------------------------------------------------
  // One flusher, and what it waits for.

  /** At most one warp is between choosing to flush and resetting the head. */
  lemma UniqueFlusher(c: Config, acts: seq<Action>, i: nat, j: nat)
    requires c.Valid() && Fits(c, acts)
    requires var ws := Exec(c, acts).s.warps;
      i < |ws| && j < |ws| && IsFlusher(ws[i]) && IsFlusher(ws[j])
    ensures i == j
  {
    hide Exec, Sum, Bytes, Written, Delivered, Counts;
    Invariant(c, acts);
    var s, h := Exec(c, acts).s, Exec(c, acts).h;
    assert WarpOk(c, h.late, h.flusher, i, s.warps[i]);
    assert WarpOk(c, h.late, h.flusher, j, s.warps[j]);
  }

  /** The head is beyond the end exactly while a warp flushes from inside `push`. */
  lemma FullMeansFlushing(c: Config, acts: seq<Action>)
    requires c.Valid() && Fits(c, acts)
    ensures var s := Exec(c, acts).s;
      s.head > c.End() <==>
      exists i :: 0 <= i < |s.warps| && IsFlusher(s.warps[i]) && !FlushesExternally(s.warps[i])
  {
    hide Exec, Sum, Bytes, Written, Delivered, Counts;
    Invariant(c, acts);
    var s, h := Exec(c, acts).s, Exec(c, acts).h;
    HeadTells(c, s, h);
    if h.flusher.Pushing? {
      assert WarpOk(c, h.late, h.flusher, h.flusher.w, s.warps[h.flusher.w]);
    }
    forall i | 0 <= i < |s.warps| && IsFlusher(s.warps[i]) && !FlushesExternally(s.warps[i])
      ensures h.flusher == Pushing(i)
    {
      assert WarpOk(c, h.late, h.flusher, i, s.warps[i]);
    }
  }

  /** The tail counts commits: what is reserved and not committed is exactly what
      the copying warps hold, until the tail is reset. */
  lemma TailCountsCommits(c: Config, acts: seq<Action>)
    requires c.Valid() && Fits(c, acts)
    ensures var s, h := Exec(c, acts).s, Exec(c, acts).h;
      if exists i :: 0 <= i < |s.warps| && s.warps[i].ResettingHead?
      then s.tail == c.base && forall i | 0 <= i < |s.warps| :: !s.warps[i].Copying?
      else s.tail + Sum(InFlights(s.warps)) == c.base + |Bytes(h.epoch)|
  {
    hide Exec, Sum, Bytes, Written, Delivered;
    Invariant(c, acts);
    var s, h := Exec(c, acts).s, Exec(c, acts).h;
    if h.flusher != Nobody {
      assert WarpOk(c, h.late, h.flusher, h.flusher.w, s.warps[h.flusher.w]);
    }
    if i :| 0 <= i < |s.warps| && s.warps[i].ResettingHead? {
      assert WarpOk(c, h.late, h.flusher, i, s.warps[i]);
      NoneCopying(c, s.warps, h.late, h.flusher);
    }
  }

  lemma ContentFits(c: Config, content: seq<byte>, buff: seq<byte>, ws: seq<Warp>)
    requires Written(c, content, buff, ws)
    ensures |content| <= |buff|
  {
  }

  /** The flusher's wait ends only when no warp is copying and every byte below
      its ticket is the reserved one. */
  lemma TicketMeansWritten(c: Config, acts: seq<Action>, w: nat)
    requires c.Valid() && Fits(c, acts)
    requires var s := Exec(c, acts).s;
      w < |s.warps| && s.warps[w].AwaitingTail? && s.tail == s.warps[w].ticket
    ensures var s, h := Exec(c, acts).s, Exec(c, acts).h;
      && (forall i | 0 <= i < |s.warps| :: !s.warps[i].Copying?)
      && s.warps[w].ticket <= c.base + |s.buff|
      && c.base < s.warps[w].ticket
      && s.buff[..s.warps[w].ticket - c.base] == Bytes(h.epoch)
  {
    hide Exec, Sum, Bytes, Written, Delivered;
    Invariant(c, acts);
    var s, h := Exec(c, acts).s, Exec(c, acts).h;
    assert WarpOk(c, h.late, h.flusher, w, s.warps[w]);
    NoneCopying(c, s.warps, h.late, h.flusher);
    NothingInFlight(c, Content(h), s.buff, s.warps);
    ContentFits(c, Content(h), s.buff, s.warps);
  }

  /** `assert(*doorbell == 0)` holds whenever a flush is about to ring, and the
      length it writes is neither truncated nor zero. */
  lemma RingFindsDoorbellClear(c: Config, acts: seq<Action>, w: nat)
    requires c.Valid() && Fits(c, acts)
    requires var s := Exec(c, acts).s; w < |s.warps| && s.warps[w].Ringing?
    ensures var s, h := Exec(c, acts).s, Exec(c, acts).h;
      && s.doorbell == 0
      && s.warps[w].nbytes == |Bytes(h.epoch)| > 0
      && Int32(s.warps[w].nbytes) == s.warps[w].nbytes
  {
    hide Exec, Sum, Bytes, Written;
    Invariant(c, acts);
    var s, h := Exec(c, acts).s, Exec(c, acts).h;
    assert WarpOk(c, h.late, h.flusher, w, s.warps[w]);
  }

  /** A flush from inside `push` never takes the zero-byte early return. */
  lemma PushNeverFlushesNothing(c: Config, acts: seq<Action>, w: nat)
    requires c.Valid() && Fits(c, acts)
    requires var s := Exec(c, acts).s;
      w < |s.warps| && s.warps[w].ReadingLength? && s.warps[w].caller.InPush?
    ensures DeviceStep(c, Exec(c, acts).s, w).warps[w].Ringing?
  {
    hide Exec, Sum, Bytes, Written, Delivered;
    Invariant(c, acts);
    BeforeStep(c, Exec(c, acts).s, Exec(c, acts).h, w);
  }

  // ------------------------------------------------------------------------
  // The buffer is stable while the doorbell is set.

  /** While the doorbell is non-zero the buffer holds the epoch's packets, no
      device step changes a byte of it, and none touches the doorbell. */
  lemma RungBufferIsStable(c: Config, acts: seq<Action>, w: nat)
    requires c.Valid() && Fits(c, acts)
    requires Exec(c, acts).s.doorbell != 0
    ensures var s, h, s' := Exec(c, acts).s, Exec(c, acts).h, Next(c, Exec(c, acts).s, Device(w));
      && |Bytes(h.epoch)| <= |s.buff| && s.buff[..|Bytes(h.epoch)|] == Bytes(h.epoch)
      && s'.buff == s.buff && s'.doorbell == s.doorbell
  {
    hide Exec, Sum, Bytes, Written;
    Invariant(c, acts);
    var s, h := Exec(c, acts).s, Exec(c, acts).h;
    DoorbellMeansSettled(c, s, h);
    ContentFits(c, Content(h), s.buff, s.warps);
    NoneCopying(c, s.warps, h.late, h.flusher);
    assert WarpOk(c, h.late, h.flusher, h.flusher.w, s.warps[h.flusher.w]);
    if w < |s.warps| {
      assert WarpOk(c, h.late, h.flusher, w, s.warps[w]);
    }
  }

  lemma RungStep(c: Config, acts: seq<Action>, w: nat)
    requires c.Valid() && Fits(c, acts) && Exec(c, acts).s.doorbell != 0
    ensures var r := Exec(c, acts);
      Next(c, r.s, Device(w)).buff == r.s.buff && Record(c, r.s, Device(w), r.h).epoch == r.h.epoch
  {
    hide Exec, Sum, Bytes, Written;
    RungBufferIsStable(c, acts, w);
    Invariant(c, acts);
    var s, h := Exec(c, acts).s, Exec(c, acts).h;
    HeadTells(c, s, h);
    DoorbellMeansSettled(c, s, h);
    assert WarpOk(c, h.late, h.flusher, h.flusher.w, s.warps[h.flusher.w]);
    if w < |s.warps| {
      BeforeStep(c, s, h, w);
      assert WarpOk(c, h.late, h.flusher, w, s.warps[w]);
    }
  }

  /** So what the host copies over several chunks is the contents at ring time:
      as long as the doorbell stays set, the buffer and the epoch do not change. */
  lemma {:induction false} StableUntilCleared(c: Config, acts: seq<Action>, more: seq<Action>)
    requires c.Valid() && Fits(c, acts + more)
    requires forall k | 0 <= k <= |more| :: Exec(c, acts + more[..k]).s.doorbell != 0
    ensures var r, r' := Exec(c, acts), Exec(c, acts + more);
      r'.s.buff == r.s.buff && r'.h.epoch == r.h.epoch
  {
    hide Exec;
    if more == [] {
      assert acts + more == acts;
    } else {
      var n := |more| - 1;
      var early, a := more[..n], more[n];
      assert acts + more == (acts + early) + [a] && more[..n + 1] == more;
      forall k | 0 <= k <= |early|
        ensures Exec(c, acts + early[..k]).s.doorbell != 0
      {
        assert early[..k] == more[..k];
      }
      forall i | 0 <= i < |acts + early|
        ensures (acts + early)[i].StartPush? ==> |(acts + early)[i].packet| <= c.Size()
      {
        assert (acts + early)[i] == (acts + more)[i];
      }
      StableUntilCleared(c, acts, early);
      ExecAppend(c, acts + early, a);
      assert Exec(c, acts + more[..n]).s.doorbell != 0;
      if a.Device? {
        RungStep(c, acts + early, a.w);
      }
    }
  }

  // ------------------------------------------------------------------------
  // Epochs.

  /** Between the tail reset and the head reset nothing is committed, written or
      reserved; whatever other warps added to the head meanwhile, the new epoch
      starts with head = tail = buff and an empty buffer. */
  lemma ResetLosesNothing(c: Config, acts: seq<Action>, w: nat, v: nat)
    requires c.Valid() && Fits(c, acts)
    requires var s := Exec(c, acts).s;
      w < |s.warps| && (s.warps[w].ResettingTail? || s.warps[w].ResettingHead?)
    ensures var s, h := Exec(c, acts).s, Exec(c, acts).h;
      && h.received == Bytes(Log(h))
      && (v < |s.warps| && v != w ==>
            var s', h' := DeviceStep(c, s, v), RecordDevice(c, s, v, h);
            s'.tail == s.tail && s'.buff == s.buff && h'.epoch == h.epoch)
      && (s.warps[w].ResettingHead? ==>
            var s', h' := DeviceStep(c, s, w), RecordDevice(c, s, w, h);
            s'.head == s'.tail == c.base && h'.epoch == [] && Log(h') == Log(h))
  {
    hide Exec, Sum, Bytes, Written;
    Invariant(c, acts);
    var s, h := Exec(c, acts).s, Exec(c, acts).h;
    BytesConcat(h.past, h.epoch);
    HeadTells(c, s, h);
    assert WarpOk(c, h.late, h.flusher, w, s.warps[w]);
    NoneCopying(c, s.warps, h.late, h.flusher);
    if v < |s.warps| && v != w {
      BeforeStep(c, s, h, v);
      assert WarpOk(c, h.late, h.flusher, v, s.warps[v]);
    }
  }

  /** Reservations lie end to end from the start of the buffer. */
  ghost predicate Tiled(c: Config, epoch: seq<Entry>) {
    forall i | 0 <= i < |epoch| :: epoch[i].at == c.base + |Bytes(epoch[..i])|
  }

  lemma TicketIsEnd(c: Config, s: State, h: History)
    requires Inv(c, s, h)
    ensures forall w | 0 <= w < |s.warps| && s.warps[w].AwaitingTail? :: s.warps[w].ticket == c.base + |Bytes(h.epoch)|
  {
    hide Sum, Bytes, Written, Delivered;
    forall w | 0 <= w < |s.warps| && s.warps[w].AwaitingTail?
      ensures s.warps[w].ticket == c.base + |Bytes(h.epoch)|
    {
      assert WarpOk(c, h.late, h.flusher, w, s.warps[w]);
    }
  }

  lemma EmptyTile(c: Config)
    ensures Tiled(c, [])
  {
  }

  lemma TileStep(c: Config, s: State, h: History, w: nat)
    requires c.Valid() && Inv(c, s, h) && Tiled(c, h.epoch) && w < |s.warps|
    ensures Tiled(c, RecordDevice(c, s, w, h).epoch)
  {
    hide Bytes, Inv;
    BeforeStep(c, s, h, w);
    HeadTells(c, s, h);
    var e' := RecordDevice(c, s, w, h).epoch;
    forall i | 0 <= i < |e'|
      ensures e'[i].at == c.base + |Bytes(e'[..i])|
    {
      if i < |h.epoch| {
        assert e'[..i] == h.epoch[..i];
      } else {
        assert e'[..i] == h.epoch;
      }
    }
  }

  lemma ContentSize(c: Config, s: State, h: History)
    requires Inv(c, s, h)
    ensures |Bytes(h.epoch)| <= c.Size()
  {
  }

  /** The reservations of an epoch tile the buffer: up to the head while there is
      room, and up to the flusher's ticket once it is full. */
  lemma {:induction false} ReservationsTile(c: Config, acts: seq<Action>)
    requires c.Valid() && Fits(c, acts)
    ensures var s, h := Exec(c, acts).s, Exec(c, acts).h;
      && Tiled(c, h.epoch)
      && |Bytes(h.epoch)| <= c.Size()
      && (s.head <= c.End() ==> s.head == c.base + |Bytes(h.epoch)|)
      && (forall w | 0 <= w < |s.warps| && s.warps[w].AwaitingTail? ::
            s.warps[w].ticket == c.base + |Bytes(h.epoch)|)
  {
    hide Bytes, Inv, Tiled, Next, RecordDevice;
    if acts == [] {
      assert Tiled(c, []) by { EmptyTile(c); }
    } else {
      var before, a := acts[..|acts| - 1], acts[|acts| - 1];
      ReservationsTile(c, before);
      Invariant(c, before);
      var s, h := Exec(c, before).s, Exec(c, before).h;
      if a.Device? && a.w < |s.warps| {
        TileStep(c, s, h, a.w);
      }
    }
    Invariant(c, acts);
    HeadTells(c, Exec(c, acts).s, Exec(c, acts).h);
    ContentSize(c, Exec(c, acts).s, Exec(c, acts).h);
    TicketIsEnd(c, Exec(c, acts).s, Exec(c, acts).h);
  }

  lemma {:induction false} BytesGrow(log: seq<Entry>, i: nat, j: nat)
    requires i < j <= |log|
    ensures |Bytes(log[..i])| + |log[i].packet| <= |Bytes(log[..j])|
  {
    var top := log[..j];
    assert top[..j - 1] == log[..j - 1];
    if i < j - 1 {
      BytesGrow(log, i, j - 1);
    }
  }

  /** Two reservations of an epoch never overlap, and none leaves the buffer. */
  lemma ReservationsDisjoint(c: Config, acts: seq<Action>, i: nat, j: nat)
    requires c.Valid() && Fits(c, acts)
    requires i < j < |Exec(c, acts).h.epoch|
    ensures var e := Exec(c, acts).h.epoch;
      c.base <= e[i].at && e[i].at + |e[i].packet| <= e[j].at && e[j].at + |e[j].packet| <= c.End()
  {
    hide Exec;
    ReservationsTile(c, acts);
    var e := Exec(c, acts).h.epoch;
    BytesGrow(e, i, j);
    BytesGrow(e, j, |e|);
    assert e[..|e|] == e;
  }

  // ------------------------------------------------------------------------
  // How far the head can go.

  predicate PacketsAtMost(acts: seq<Action>, largest: nat) {
    forall i | 0 <= i < |acts| :: acts[i].StartPush? ==> |acts[i].packet| <= largest
  }

  lemma InitialPacket(c: Config, w: nat)
    requires w < c.warps
    ensures PacketOf(Init(c).warps[w]) == []
  {
  }

  /** A warp's packet changes only when a push starts or ends. */
  lemma PacketOrigin(c: Config, s: State, a: Action, w: nat)
    requires w < |Next(c, s, a).warps|
    ensures w < |s.warps|
    ensures var p := PacketOf(Next(c, s, a).warps[w]);
      p == PacketOf(s.warps[w]) || p == [] || (a.StartPush? && p == a.packet)
  {
  }

  lemma {:induction false} WarpPacketsAtMost(c: Config, acts: seq<Action>, largest: nat, w: nat)
    requires PacketsAtMost(acts, largest) && w < |Exec(c, acts).s.warps|
    ensures |PacketOf(Exec(c, acts).s.warps[w])| <= largest
  {
    hide Next, PacketOf;
    if acts == [] {
      InitialPacket(c, w);
    } else {
      var before, a := acts[..|acts| - 1], acts[|acts| - 1];
      var s := Exec(c, before).s;
      PacketOrigin(c, s, a, w);
      if w < |s.warps| && PacketOf(Next(c, s, a).warps[w]) == PacketOf(s.warps[w]) {
        WarpPacketsAtMost(c, before, largest, w);
      }
    }
  }

  lemma HeadCounts(c: Config, s: State, h: History)
    requires Inv(c, s, h)
    ensures |s.warps| == c.warps && s.head <= c.End() + Sum(Excesses(s.warps, h.late))
  {
  }

  lemma AtMostTimes(n: nat, a: nat, b: nat)
    requires a <= b
    ensures n * a <= n * b
  {
  }

  /** The head exceeds the end of the buffer by at most one largest packet per
      warp, so the 64-bit additions never wrap around. */
  lemma HeadBound(c: Config, acts: seq<Action>, largest: nat)
    requires c.Valid() && PacketsAtMost(acts, largest) && largest <= c.Size()
    ensures Exec(c, acts).s.head <= c.End() + c.warps * largest < TWO_64
  {
    hide Exec, Sum, Inv, PacketOf;
    Invariant(c, acts);
    var s, h := Exec(c, acts).s, Exec(c, acts).h;
    var a := Excesses(s.warps, h.late);
    forall i | 0 <= i < |a|
      ensures a[i] <= largest
    {
      WarpPacketsAtMost(c, acts, largest, i);
    }
    SumAtMost(a, largest);
    HeadCounts(c, s, h);
    AtMostTimes(c.warps, largest, c.Size());
  }
}
