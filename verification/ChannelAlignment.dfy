/** Packets of one size: the receiver reads records, not bytes, so no chunk may
    split a packet. */
module ChannelAlignment {
  import opened Words
  import opened ChannelProtocol
  import opened ChannelInvariant
  import opened ChannelDelivery

  function Times(k: int, size: nat): int { k * size }

  ghost predicate Multiple(n: int, size: nat) {
    exists k :: n == Times(k, size)
  }

  lemma MultipleZero(size: nat)
    ensures Multiple(0, size)
  {
    assert Times(0, size) == 0;
  }

  lemma MultipleSum(a: int, b: int, size: nat)
    requires Multiple(a, size) && Multiple(b, size)
    ensures Multiple(a + b, size) && Multiple(a - b, size)
  {
    var j :| a == Times(j, size);
    var k :| b == Times(k, size);
    assert a + b == Times(j + k, size) && a - b == Times(j - k, size);
  }

  ghost predicate UniformAction(c: Config, a: Action, size: nat) {
    && (a.StartPush? ==> |a.packet| == size)
    && (a.StartRecv? ==> Multiple(a.max, size) || a.max >= c.Size())
  }

  /** All packets have this size, and every call of `recv` asks for whole packets
      or has room for the whole buffer. */
  ghost predicate Uniform(c: Config, acts: seq<Action>, size: nat) {
    forall i | 0 <= i < |acts| :: UniformAction(c, acts[i], size)
  }

  predicate LogUniform(log: seq<Entry>, size: nat) {
    forall i | 0 <= i < |log| :: |log[i].packet| == size
  }

  lemma {:induction false} UniformBytes(log: seq<Entry>, size: nat)
    requires LogUniform(log, size)
    ensures |Bytes(log)| == Times(|log|, size)
  {
    if log != [] {
      UniformBytes(log[..|log| - 1], size);
      assert Times(|log|, size) == Times(|log| - 1, size) + size;
    }
  }

  predicate WarpUniform(x: Warp, size: nat) {
    x.Idle? || FlushesExternally(x) || |PacketOf(x)| == size
  }

  ghost predicate HostAligned(doorbell: int, host: Host, size: nat) {
    && Multiple(doorbell, size)
    && (host.Fetching? ==> Multiple(host.nbytes, size))
    && (host.Clearing? ==> Multiple(host.left, size) && Multiple(|host.got|, size))
  }

  /** The doorbell, the chunk in hand and the received stream are whole packets. */
  ghost predicate Aligned(s: State, h: History, size: nat) {
    && (forall i | 0 <= i < |s.warps| :: WarpUniform(s.warps[i], size))
    && LogUniform(h.past, size) && LogUniform(h.epoch, size)
    && HostAligned(s.doorbell, s.host, size)
    && Multiple(|h.received|, size)
  }

  lemma RingAligned(c: Config, s: State, h: History, w: nat, size: nat)
    requires c.Valid() && Inv(c, s, h) && w < |s.warps| && s.warps[w].Ringing?
    requires LogUniform(h.epoch, size)
    ensures Multiple(Int32(s.warps[w].nbytes), size)
  {
    hide Inv, Bytes;
    BeforeStep(c, s, h, w);
    UniformBytes(h.epoch, size);
    Int32Small(s.warps[w].nbytes);
  }

  lemma AlignedWarps(c: Config, s: State, h: History, w: nat, size: nat)
    requires c.Valid() && Inv(c, s, h) && Aligned(s, h, size) && w < |s.warps|
    ensures var s' := DeviceStep(c, s, w);
      && |s'.warps| == |s.warps|
      && (forall i | 0 <= i < |s'.warps| :: WarpUniform(s'.warps[i], size))
      && HostAligned(s'.doorbell, s'.host, size)
  {
    hide Inv, Multiple, Bytes;
    BeforeStep(c, s, h, w);
    assert WarpUniform(s.warps[w], size);
    if s.warps[w].Ringing? {
      RingAligned(c, s, h, w, size);
    }
  }

  lemma AlignedLog(c: Config, s: State, h: History, w: nat, size: nat)
    requires Aligned(s, h, size) && w < |s.warps|
    ensures var h' := RecordDevice(c, s, w, h);
      LogUniform(h'.past, size) && LogUniform(h'.epoch, size) && h'.received == h.received
  {
    hide Multiple;
    assert WarpUniform(s.warps[w], size);
  }

  lemma AlignedDevice(c: Config, s: State, h: History, w: nat, size: nat)
    requires c.Valid() && Inv(c, s, h) && Aligned(s, h, size) && w < |s.warps|
    ensures Aligned(DeviceStep(c, s, w), RecordDevice(c, s, w, h), size)
  {
    hide Inv, Multiple, DeviceStep, RecordDevice, WarpUniform, LogUniform, HostAligned;
    AlignedWarps(c, s, h, w, size);
    AlignedLog(c, s, h, w, size);
  }

  lemma HostNumbers(c: Config, s: State, h: History)
    requires c.Valid() && Inv(c, s, h)
    ensures 0 <= s.doorbell <= c.Size()
    ensures s.host.Fetching? ==>
      && |s.host.got| <= s.host.nbytes <= s.host.rung == s.doorbell
      && Int32(s.host.rung - s.host.nbytes) == s.host.rung - s.host.nbytes
  {
    hide Bytes, Written, Shape;
  }

  lemma AlignedHost(c: Config, s: State, h: History, size: nat)
    requires c.Valid() && Inv(c, s, h) && Aligned(s, h, size)
    ensures Aligned(HostNext(c, s), Record(c, s, HostStep, h), size)
  {
    hide Inv, Multiple, Bytes;
    HostNumbers(c, s, h);
    if s.host.Fetching? {
      MultipleSum(s.doorbell, s.host.nbytes, size);
    } else if s.host.Clearing? {
      MultipleSum(|h.received|, |s.host.got|, size);
    }
  }

  lemma AlignedRecv(c: Config, s: State, h: History, max: nat, size: nat)
    requires c.Valid() && Inv(c, s, h) && Aligned(s, h, size) && MayRecv(s, max)
    requires Multiple(max, size) || max >= c.Size()
    ensures Aligned(Fetch(s, max), h, size)
  {
    hide Inv, Multiple, Bytes;
    HostNumbers(c, s, h);
  }

  lemma AlignedNext(c: Config, s: State, h: History, a: Action, size: nat)
    requires c.Valid() && Inv(c, s, h) && Aligned(s, h, size) && UniformAction(c, a, size)
    ensures Aligned(Next(c, s, a), Record(c, s, a, h), size)
  {
    hide Inv, Multiple, HostNext, DeviceStep, RecordDevice, Fetch;
    match a {
      case Device(w) =>
        if w < |s.warps| {
          AlignedDevice(c, s, h, w, size);
        }
      case StartRecv(max) =>
        if MayRecv(s, max) {
          AlignedRecv(c, s, h, max, size);
        }
      case HostStep =>
        AlignedHost(c, s, h, size);
      case _ =>
    }
  }

  lemma {:induction false} AlignedAlways(c: Config, acts: seq<Action>, size: nat)
    requires c.Valid() && Fits(c, acts) && Uniform(c, acts, size)
    ensures Aligned(Exec(c, acts).s, Exec(c, acts).h, size)
  {
    hide Inv, Multiple, Next, Record;
    if acts == [] {
      MultipleZero(size);
    } else {
      var before := acts[..|acts| - 1];
      AlignedAlways(c, before, size);
      Invariant(c, before);
      assert UniformAction(c, acts[|acts| - 1], size);
      AlignedNext(c, Exec(c, before).s, Exec(c, before).h, acts[|acts| - 1], size);
    }
  }

  lemma TimesNext(a: int, size: nat)
    ensures Times(a + 1, size) == Times(a, size) + size
  {
  }

  lemma {:induction false} TimesOrder(a: int, b: int, size: nat)
    ensures a < b ==> Times(a, size) + size <= Times(b, size)
    decreases b - a
  {
    hide Times;
    if a < b {
      TimesNext(b - 1, size);
      TimesOrder(a, b - 1, size);
    }
  }

  lemma WithinMultiples(k: int, n: nat, size: nat)
    requires 0 < size && 0 <= Times(k, size) <= Times(n, size)
    ensures 0 <= k <= n
  {
    TimesOrder(k, 0, size);
    TimesOrder(n, k, size);
  }

  /** With packets of one size and whole-packet chunks, every length rung in the
      doorbell and every chunk `recv` is about to return is a multiple of the
      packet size, and the stream received so far is exactly the first k packets
      in reservation order. */
  lemma ReceivedIsWholePackets(c: Config, acts: seq<Action>, size: nat)
    requires c.Valid() && Fits(c, acts) && Uniform(c, acts, size) && 0 < size
    ensures var s, h := Exec(c, acts).s, Exec(c, acts).h;
      && Multiple(s.doorbell, size)
      && (s.host.Clearing? ==> Multiple(|s.host.got|, size))
      && exists k: nat :: k <= |Log(h)| && h.received == Bytes(Log(h)[..k])
  {
    hide Exec, Inv, Bytes;
    AlignedAlways(c, acts, size);
    ReceivedIsPrefix(c, acts);
    var h := Exec(c, acts).h;
    var log := Log(h);
    var k :| |h.received| == Times(k, size);
    UniformBytes(log, size);
    assert 0 <= k <= |log| by {
      WithinMultiples(k, |log|, size);
    }
    UniformBytes(log[..k], size);
    BytesConcat(log[..k], log[k..]);
    assert log == log[..k] + log[k..];
  }
}
