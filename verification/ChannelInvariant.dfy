/** The invariant of the channel, and its proof: it holds after every run that
    keeps the contract of `push`. */
module ChannelInvariant {
  import opened Words
  import opened Sums
  import opened ChannelProtocol

  function PacketOfCaller(k: Caller): seq<byte> {
    match k
    case InPush(p) => p
    case External => []
  }

  /** The packet a warp is trying to push, if any. */
  function PacketOf(x: Warp): seq<byte> {
    match x
    case Idle => []
    case Reserving(p) => p
    case Spinning(p) => p
    case AwaitingTail(p, _) => p
    case Copying(p, _, _) => p
    case ReadingLength(k) => PacketOfCaller(k)
    case Ringing(k, _) => PacketOfCaller(k)
    case AwaitingHost(k) => PacketOfCaller(k)
    case ResettingTail(k) => PacketOfCaller(k)
    case ResettingHead(k) => PacketOfCaller(k)
  }

  /** Bytes reserved by a warp and not yet committed. */
  function InFlight(x: Warp): nat {
    if x.Copying? then |x.packet| else 0
  }

  function InFlights(ws: seq<Warp>): seq<nat> {
    seq(|ws|, i requires 0 <= i < |ws| => InFlight(ws[i]))
  }

  /** What a warp added to the head beyond the end of the buffer. */
  function Excess(x: Warp, isLate: bool): nat {
    if isLate then |PacketOf(x)| else 0
  }

  function Excesses(ws: seq<Warp>, late: set<nat>): seq<nat> {
    seq(|ws|, i requires 0 <= i < |ws| => Excess(ws[i], i in late))
  }

  /** The packets of this epoch end to end: what the buffer is to hold. */
  function Content(h: History): seq<byte> { Bytes(h.epoch) }

  /** The program counter of the flusher, or Idle. */
  function Stage(ws: seq<Warp>, f: Flusher): Warp {
    if f.Nobody? || f.w >= |ws| then Idle else ws[f.w]
  }

  // ------------------------------------------------------------------------
  // Who may be where.

  predicate PacketFits(c: Config, x: Warp) {
    && |PacketOf(x)| <= c.Size()
    && (!x.Idle? && !FlushesExternally(x) ==> 0 < |PacketOf(x)|)
  }

  /** Warp i is at x: only the flusher is in `flush`, everybody else is outside
      `push` during a client flush, and a late warp spins or flushes. */
  predicate WarpOk(c: Config, late: set<nat>, f: Flusher, i: nat, x: Warp) {
    && PacketFits(c, x)
    && (match f
        case Nobody => !IsFlusher(x)
        case Pushing(w) => if i == w then IsFlusher(x) && !FlushesExternally(x) else !IsFlusher(x)
        case Client(w) => if i == w then FlushesExternally(x) else x.Idle?)
    && (i in late ==> x.Spinning? || IsFlusher(x))
  }

  /** Warps are late only while one of them flushes from inside `push`. */
  predicate LateOk(c: Config, late: set<nat>, f: Flusher) {
    && (forall i | i in late :: i < c.warps)
    && (f.Pushing? ==> f.w in late)
    && (!f.Pushing? ==> late == {})
    && (f.Client? ==> f.w < c.warps)
  }

  ghost predicate Shape(c: Config, ws: seq<Warp>, late: set<nat>, f: Flusher) {
    && |ws| == c.warps
    && LateOk(c, late, f)
    && forall i | 0 <= i < |ws| :: WarpOk(c, late, f, i, ws[i])
  }

  // ------------------------------------------------------------------------
  // What the head and the tail count.

  /** Between the ring and the head reset the host has been offered the content. */
  predicate Offered(x: Warp) {
    x.AwaitingHost? || x.ResettingTail? || x.ResettingHead?
  }

  /** With n bytes reserved in this epoch and the flusher at x: the head counts
      reservations and overflows, the tail counts commits. */
  predicate Counts(c: Config, head: nat, tail: nat, n: nat, x: Warp, excess: nat, inFlight: nat) {
    && n <= c.Size()
    && head == c.base + n + excess
    && (if x.ResettingHead? then tail == c.base else tail + inFlight == c.base + n)
    && (IsFlusher(x) && !x.AwaitingTail? ==> inFlight == 0)
    && (IsFlusher(x) && !FlushesExternally(x) ==> n + |PacketOf(x)| > c.Size())
    && (x.AwaitingTail? ==> x.ticket == c.base + n)
    && (x.Ringing? ==> x.nbytes == n > 0)
    && (Offered(x) ==> n > 0)
  }

  // ------------------------------------------------------------------------
  // What the buffer holds.

  predicate OwnsStretch(c: Config, content: seq<byte>, x: Warp) {
    x.Copying? ==>
      && c.base <= x.at
      && x.at - c.base + |x.packet| <= |content|
      && x.done <= |x.packet|
      && content[x.at - c.base..x.at - c.base + |x.packet|] == x.packet
  }

  predicate Disjoint(x: Warp, y: Warp) {
    x.Copying? && y.Copying? ==> x.at + |x.packet| <= y.at || y.at + |y.packet| <= x.at
  }

  /** Byte b of the buffer is reserved by x and not yet copied. */
  predicate Unwritten(c: Config, x: Warp, b: int) {
    x.Copying? && x.at - c.base + x.done <= b < x.at - c.base + |x.packet|
  }

  predicate Settled(c: Config, ws: seq<Warp>, b: int) {
    forall i | 0 <= i < |ws| :: !Unwritten(c, ws[i], b)
  }

  /** Every copying warp owns its own stretch of the content, and whatever no
      warp still has to write is written. */
  ghost predicate Written(c: Config, content: seq<byte>, buff: seq<byte>, ws: seq<Warp>) {
    && |content| <= |buff| == c.Size()
    && (forall i | 0 <= i < |ws| :: OwnsStretch(c, content, ws[i]))
    && (forall i, j | 0 <= i < |ws| && 0 <= j < |ws| && i != j :: Disjoint(ws[i], ws[j]))
    && (forall b | 0 <= b < |content| :: Settled(c, ws, b) ==> buff[b] == content[b])
  }

  // ------------------------------------------------------------------------
  // How far the host is.

  /** What `recv` has returned, given the bytes of earlier epochs, and what it holds. */
  ghost predicate Delivered(c: Config, before: seq<byte>, content: seq<byte>, received: seq<byte>,
                            x: Warp, doorbell: int, readHead: nat, host: Host) {
    var n := |content|;
    && 0 <= doorbell <= n
    && (!x.AwaitingHost? ==> doorbell == 0)
    && received == before + (if Offered(x) then content[..n - doorbell] else [])
    && match host
       case Resting =>
         readHead == if doorbell == 0 then c.base else c.base + n - doorbell
       case Fetching(rung, nbytes, got) =>
         && 0 < rung == doorbell
         && |got| <= nbytes <= rung && 0 < nbytes
         && readHead == c.base + n - rung
         && got == content[n - rung..n - rung + |got|]
       case Clearing(left, got) =>
         && 0 <= left < doorbell
         && readHead == (if left == 0 then c.base else c.base + n - left)
         && got == content[n - doorbell..n - left]
  }

  ghost predicate Inv(c: Config, s: State, h: History) {
    var x := Stage(s.warps, h.flusher);
    && Shape(c, s.warps, h.late, h.flusher)
    && Counts(c, s.head, s.tail, |Content(h)|, x, Sum(Excesses(s.warps, h.late)), Sum(InFlights(s.warps)))
    && Written(c, Content(h), s.buff, s.warps)
    && Delivered(c, Bytes(h.past), Content(h), h.received, x, s.doorbell, s.readHead, s.host)
  }

  // ------------------------------------------------------------------------
  // When one warp moves.

  lemma SumsMove(ws: seq<Warp>, late: set<nat>, w: nat, y: Warp, late': set<nat>)
    requires w < |ws| && late - {w} == late' - {w}
    ensures Sum(InFlights(ws[w := y])) + InFlight(ws[w]) == Sum(InFlights(ws)) + InFlight(y)
    ensures Sum(Excesses(ws[w := y], late')) + Excess(ws[w], w in late)
         == Sum(Excesses(ws, late)) + Excess(y, w in late')
  {
    SumChange(InFlights(ws), InFlights(ws[w := y]), w);
    var a, b := Excesses(ws, late), Excesses(ws[w := y], late');
    forall i | 0 <= i < |a| && i != w
      ensures a[i] == b[i]
    {
      assert i in late <==> i in late - {w};
      assert i in late' <==> i in late' - {w};
    }
    SumChange(a, b, w);
  }

  lemma NoExcess(ws: seq<Warp>)
    ensures Sum(Excesses(ws, {})) == 0
  {
    SumZero(Excesses(ws, {}));
  }

  /** A move between places where nothing is being copied. */
  lemma WrittenMoves(c: Config, content: seq<byte>, buff: seq<byte>, ws: seq<Warp>, w: nat, y: Warp)
    requires Written(c, content, buff, ws) && w < |ws|
    requires !y.Copying?
    requires ws[w].Copying? ==> ws[w].done >= |ws[w].packet|
    ensures Written(c, content, buff, ws[w := y])
  {
    var ws' := ws[w := y];
    forall b | 0 <= b < |content| && Settled(c, ws', b)
      ensures buff[b] == content[b]
    {
      forall i | 0 <= i < |ws|
        ensures !Unwritten(c, ws[i], b)
      {
        if i != w {
          assert ws'[i] == ws[i];
        }
      }
      assert Settled(c, ws, b);
    }
  }

  /** A warp that reserves the bytes at the end of the content. */
  lemma WrittenGrows(c: Config, content: seq<byte>, buff: seq<byte>, ws: seq<Warp>, w: nat, p: seq<byte>)
    requires Written(c, content, buff, ws) && w < |ws| && !ws[w].Copying?
    requires |content| + |p| <= c.Size()
    ensures Written(c, content + p, buff, ws[w := Copying(p, c.base + |content|, 0)])
  {
    var content', ws' := content + p, ws[w := Copying(p, c.base + |content|, 0)];
    forall i | 0 <= i < |ws'|
      ensures OwnsStretch(c, content', ws'[i])
    {
      if i != w {
        assert OwnsStretch(c, content, ws[i]);
      }
    }
    forall i, j | 0 <= i < |ws'| && 0 <= j < |ws'| && i != j
      ensures Disjoint(ws'[i], ws'[j])
    {
      assert Disjoint(ws[i], ws[j]) && OwnsStretch(c, content, ws[i]) && OwnsStretch(c, content, ws[j]);
    }
    forall b | 0 <= b < |content'| && Settled(c, ws', b)
      ensures buff[b] == content'[b]
    {
      assert !Unwritten(c, ws'[w], b);
      forall i | 0 <= i < |ws|
        ensures !Unwritten(c, ws[i], b)
      {
        if i != w {
          assert ws'[i] == ws[i];
        }
      }
      assert Settled(c, ws, b);
    }
  }

  /** A warp that copies one more byte into its stretch. */
  lemma WrittenCopies(c: Config, content: seq<byte>, buff: seq<byte>, ws: seq<Warp>, w: nat)
    requires Written(c, content, buff, ws) && w < |ws|
    requires ws[w].Copying? && ws[w].done < |ws[w].packet|
    ensures var x := ws[w];
      Written(c, content, Store(buff, x.at - c.base + x.done, x.packet[x.done]), ws[w := x.(done := x.done + 1)])
  {
    var x := ws[w];
    var k := x.at - c.base + x.done;
    var ws' := ws[w := x.(done := x.done + 1)];
    assert OwnsStretch(c, content, x);
    assert content[k] == content[x.at - c.base..x.at - c.base + |x.packet|][x.done];
    forall i, j | 0 <= i < |ws'| && 0 <= j < |ws'| && i != j
      ensures Disjoint(ws'[i], ws'[j])
    {
      assert Disjoint(ws[i], ws[j]);
    }
    forall b | 0 <= b < |content| && Settled(c, ws', b) && b != k
      ensures buff[b] == content[b]
    {
      forall i | 0 <= i < |ws|
        ensures !Unwritten(c, ws[i], b)
      {
        assert !Unwritten(c, ws'[i], b);
      }
      assert Settled(c, ws, b);
    }
  }

  /** Nothing is claimed of the buffer in a new epoch. */
  lemma WrittenAfresh(c: Config, content: seq<byte>, buff: seq<byte>, ws: seq<Warp>, w: nat, y: Warp)
    requires Written(c, content, buff, ws) && w < |ws| && !y.Copying?
    requires forall i | 0 <= i < |ws| :: !ws[i].Copying?
    ensures Written(c, [], buff, ws[w := y])
  {
  }

  /** With nothing in flight the buffer holds the content. */
  lemma NothingInFlight(c: Config, content: seq<byte>, buff: seq<byte>, ws: seq<Warp>)
    requires Written(c, content, buff, ws) && Sum(InFlights(ws)) == 0
    ensures buff[..|content|] == content
  {
    forall b | 0 <= b < |content|
      ensures buff[b] == content[b]
    {
      forall i | 0 <= i < |ws|
        ensures !Unwritten(c, ws[i], b)
      {
        SumAtLeast(InFlights(ws), i);
      }
      assert Settled(c, ws, b);
    }
  }

  lemma BytesAppend(log: seq<Entry>, e: Entry)
    ensures Bytes(log + [e]) == Bytes(log) + e.packet
  {
    assert (log + [e])[..|log|] == log;
  }

  lemma {:induction false} BytesConcat(a: seq<Entry>, b: seq<Entry>)
    ensures Bytes(a + b) == Bytes(a) + Bytes(b)
  {
    if b == [] {
      assert a + b == a;
    } else {
      var b', e := b[..|b| - 1], b[|b| - 1];
      assert a + b == (a + b') + [e];
      BytesConcat(a, b');
      BytesAppend(a + b', e);
      assert Bytes(a) + Bytes(b') + e.packet == Bytes(a) + (Bytes(b') + e.packet);
    }
  }

  // ------------------------------------------------------------------------
  // The head stays in the address space.

  /** The head exceeds the end of the buffer by at most one buffer length for
      every late warp, so adding one more packet cannot wrap around. */
  lemma HeadRoom(c: Config, s: State, h: History, w: nat)
    requires c.Valid() && Inv(c, s, h) && w < |s.warps| && s.warps[w].Reserving?
    ensures s.head + |s.warps[w].packet| < TWO_64
  {
    var a := Excesses(s.warps, h.late);
    var b := a[w := |s.warps[w].packet|];
    assert WarpOk(c, h.late, h.flusher, w, s.warps[w]);
    SumChange(a, b, w);
    forall i | 0 <= i < |b|
      ensures b[i] <= c.Size()
    {
      assert WarpOk(c, h.late, h.flusher, i, s.warps[i]);
    }
    SumAtMost(b, c.Size());
  }

  /** With somebody late the head is beyond the end; with nobody late it counts
      the content. */
  lemma HeadTells(c: Config, s: State, h: History)
    requires Inv(c, s, h)
    ensures h.flusher.Pushing? ==> s.head > c.End()
    ensures !h.flusher.Pushing? ==> s.head == c.base + |Content(h)| <= c.End()
  {
    if h.flusher.Pushing? {
      assert WarpOk(c, h.late, h.flusher, h.flusher.w, s.warps[h.flusher.w]);
      SumAtLeast(Excesses(s.warps, h.late), h.flusher.w);
    } else {
      NoExcess(s.warps);
    }
  }

  // ------------------------------------------------------------------------
  // What a device step does to each part of the invariant.

  lemma ShapeMoves(c: Config, ws: seq<Warp>, late: set<nat>, f: Flusher, w: nat, y: Warp, late': set<nat>, f': Flusher)
    requires Shape(c, ws, late, f) && w < |ws|
    requires LateOk(c, late', f') && WarpOk(c, late', f', w, y)
    requires forall i | 0 <= i < |ws| && i != w :: WarpOk(c, late, f, i, ws[i]) ==> WarpOk(c, late', f', i, ws[i])
    ensures Shape(c, ws[w := y], late', f')
  {
  }

  lemma DeviceShape(c: Config, s: State, h: History, w: nat)
    requires Shape(c, s.warps, h.late, h.flusher) && w < |s.warps|
    requires s.warps[w].Reserving? ==> s.head + |s.warps[w].packet| < TWO_64
    requires h.flusher.Pushing? <==> s.head > c.End()
    requires s.warps[w].ReadingLength? && Uint32(s.tail - c.base) == 0 ==> s.warps[w].caller.External?
    ensures var s', h' := DeviceStep(c, s, w), RecordDevice(c, s, w, h);
      Shape(c, s'.warps, h'.late, h'.flusher)
  {
    var h', y := RecordDevice(c, s, w, h), DeviceStep(c, s, w).warps[w];
    assert WarpOk(c, h.late, h.flusher, w, s.warps[w]);
    ShapeMoves(c, s.warps, h.late, h.flusher, w, y, h'.late, h'.flusher);
  }

  /** The flusher's place after a device step by w. */
  lemma DeviceStage(c: Config, s: State, h: History, w: nat)
    requires Shape(c, s.warps, h.late, h.flusher) && w < |s.warps|
    ensures IsFlusher(s.warps[w]) ==> Stage(s.warps, h.flusher) == s.warps[w]
    ensures var s', h' := DeviceStep(c, s, w), RecordDevice(c, s, w, h);
      var x', y := Stage(s'.warps, h'.flusher), s'.warps[w];
      x' == if IsFlusher(y) then y
            else if IsFlusher(s.warps[w]) then Idle
            else Stage(s.warps, h.flusher)
  {
    assert WarpOk(c, h.late, h.flusher, w, s.warps[w]);
  }

  /** Content after a device step: a successful reservation appends its packet,
      the head reset moves everything to the past. */
  lemma DeviceContent(c: Config, s: State, h: History, w: nat)
    requires w < |s.warps|
    ensures var h', x, y := RecordDevice(c, s, w, h), s.warps[w], DeviceStep(c, s, w).warps[w];
      && Content(h') == (if x.Reserving? && y.Copying? then Content(h) + x.packet
                         else if x.ResettingHead? then [] else Content(h))
      && Bytes(h'.past) == (if x.ResettingHead? then Bytes(h.past) + Content(h) else Bytes(h.past))
      && h'.received == h.received
  {
    var x, y := s.warps[w], DeviceStep(c, s, w).warps[w];
    if x.Reserving? && y.Copying? {
      BytesAppend(h.epoch, Entry(w, x.packet, y.at));
    } else if x.ResettingHead? {
      BytesConcat(h.past, h.epoch);
    }
  }

  /** The counts after a step of a warp that is not flushing, with the flusher
      at x and then at x'. */
  lemma PusherCounts(c: Config, s: State, w: nat, n: nat, x: Warp, excess: nat, inFlight: nat,
                     n': nat, x': Warp, excess': nat, inFlight': nat)
    requires c.Valid() && w < |s.warps| && !IsFlusher(s.warps[w])
    requires Counts(c, s.head, s.tail, n, x, excess, inFlight)
    requires var o, y := s.warps[w], DeviceStep(c, s, w).warps[w];
      && PacketFits(c, o)
      && (o.Reserving? ==> s.head + |o.packet| < TWO_64)
      && x' == (if IsFlusher(y) then y else x)
      && (s.head <= c.End() <==> !IsFlusher(x) || FlushesExternally(x))
      && (s.head <= c.End() ==> excess == 0)
      && (FlushesExternally(x) ==> o.Idle?)
      && n' == (if o.Reserving? && y.Copying? then n + |o.packet| else n)
      && inFlight' + InFlight(o) == inFlight + InFlight(y)
      && inFlight >= InFlight(o)
      && excess' == excess + if o.Reserving? && !y.Copying? then |o.packet| else 0
    ensures var s' := DeviceStep(c, s, w); Counts(c, s'.head, s'.tail, n', x', excess', inFlight')
  {
    hide Uint64, Uint32, Int32;
    var o := s.warps[w];
    if o.Reserving? {
      Uint64Small(s.head + |o.packet|);
    } else if o.Copying? {
      Uint64Small(s.tail + |o.packet|);
    }
  }

  /** The counts after a step of the flusher from x to x'. */
  lemma FlusherCounts(c: Config, s: State, w: nat, n: nat, x: Warp, excess: nat, inFlight: nat,
                      x': Warp, excess': nat)
    requires c.Valid() && w < |s.warps| && x == s.warps[w] && IsFlusher(x)
    requires Counts(c, s.head, s.tail, n, x, excess, inFlight)
    requires var y := DeviceStep(c, s, w).warps[w];
      && |PacketOf(x)| <= c.Size()
      && x' == (if IsFlusher(y) then y else Idle)
      && (x.ResettingHead? ==> excess' == 0)
      && (!x.ResettingHead? ==> excess' == excess)
    ensures var s' := DeviceStep(c, s, w);
      Counts(c, s'.head, s'.tail, if x.ResettingHead? then 0 else n, x', excess', inFlight)
  {
  }

  /** A warp that is not flushing does not touch the host's progress; a new
      reservation happens only while the host has nothing to drain. */
  lemma PusherDelivered(c: Config, before: seq<byte>, content: seq<byte>, received: seq<byte>, x: Warp,
                        doorbell: int, readHead: nat, host: Host, content': seq<byte>, x': Warp)
    requires Delivered(c, before, content, received, x, doorbell, readHead, host)
    requires x' == x || (!IsFlusher(x) && x'.AwaitingTail?)
    requires content' == content || (!Offered(x) && |content| <= |content'|)
    ensures Delivered(c, before, content', received, x', doorbell, readHead, host)
  {
  }

  /** The ring offers the content; the head reset puts it behind. */
  lemma FlusherDelivered(c: Config, s: State, w: nat, before: seq<byte>, content: seq<byte>, received: seq<byte>,
                         x: Warp, x': Warp)
    requires w < |s.warps| && x == s.warps[w] && IsFlusher(x)
    requires Delivered(c, before, content, received, x, s.doorbell, s.readHead, s.host)
    requires |content| <= c.Size() < TWO_31
    requires x.Ringing? ==> x.nbytes == |content| > 0
    requires var y := DeviceStep(c, s, w).warps[w];
      x' == if IsFlusher(y) then y else Idle
    ensures var s' := DeviceStep(c, s, w);
      if x.ResettingHead? then Delivered(c, before + content, [], received, x', s'.doorbell, s'.readHead, s'.host)
      else Delivered(c, before, content, received, x', s'.doorbell, s'.readHead, s'.host)
  {
    assert content[..0] == [] && content[..|content|] == content;
  }

  lemma DeviceWritten(c: Config, s: State, w: nat, content: seq<byte>, content': seq<byte>)
    requires w < |s.warps| && Written(c, content, s.buff, s.warps)
    requires var o, y := s.warps[w], DeviceStep(c, s, w).warps[w];
      && (o.Reserving? && y.Copying? ==> s.head == c.base + |content| && |content| + |o.packet| <= c.Size())
      && content' == (if o.Reserving? && y.Copying? then content + o.packet
                      else if o.ResettingHead? then [] else content)
    requires s.warps[w].ResettingHead? ==> forall i | 0 <= i < |s.warps| :: !s.warps[i].Copying?
    ensures var s' := DeviceStep(c, s, w); Written(c, content', s'.buff, s'.warps)
  {
    hide Written;
    var o, y := s.warps[w], DeviceStep(c, s, w).warps[w];
    if o.ResettingHead? {
      WrittenAfresh(c, content, s.buff, s.warps, w, y);
    } else if o.Reserving? && y.Copying? {
      WrittenGrows(c, content, s.buff, s.warps, w, o.packet);
    } else if o.Copying? && o.done < |o.packet| {
      WrittenCopies(c, content, s.buff, s.warps, w);
    } else {
      WrittenMoves(c, content, s.buff, s.warps, w, y);
    }
  }

  lemma NoneCopying(c: Config, ws: seq<Warp>, late: set<nat>, f: Flusher)
    requires Shape(c, ws, late, f) && Sum(InFlights(ws)) == 0
    ensures forall i | 0 <= i < |ws| :: !ws[i].Copying?
  {
    forall i | 0 <= i < |ws|
      ensures !ws[i].Copying?
    {
      assert WarpOk(c, late, f, i, ws[i]);
      SumAtLeast(InFlights(ws), i);
    }
  }

  /** What the invariant says of warp w before its step. */
  lemma BeforeStep(c: Config, s: State, h: History, w: nat)
    requires c.Valid() && Inv(c, s, h) && w < |s.warps|
    ensures var o, x := s.warps[w], Stage(s.warps, h.flusher);
      && PacketFits(c, o)
      && (o.Reserving? ==> s.head + |o.packet| < TWO_64)
      && (IsFlusher(o) ==> x == o)
      && (h.flusher.Pushing? <==> IsFlusher(x) && !FlushesExternally(x))
      && (FlushesExternally(x) && !IsFlusher(o) ==> o.Idle?)
      && InFlight(o) <= Sum(InFlights(s.warps))
      && (o.ReadingLength? && Uint32(s.tail - c.base) == 0 ==> o.caller.External? && h.late == {})
      && (o.ResettingHead? ==> forall i | 0 <= i < |s.warps| :: !s.warps[i].Copying?)
      && (o.Ringing? ==> o.nbytes == |Content(h)| > 0)
      && (w in h.late ==> IsFlusher(o) || (o.Spinning? && s.head > c.End()))
      && (IsFlusher(o) && !FlushesExternally(o) ==> w in h.late)
      && |Content(h)| <= c.Size()
      && (s.head <= c.End() ==> Sum(Excesses(s.warps, h.late)) == 0)
  {
    hide Sum, Bytes, Written, Delivered;
    var o := s.warps[w];
    assert WarpOk(c, h.late, h.flusher, w, o);
    if !h.flusher.Nobody? {
      assert WarpOk(c, h.late, h.flusher, h.flusher.w, s.warps[h.flusher.w]);
    }
    SumAtLeast(InFlights(s.warps), w);
    HeadTells(c, s, h);
    if o.Reserving? {
      HeadRoom(c, s, h, w);
    }
    if o.ResettingHead? {
      NoneCopying(c, s.warps, h.late, h.flusher);
    }
  }

  /** The sums after a device step of warp w. */
  lemma SumsAfter(c: Config, s: State, h: History, w: nat)
    requires c.Valid() && Inv(c, s, h) && w < |s.warps|
    ensures var s', h', o := DeviceStep(c, s, w), RecordDevice(c, s, w, h), s.warps[w];
      && Sum(InFlights(s'.warps)) + InFlight(o) == Sum(InFlights(s.warps)) + InFlight(s'.warps[w])
      && Sum(Excesses(s'.warps, h'.late)) ==
           (if o.ResettingHead? then 0
            else Sum(Excesses(s.warps, h.late)) + if o.Reserving? && !s'.warps[w].Copying? then |o.packet| else 0)
  {
    hide Sum, Bytes, Written, Delivered, Shape, Counts, Stage, Content, Excesses, InFlights;
    BeforeStep(c, s, h, w);
    var s', h' := DeviceStep(c, s, w), RecordDevice(c, s, w, h);
    assert s'.warps == s.warps[w := s'.warps[w]];
    if s.warps[w].ResettingHead? {
      SumsMove(s.warps, h.late, w, s'.warps[w], h.late);
      NoExcess(s'.warps);
    } else {
      SumsMove(s.warps, h.late, w, s'.warps[w], h'.late);
    }
  }

  lemma DeviceKeepsShape(c: Config, s: State, h: History, w: nat)
    requires c.Valid() && Inv(c, s, h) && w < |s.warps|
    ensures var s', h' := DeviceStep(c, s, w), RecordDevice(c, s, w, h);
      Shape(c, s'.warps, h'.late, h'.flusher)
  {
    hide Sum, Bytes, Written, Delivered, Shape, Counts;
    BeforeStep(c, s, h, w);
    HeadTells(c, s, h);
    DeviceShape(c, s, h, w);
  }

  lemma PusherKeepsCounts(c: Config, s: State, h: History, w: nat)
    requires c.Valid() && Inv(c, s, h) && w < |s.warps| && !IsFlusher(s.warps[w])
    ensures var s', h' := DeviceStep(c, s, w), RecordDevice(c, s, w, h);
      Counts(c, s'.head, s'.tail, |Content(h')|, Stage(s'.warps, h'.flusher),
             Sum(Excesses(s'.warps, h'.late)), Sum(InFlights(s'.warps)))
  {
    hide Sum, Bytes, Written, Delivered, Shape, Counts, Stage, Content, Excesses, InFlights;
    var s', h' := DeviceStep(c, s, w), RecordDevice(c, s, w, h);
    BeforeStep(c, s, h, w);
    HeadTells(c, s, h);
    SumsAfter(c, s, h, w);
    DeviceStage(c, s, h, w);
    DeviceContent(c, s, h, w);
    PusherCounts(c, s, w, |Content(h)|, Stage(s.warps, h.flusher),
                 Sum(Excesses(s.warps, h.late)), Sum(InFlights(s.warps)),
                 |Content(h')|, Stage(s'.warps, h'.flusher),
                 Sum(Excesses(s'.warps, h'.late)), Sum(InFlights(s'.warps)));
  }

  lemma FlusherKeepsCounts(c: Config, s: State, h: History, w: nat)
    requires c.Valid() && Inv(c, s, h) && w < |s.warps| && IsFlusher(s.warps[w])
    ensures var s', h' := DeviceStep(c, s, w), RecordDevice(c, s, w, h);
      Counts(c, s'.head, s'.tail, |Content(h')|, Stage(s'.warps, h'.flusher),
             Sum(Excesses(s'.warps, h'.late)), Sum(InFlights(s'.warps)))
  {
    hide Sum, Bytes, Written, Delivered, Shape, Counts, Stage, Content, Excesses, InFlights;
    var s', h' := DeviceStep(c, s, w), RecordDevice(c, s, w, h);
    BeforeStep(c, s, h, w);
    SumsAfter(c, s, h, w);
    DeviceStage(c, s, h, w);
    DeviceContent(c, s, h, w);
    FlusherCounts(c, s, w, |Content(h)|, Stage(s.warps, h.flusher),
                  Sum(Excesses(s.warps, h.late)), Sum(InFlights(s.warps)),
                  Stage(s'.warps, h'.flusher), Sum(Excesses(s'.warps, h'.late)));
  }

  lemma DeviceKeepsWritten(c: Config, s: State, h: History, w: nat)
    requires c.Valid() && Inv(c, s, h) && w < |s.warps|
    ensures var s', h' := DeviceStep(c, s, w), RecordDevice(c, s, w, h);
      Written(c, Content(h'), s'.buff, s'.warps)
  {
    hide Sum, Bytes, Written, Delivered, Shape, Counts;
    BeforeStep(c, s, h, w);
    HeadTells(c, s, h);
    DeviceContent(c, s, h, w);
    DeviceWritten(c, s, w, Content(h), Content(RecordDevice(c, s, w, h)));
  }

  lemma PusherKeepsDelivered(c: Config, s: State, h: History, w: nat)
    requires c.Valid() && Inv(c, s, h) && w < |s.warps| && !IsFlusher(s.warps[w])
    ensures var s', h' := DeviceStep(c, s, w), RecordDevice(c, s, w, h);
      Delivered(c, Bytes(h'.past), Content(h'), h'.received, Stage(s'.warps, h'.flusher),
                s'.doorbell, s'.readHead, s'.host)
  {
    hide Sum, Bytes, Written, Delivered, Shape, Counts, Stage, Content, Excesses, InFlights;
    var s', h' := DeviceStep(c, s, w), RecordDevice(c, s, w, h);
    BeforeStep(c, s, h, w);
    HeadTells(c, s, h);
    DeviceStage(c, s, h, w);
    DeviceContent(c, s, h, w);
    PusherDelivered(c, Bytes(h.past), Content(h), h.received, Stage(s.warps, h.flusher), s.doorbell, s.readHead, s.host,
                    Content(h'), Stage(s'.warps, h'.flusher));
  }

  lemma FlusherKeepsDelivered(c: Config, s: State, h: History, w: nat)
    requires c.Valid() && Inv(c, s, h) && w < |s.warps| && IsFlusher(s.warps[w])
    ensures var s', h' := DeviceStep(c, s, w), RecordDevice(c, s, w, h);
      Delivered(c, Bytes(h'.past), Content(h'), h'.received, Stage(s'.warps, h'.flusher),
                s'.doorbell, s'.readHead, s'.host)
  {
    hide Sum, Bytes, Written, Delivered, Shape, Counts, Stage, Content, Excesses, InFlights;
    var s', h' := DeviceStep(c, s, w), RecordDevice(c, s, w, h);
    BeforeStep(c, s, h, w);
    HeadTells(c, s, h);
    DeviceStage(c, s, h, w);
    DeviceContent(c, s, h, w);
    FlusherDelivered(c, s, w, Bytes(h.past), Content(h), h.received,
                     Stage(s.warps, h.flusher), Stage(s'.warps, h'.flusher));
  }

  lemma DeviceKeeps(c: Config, s: State, h: History, w: nat)
    requires c.Valid() && Inv(c, s, h) && w < |s.warps|
    ensures Inv(c, DeviceStep(c, s, w), RecordDevice(c, s, w, h))
  {
    hide Sum, Bytes, Written, Delivered, Shape, Counts, DeviceStep, RecordDevice;
    DeviceKeepsShape(c, s, h, w);
    DeviceKeepsWritten(c, s, h, w);
    if IsFlusher(s.warps[w]) {
      FlusherKeepsCounts(c, s, h, w);
      FlusherKeepsDelivered(c, s, h, w);
    } else {
      PusherKeepsCounts(c, s, h, w);
      PusherKeepsDelivered(c, s, h, w);
    }
  }

  // ------------------------------------------------------------------------
  // Calls of `push` and `flush`, and the host.

  lemma InitInv(c: Config)
    requires c.Valid()
    ensures Inv(c, Init(c), EMPTY_HISTORY)
  {
    SumZero(InFlights(Init(c).warps));
    NoExcess(Init(c).warps);
  }

  lemma StartPushKeeps(c: Config, s: State, h: History, w: nat, p: seq<byte>)
    requires c.Valid() && Inv(c, s, h) && |p| <= c.Size()
    requires MayPush(s, w, p)
    ensures Inv(c, Goto(s, w, Reserving(p)), h)
  {
    hide Sum, Bytes, Written, Delivered;
    assert WarpOk(c, h.late, h.flusher, w, s.warps[w]);
    if !h.flusher.Nobody? {
      assert WarpOk(c, h.late, h.flusher, h.flusher.w, s.warps[h.flusher.w]);
    }
    SumsMove(s.warps, h.late, w, Reserving(p), h.late);
    WrittenMoves(c, Content(h), s.buff, s.warps, w, Reserving(p));
  }

  lemma StartFlushKeeps(c: Config, s: State, h: History, w: nat)
    requires c.Valid() && Inv(c, s, h)
    requires MayFlush(s, w)
    ensures Inv(c, Goto(s, w, ReadingLength(External)), h.(flusher := Client(w)))
  {
    hide Sum, Bytes, Written;
    assert h.flusher.Nobody?;
    assert WarpOk(c, h.late, h.flusher, w, s.warps[w]);
    SumsMove(s.warps, h.late, w, ReadingLength(External), h.late);
    SumZero(InFlights(s.warps));
    WrittenMoves(c, Content(h), s.buff, s.warps, w, ReadingLength(External));
  }

  lemma FetchDelivers(c: Config, s: State, max: nat, before: seq<byte>, content: seq<byte>, received: seq<byte>,
                      x: Warp)
    requires MayRecv(s, max) && |content| < TWO_31
    requires Delivered(c, before, content, received, x, s.doorbell, s.readHead, s.host)
    ensures var s' := Fetch(s, max);
      Delivered(c, before, content, received, x, s'.doorbell, s'.readHead, s'.host)
  {
  }

  /** The host copies from a buffer that holds the content while the doorbell is set. */
  lemma CopyDelivers(c: Config, buff: seq<byte>, before: seq<byte>, content: seq<byte>, received: seq<byte>, x: Warp,
                     doorbell: int, readHead: nat, host: Host)
    requires |content| <= |buff| && host.Fetching? && |host.got| < host.nbytes
    requires buff[..|content|] == content
    requires Delivered(c, before, content, received, x, doorbell, readHead, host)
    ensures var b := Load(buff, readHead - c.base + |host.got|);
      Delivered(c, before, content, received, x, doorbell, readHead, Fetching(host.rung, host.nbytes, host.got + [b]))
  {
    var from, k := |content| - host.rung, |host.got|;
    assert buff[from + k] == buff[..|content|][from + k];
    assert content[from..from + k + 1] == content[from..from + k] + [content[from + k]];
  }

  /** Once the chunk is copied the read head moves past it, or back to the start. */
  lemma MoveDelivers(c: Config, s: State, before: seq<byte>, content: seq<byte>, received: seq<byte>, x: Warp)
    requires c.Valid() && |content| <= c.Size()
    requires s.host.Fetching? && |s.host.got| >= s.host.nbytes
    requires Delivered(c, before, content, received, x, s.doorbell, s.readHead, s.host)
    ensures var s' := HostNext(c, s);
      Delivered(c, before, content, received, x, s'.doorbell, s'.readHead, s'.host)
  {
    hide Int32, Uint64;
    var left := s.host.rung - s.host.nbytes;
    assert Int32(left) == left && (left > 0 ==> Uint64(s.readHead + s.host.nbytes) == s.readHead + s.host.nbytes) by {
      Int32Small(left);
      Uint64Small(s.readHead + s.host.nbytes);
    }
  }

  /** Writing the doorbell hands over the chunk. */
  lemma ClearDelivers(c: Config, before: seq<byte>, content: seq<byte>, received: seq<byte>, x: Warp,
                      doorbell: int, readHead: nat, host: Host)
    requires host.Clearing?
    requires Delivered(c, before, content, received, x, doorbell, readHead, host)
    ensures Delivered(c, before, content, received + host.got, x, host.left, readHead, Resting)
  {
    var n := |content|;
    var a, b := content[..n - doorbell], content[n - doorbell..n - host.left];
    assert content[..n - host.left] == a + b;
    assert received + b == before + (a + b);
  }

  /** While the doorbell is set nothing is in flight. */
  lemma DoorbellMeansSettled(c: Config, s: State, h: History)
    requires Inv(c, s, h) && s.doorbell > 0
    ensures Stage(s.warps, h.flusher).AwaitingHost?
    ensures s.buff[..|Content(h)|] == Content(h)
  {
    hide Sum, Bytes;
    NothingInFlight(c, Content(h), s.buff, s.warps);
  }

  lemma HostHolds(c: Config, before: seq<byte>, content: seq<byte>, received: seq<byte>, x: Warp,
                  doorbell: int, readHead: nat, host: Host)
    requires Delivered(c, before, content, received, x, doorbell, readHead, host) && !host.Resting?
    ensures doorbell > 0
  {
  }

  lemma HostKeeps(c: Config, s: State, h: History)
    requires c.Valid() && Inv(c, s, h)
    ensures Inv(c, HostNext(c, s), Record(c, s, HostStep, h))
  {
    hide Sum, Bytes, Delivered, Shape;
    if s.doorbell > 0 {
      DoorbellMeansSettled(c, s, h);
    }
    var before, x := Bytes(h.past), Stage(s.warps, h.flusher);
    if s.host.Fetching? && |s.host.got| < s.host.nbytes {
      assert s.doorbell > 0 by {
        HostHolds(c, before, Content(h), h.received, x, s.doorbell, s.readHead, s.host);
      }
      CopyDelivers(c, s.buff, before, Content(h), h.received, x, s.doorbell, s.readHead, s.host);
    } else if s.host.Fetching? {
      MoveDelivers(c, s, before, Content(h), h.received, x);
    } else if s.host.Clearing? {
      ClearDelivers(c, before, Content(h), h.received, x, s.doorbell, s.readHead, s.host);
    }
  }

  lemma RecvKeeps(c: Config, s: State, h: History, max: nat)
    requires c.Valid() && Inv(c, s, h) && MayRecv(s, max)
    ensures Inv(c, Fetch(s, max), h)
  {
    hide Sum, Bytes, Delivered, Shape, Written;
    FetchDelivers(c, s, max, Bytes(h.past), Content(h), h.received, Stage(s.warps, h.flusher));
  }

  lemma NextKeeps(c: Config, s: State, h: History, a: Action)
    requires c.Valid() && Inv(c, s, h)
    requires a.StartPush? ==> |a.packet| <= c.Size()
    ensures Inv(c, Next(c, s, a), Record(c, s, a, h))
  {
    hide Inv;
    match a {
      case StartPush(w, p) =>
        if MayPush(s, w, p) {
          StartPushKeeps(c, s, h, w, p);
        }
      case StartFlush(w) =>
        if MayFlush(s, w) {
          StartFlushKeeps(c, s, h, w);
        }
      case Device(w) =>
        if w < |s.warps| {
          DeviceKeeps(c, s, h, w);
        }
      case StartRecv(max) =>
        if MayRecv(s, max) {
          RecvKeeps(c, s, h, max);
        }
      case HostStep =>
        HostKeeps(c, s, h);
    }
  }

  /** The invariant holds after every run in which no packet exceeds the buffer. */
  lemma {:induction false} Invariant(c: Config, acts: seq<Action>)
    requires c.Valid() && Fits(c, acts)
    ensures Inv(c, Exec(c, acts).s, Exec(c, acts).h)
  {
    hide Inv;
    if acts == [] {
      InitInv(c);
    } else {
      var before, a := acts[..|acts| - 1], acts[|acts| - 1];
      Invariant(c, before);
      NextKeeps(c, Exec(c, before).s, Exec(c, before).h, a);
    }
  }
}
