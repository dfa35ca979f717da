/** The GPU-to-host channel: shared memory, the program counter of every warp
    and of the receiving host thread, and one transition per atomic action. */
module ChannelProtocol {
  import opened Words

  /** What `init` fixes: the address of the device buffer, its (uninitialised)
      contents, whose length is `buff_size`, and the number of warps. */
  datatype Config = Config(base: nat, memory: seq<byte>, warps: nat) {
    function Size(): nat { |memory| }

    /** The address `buff_end`. */
    function End(): nat { base + Size() }

    /** `buff_size` is a positive int, no device allocation is at NULL, and the
        address space leaves room for one buffer length per warp after `buff_end`. */
    ghost predicate Valid() {
      && 0 < base
      && 0 < Size() < TWO_31
      && End() + warps * Size() < TWO_64
    }
  }

  /** Who called `flush`: a push that found the buffer full, or client code. */
  datatype Caller = InPush(packet: seq<byte>) | External

  /** Where a warp stands in `push` or `flush`. */
  datatype Warp =
    | Idle
    | Reserving(packet: seq<byte>)                         // about to atomicAdd the head
    | Spinning(packet: seq<byte>)                          // while (head > buff_end)
    | AwaitingTail(packet: seq<byte>, ticket: nat)         // while (tail != curr_ptr)
    | Copying(packet: seq<byte>, at: nat, done: nat)       // memcpy, then atomicAdd the tail
    | ReadingLength(caller: Caller)
    | Ringing(caller: Caller, nbytes: nat)
    | AwaitingHost(caller: Caller)                         // while (*doorbell != 0)
    | ResettingTail(caller: Caller)
    | ResettingHead(caller: Caller)

  /** Where the host thread stands in `recv`. */
  datatype Host =
    | Resting
    | Fetching(rung: nat, nbytes: int, got: seq<byte>)     // copying nbytes of the rung length
    | Clearing(left: int, got: seq<byte>)                  // about to write the doorbell

  datatype State = State(
    head: nat,
    tail: nat,
    doorbell: int,
    buff: seq<byte>,
    warps: seq<Warp>,
    host: Host,
    readHead: nat)

  datatype Action =
    | StartPush(w: nat, packet: seq<byte>)
    | StartFlush(w: nat)
    | Device(w: nat)
    | StartRecv(max: nat)
    | HostStep

  function Init(c: Config): State {
    State(c.base, c.base, 0, c.memory, seq(c.warps, _ => Idle), Resting, c.base)
  }

  predicate AllIdle(ws: seq<Warp>) {
    forall i | 0 <= i < |ws| :: ws[i] == Idle
  }

  /** The warp has taken the flush branch of `push`, or called `flush`, and has
      not yet reset the head. */
  predicate IsFlusher(x: Warp) {
    x.AwaitingTail? || x.ReadingLength? || x.Ringing? || x.AwaitingHost? || x.ResettingTail? || x.ResettingHead?
  }

  function CallerOf(x: Warp): Caller
    requires IsFlusher(x)
  {
    if x.AwaitingTail? then InPush(x.packet) else x.caller
  }

  predicate FlushesExternally(x: Warp) {
    IsFlusher(x) && CallerOf(x).External?
  }

  function Goto(s: State, w: nat, x: Warp): State
    requires w < |s.warps|
  {
    s.(warps := s.warps[w := x])
  }

  /** Where `flush` returns to. */
  function Return(k: Caller): Warp {
    match k
    case InPush(p) => Reserving(p)
    case External => Idle
  }

  /** A store to device memory; one outside the buffer would hit foreign memory,
      which the invariant excludes. */
  function Store(mem: seq<byte>, i: int, b: byte): seq<byte> {
    if 0 <= i < |mem| then mem[i := b] else mem
  }

  function Load(mem: seq<byte>, i: int): byte {
    if 0 <= i < |mem| then mem[i] else 0
  }

  /** One atomic step of warp w. A spin that does not end leaves the state as it is. */
  function DeviceStep(c: Config, s: State, w: nat): State
    requires w < |s.warps|
  {
    match s.warps[w]
    case Idle => s
    case Reserving(p) =>
      var ptr := s.head;
      var next := Uint64(ptr + |p|);
      Goto(s.(head := next), w,
           if next > c.End() then
             if ptr <= c.End() then AwaitingTail(p, ptr) else Spinning(p)
           else Copying(p, ptr, 0))
    case Spinning(p) =>
      if s.head > c.End() then s else Goto(s, w, Reserving(p))
    case AwaitingTail(p, ticket) =>
      if s.tail != ticket then s else Goto(s, w, ReadingLength(InPush(p)))
    case Copying(p, at, done) =>
      if done < |p| then
        Goto(s.(buff := Store(s.buff, at - c.base + done, p[done])), w, Copying(p, at, done + 1))
      else
        Goto(s.(tail := Uint64(s.tail + |p|)), w, Idle)
    case ReadingLength(k) =>
      var nbytes := Uint32(s.tail - c.base);
      Goto(s, w, if nbytes == 0 then Return(k) else Ringing(k, nbytes))
    case Ringing(k, nbytes) =>
      if s.doorbell != 0 then s  // assert(*doorbell == 0) stops the kernel here
      else Goto(s.(doorbell := Int32(nbytes)), w, AwaitingHost(k))
    case AwaitingHost(k) =>
      if s.doorbell != 0 then s else Goto(s, w, ResettingTail(k))
    case ResettingTail(k) => Goto(s.(tail := c.base), w, ResettingHead(k))
    case ResettingHead(k) => Goto(s.(head := c.base), w, Return(k))
  }

  /** The first step of `recv`: read the doorbell and choose the chunk. */
  function Fetch(s: State, max: nat): State
    requires s.host.Resting?
  {
    var rung := Uint32(s.doorbell);
    if rung == 0 then s
    else s.(host := Fetching(rung, if rung > max then Int32(max) else Int32(rung), []))
  }

  /** The later steps of `recv`: copy byte by byte, move the read head, and
      finally write the doorbell and return the chunk. */
  function HostNext(c: Config, s: State): State {
    match s.host
    case Resting => s
    case Fetching(rung, nbytes, got) =>
      if |got| < nbytes then
        s.(host := Fetching(rung, nbytes, got + [Load(s.buff, s.readHead - c.base + |got|)]))
      else
        var left := Int32(rung - nbytes);
        s.(readHead := if left > 0 then Uint64(s.readHead + nbytes) else c.base,
           host := Clearing(left, got))
    case Clearing(left, got) => s.(doorbell := left, host := Resting)
  }

  /** A push may begin in an idle warp while no client flush is under way, a
      client flush only when no warp is inside `push`. */
  predicate MayPush(s: State, w: nat, packet: seq<byte>) {
    && w < |s.warps| && s.warps[w].Idle?
    && 0 < |packet| < TWO_32
    && forall i | 0 <= i < |s.warps| :: !FlushesExternally(s.warps[i])
  }

  predicate MayFlush(s: State, w: nat) {
    w < |s.warps| && AllIdle(s.warps)
  }

  predicate MayRecv(s: State, max: nat) {
    s.host.Resting? && 0 < max < TWO_32
  }

  /** One action of a run; an action that is not possible is skipped. */
  function Next(c: Config, s: State, a: Action): State {
    match a
    case StartPush(w, p) => if MayPush(s, w, p) then Goto(s, w, Reserving(p)) else s
    case StartFlush(w) => if MayFlush(s, w) then Goto(s, w, ReadingLength(External)) else s
    case Device(w) => if w < |s.warps| then DeviceStep(c, s, w) else s
    case StartRecv(max) => if MayRecv(s, max) then Fetch(s, max) else s
    case HostStep => HostNext(c, s)
  }

  // ------------------------------------------------------------------------
  // What an observer writes down about a run. None of it is part of the state.

  /** A successful reservation. */
  datatype Entry = Entry(warp: nat, packet: seq<byte>, at: nat)

  /** `past`: reservations of finished epochs; `epoch`: those since the last
      head reset; `received`: the bytes returned by `recv` so far; `late`: the
      warps whose reservation failed in this epoch; `flusher`: the warp between
      choosing to flush and resetting the head; `fails`: failed reservations. */
  datatype History = History(
    past: seq<Entry>,
    epoch: seq<Entry>,
    received: seq<byte>,
    late: set<nat>,
    flusher: Flusher,
    fails: nat)

  datatype Flusher = Nobody | Pushing(w: nat) | Client(w: nat)

  const EMPTY_HISTORY := History([], [], [], {}, Nobody, 0)

  function RecordDevice(c: Config, s: State, w: nat, h: History): History
    requires w < |s.warps|
  {
    var x, y := s.warps[w], DeviceStep(c, s, w).warps[w];
    if x.Reserving? && y.Copying? then
      h.(epoch := h.epoch + [Entry(w, x.packet, y.at)])
    else if x.Reserving? then
      h.(late := h.late + {w}, fails := h.fails + 1,
         flusher := if y.AwaitingTail? then Pushing(w) else h.flusher)
    else if x.ResettingHead? then
      h.(past := h.past + h.epoch, epoch := [], late := {}, flusher := Nobody)
    else if IsFlusher(x) && !IsFlusher(y) then
      h.(flusher := Nobody)
    else h
  }

  function Record(c: Config, s: State, a: Action, h: History): History {
    match a
    case StartPush(_, _) => h
    case StartFlush(w) => if MayFlush(s, w) then h.(flusher := Client(w)) else h
    case Device(w) => if w < |s.warps| then RecordDevice(c, s, w, h) else h
    case StartRecv(_) => h
    case HostStep => if s.host.Clearing? then h.(received := h.received + s.host.got) else h
  }

  datatype Run = Run(s: State, h: History)

  /** The state and the history after a sequence of actions. */
  function Exec(c: Config, acts: seq<Action>): Run {
    if acts == [] then Run(Init(c), EMPTY_HISTORY)
    else
      var r, a := Exec(c, acts[..|acts| - 1]), acts[|acts| - 1];
      Run(Next(c, r.s, a), Record(c, r.s, a, r.h))
  }

  /** The packets of a log, end to end. */
  function Bytes(log: seq<Entry>): seq<byte> {
    if log == [] then [] else Bytes(log[..|log| - 1]) + log[|log| - 1].packet
  }

  /** The contract of `push`: no packet exceeds the buffer. */
  predicate Fits(c: Config, acts: seq<Action>) {
    forall i | 0 <= i < |acts| :: acts[i].StartPush? ==> |acts[i].packet| <= c.Size()
  }

  /** The host calls `recv` with one fixed chunk size. */
  predicate ChunkIs(a: Action, max: nat) {
    a.StartRecv? ==> a.max == max
  }

  predicate FixedChunk(acts: seq<Action>, max: nat) {
    forall i | 0 <= i < |acts| :: ChunkIs(acts[i], max)
  }
}
