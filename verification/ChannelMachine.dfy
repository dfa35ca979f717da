/** The channel as the program has it: pointers, doorbell and buffer updated in
    place, one method per atomic action, each tied to the transition function. */
module ChannelMachine {
  import opened Words
  import opened ChannelProtocol
  import opened ChannelInvariant
  import opened ChannelDelivery
  import R = ChannelReceive

  lemma ReceivedGrows(c: Config, s: State, a: Action, h: History)
    ensures Record(c, s, a, h).received == h.received + if a.HostStep? && s.host.Clearing? then s.host.got else []
  {
  }

  class Channel {
    const c: Config
    const buff: array<byte>
    var head: nat
    var tail: nat
    var doorbell: int
    var readHead: nat
    var warps: seq<Warp>
    var host: Host

    ghost predicate Valid()
      reads this
    {
      buff.Length == c.Size()
    }

    ghost function Snapshot(): State
      reads this, buff
    {
      State(head, tail, doorbell, buff[..], warps, host, readHead)
    }

    /** `init` on both sides: head, tail and read head at the buffer, doorbell clear. */
    constructor (c: Config)
      ensures this.c == c && Valid() && fresh(buff) && Snapshot() == Init(c)
    {
      this.c := c;
      this.buff := new byte[|c.memory|](i requires 0 <= i < |c.memory| => c.memory[i]);
      this.head, this.tail, this.readHead := c.base, c.base, c.base;
      this.doorbell := 0;
      this.warps := seq(c.warps, _ => Idle);
      this.host := Resting;
      new;
      assert buff[..] == c.memory;
    }

    /** `atomicAdd` on the head, and the branch the returned pointer selects. */
    method Reserve(w: nat)
      requires Valid() && w < |warps| && warps[w].Reserving?
      modifies this`head, this`warps
      ensures Snapshot() == DeviceStep(c, old(Snapshot()), w)
    {
      var packet := warps[w].packet;
      var ptr := head;
      head := Uint64(head + |packet|);
      if Uint64(ptr + |packet|) > c.End() {
        if ptr <= c.End() {
          warps := warps[w := AwaitingTail(packet, ptr)];
        } else {
          warps := warps[w := Spinning(packet)];
        }
      } else {
        warps := warps[w := Copying(packet, ptr, 0)];
      }
    }

    /** One byte of `memcpy`, or the `atomicAdd` on the tail that commits. */
    method CopyOrCommit(w: nat)
      requires Valid() && w < |warps| && warps[w].Copying?
      modifies this`tail, this`warps, buff
      ensures Snapshot() == DeviceStep(c, old(Snapshot()), w)
    {
      var Copying(packet, at, done) := warps[w];
      if done < |packet| {
        var k := at - c.base + done;
        if 0 <= k < buff.Length {
          buff[k] := packet[done];
        }
        warps := warps[w := Copying(packet, at, done + 1)];
      } else {
        tail := Uint64(tail + |packet|);
        warps := warps[w := Idle];
      }
    }

    /** One turn of the wait for the tail, or of the wait for the head to drop. */
    method Wait(w: nat)
      requires Valid() && w < |warps| && (warps[w].AwaitingTail? || warps[w].Spinning?)
      modifies this`warps
      ensures Snapshot() == DeviceStep(c, old(Snapshot()), w)
    {
      match warps[w] {
        case AwaitingTail(packet, ticket) =>
          if tail == ticket {
            warps := warps[w := ReadingLength(InPush(packet))];
          }
        case Spinning(packet) =>
          if head <= c.End() {
            warps := warps[w := Reserving(packet)];
          }
      }
    }

    /** One step of `flush`. */
    method Flush(w: nat)
      requires Valid() && w < |warps| && IsFlusher(warps[w]) && !warps[w].AwaitingTail?
      modifies this`head, this`tail, this`doorbell, this`warps
      ensures Snapshot() == DeviceStep(c, old(Snapshot()), w)
    {
      match warps[w] {
        case ReadingLength(k) =>
          var nbytes := Uint32(tail - c.base);
          if nbytes == 0 {
            warps := warps[w := Return(k)];
          } else {
            warps := warps[w := Ringing(k, nbytes)];
          }
        case Ringing(k, nbytes) =>
          if doorbell == 0 {
            doorbell := Int32(nbytes);
            warps := warps[w := AwaitingHost(k)];
          }
        case AwaitingHost(k) =>
          if doorbell == 0 {
            warps := warps[w := ResettingTail(k)];
          }
        case ResettingTail(k) =>
          tail := c.base;
          warps := warps[w := ResettingHead(k)];
        case ResettingHead(k) =>
          head := c.base;
          warps := warps[w := Return(k)];
      }
    }

    method StepDevice(w: nat)
      requires Valid()
      modifies this`head, this`tail, this`doorbell, this`warps, buff
      ensures Valid() && Snapshot() == Next(c, old(Snapshot()), Device(w))
    {
      if w < |warps| {
        match warps[w] {
          case Idle =>
          case Reserving(_) => Reserve(w);
          case Copying(_, _, _) => CopyOrCommit(w);
          case Spinning(_) => Wait(w);
          case AwaitingTail(_, _) => Wait(w);
          case _ => Flush(w);
        }
      }
    }

    method StartRecv(max: nat)
      requires Valid()
      modifies this`host
      ensures Snapshot() == Next(c, old(Snapshot()), ChannelProtocol.StartRecv(max))
    {
      if host.Resting? && 0 < max < TWO_32 {
        var rung := Uint32(doorbell);
        if rung != 0 {
          var nbytes := Int32(rung);
          if rung > max {
            nbytes := Int32(max);
          }
          host := Fetching(rung, nbytes, []);
        }
      }
    }

    /** The next step of `recv`; the last one hands over the chunk. */
    method StepHost() returns (chunk: seq<byte>)
      requires Valid()
      modifies this`host, this`readHead, this`doorbell
      ensures Snapshot() == HostNext(c, old(Snapshot()))
      ensures chunk == if old(host).Clearing? then old(host).got else []
    {
      chunk := [];
      match host {
        case Resting =>
        case Fetching(rung, nbytes, got) =>
          if |got| < nbytes {
            host := Fetching(rung, nbytes, got + [Load(buff[..], readHead - c.base + |got|)]);
          } else {
            var left := Int32(rung - nbytes);
            if left > 0 {
              readHead := Uint64(readHead + nbytes);
            } else {
              readHead := c.base;
            }
            host := Clearing(left, got);
          }
        case Clearing(left, got) =>
          doorbell := left;
          host := Resting;
          chunk := got;
      }
    }

    predicate MayPushHere(w: nat, packet: seq<byte>)
      reads this, buff
      ensures MayPushHere(w, packet) <==> MayPush(Snapshot(), w, packet)
    {
      && w < |warps| && warps[w].Idle?
      && 0 < |packet| < TWO_32
      && forall i | 0 <= i < |warps| :: !FlushesExternally(warps[i])
    }

    method Perform(a: Action) returns (chunk: seq<byte>)
      requires Valid()
      modifies this, buff
      ensures Valid() && Snapshot() == Next(c, old(Snapshot()), a)
      ensures chunk == if a.HostStep? && old(host).Clearing? then old(host).got else []
    {
      chunk := [];
      match a {
        case StartPush(w, packet) =>
          if MayPushHere(w, packet) {
            warps := warps[w := Reserving(packet)];
          }
        case StartFlush(w) =>
          if w < |warps| && AllIdle(warps) {
            warps := warps[w := ReadingLength(External)];
          }
        case Device(w) => StepDevice(w);
        case StartRecv(max) => StartRecv(max);
        case HostStep => chunk := StepHost();
      }
    }

    /** A whole run on a fresh channel. What the successive calls of `recv` return
        is what the history records; and if no packet exceeds the buffer it is a
        prefix of the packets in reservation order. */
    method Run(acts: seq<Action>) returns (received: seq<byte>)
      requires Valid() && Snapshot() == Init(c)
      modifies this, buff
      ensures Valid() && Snapshot() == Exec(c, acts).s
      ensures received == Exec(c, acts).h.received
      ensures c.Valid() && Fits(c, acts) ==> received <= Bytes(Log(Exec(c, acts).h))
    {
      received := [];
      for k := 0 to |acts|
        invariant Valid()
        invariant Snapshot() == Exec(c, acts[..k]).s
        invariant received == Exec(c, acts[..k]).h.received
      {
        assert acts[..k + 1] == acts[..k] + [acts[k]];
        ExecAppend(c, acts[..k], acts[k]);
        ReceivedGrows(c, Snapshot(), acts[k], Exec(c, acts[..k]).h);
        var chunk := Perform(acts[k]);
        received := received + chunk;
      }
      assert acts[..|acts|] == acts;
      if c.Valid() && Fits(c, acts) {
        ReceivedIsPrefix(c, acts);
      }
    }

    /** `recv` in one piece: the chunk is copied out, the read head moves on or
        back to the start, and the doorbell keeps what is left. */
    method Recv(out: array<byte>, max: nat) returns (nbytes: int)
      requires Valid() && c.Valid() && out != buff
      requires 0 < max < TWO_32 && max <= out.Length
      requires 0 <= doorbell && c.base <= readHead && readHead + doorbell <= c.End()
      modifies this`doorbell, this`readHead, out
      ensures R.Call(nbytes, doorbell, readHead) == R.Recv(c.base, old(doorbell), old(readHead), max)
      ensures 0 <= nbytes <= max
      ensures out[..nbytes] == buff[old(readHead) - c.base..old(readHead) - c.base + nbytes]
      ensures out[nbytes..] == old(out[..])[nbytes..]
      ensures old(doorbell) == nbytes + doorbell
    {
      R.RecvConversions(c.base, doorbell, readHead, max);
      var rung := Uint32(doorbell);
      if rung == 0 {
        nbytes := 0;
        return;
      }
      nbytes := Int32(rung);
      if rung > max {
        nbytes := Int32(max);
      }
      var from := readHead - c.base;
      forall k | 0 <= k < nbytes {
        out[k] := buff[from + k];
      }
      var left := Int32(rung - nbytes);
      if left > 0 {
        readHead := Uint64(readHead + nbytes);
      } else {
        readHead := c.base;
      }
      doorbell := left;
    }
  }
}
