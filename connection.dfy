/** The transport connection of connection.js as a class: the two cyclist
    rings are arrays of bufferSize slots indexed by sequence number modulo
    bufferSize, the counters and flags are fields, and everything the
    connection sends or emits is appended to `out`. Every method is proved
    to change the state exactly as the matching function of ConnectionState
    says, so the properties proved there hold of the class. */
module Transport {
  import opened Packets
  import opened ConnectionState
  import Modular

  class Connection {
    const id: int
    const server: bool
    const bufferSize: int
    const outgoing: array<Option<OutEntry>>
    const incoming: array<Option<Packet>>

    var seqNr: int
    var ack: int
    var inflight: int
    var connecting: bool
    var closed: bool
    var alive: bool
    var timeoutMax: nat
    var timeoutSince: nat
    var mtu: int
    var synack: Option<OutEntry>
    var closeTicks: nat
    var out: seq<Output>

    function Cfg(): Config {
      Config(id, server, bufferSize)
    }

    function State(): Snapshot
      reads this, outgoing, incoming
    {
      Snapshot(seqNr, ack, inflight, connecting, closed, alive, timeoutMax, timeoutSince,
               mtu, synack, closeTicks, outgoing[..], incoming[..], out)
    }

    predicate Valid()
      reads this, outgoing, incoming
    {
      WellFormed(Cfg(), State())
    }

    /** The constructor, with the random initial sequence number and the
        clock passed in. */
    constructor (cid: int, syn: Option<Packet>, opts: Options, initSeq: int, now: Clock)
      requires ValidConfig(Config(cid, syn.Some?, OrDefault(opts.bufferSize, BUFFER_SIZE))) && ValidClock(now)
      requires 0 <= initSeq < UINT16_MAX
      requires syn.Some? ==> IsU16(syn.value.seqNr)
      ensures Valid() && fresh(outgoing) && fresh(incoming)
      ensures Cfg() == Config(cid, syn.Some?, OrDefault(opts.bufferSize, BUFFER_SIZE))
      ensures State() == InitSpec(Cfg(), syn, opts, initSeq, now)
    {
      var n := OrDefault(opts.bufferSize, BUFFER_SIZE);
      id := cid;
      server := syn.Some?;
      bufferSize := n;
      outgoing := new Option<OutEntry>[n](_ => None);
      incoming := new Option<Packet>[n](_ => None);
      timeoutMax := OrDefault(opts.timeout, DEFAULT_TIMEOUT);
      timeoutSince := now.ms;
      mtu := OrDefault(opts.mtu, MTU);
      inflight := 0;
      closed := false;
      alive := false;
      closeTicks := 0;
      seqNr := initSeq;
      match syn {
        case Some(q) =>
          // The STATE reply is cached and handed to _transmit at once.
          var reply := OutEntry(CreatePacket(Config(cid, true, n), initSeq, q.seqNr, PACKET_STATE, None, now.us), 0);
          connecting := false;
          ack := q.seqNr;
          synack := Some(Transmitted(reply, now.us));
          alive := true;
          out := [Send(reply.packet)];
        case None =>
          connecting := true;
          ack := 0;
          synack := None;
          out := [];
      }
      new;
      assert outgoing[..] == EmptyRing(n);
      assert incoming[..] == EmptyRing(n);
    }

    /** _transmit: stamp the entry and hand its packet to the socket. */
    method Transmit(e: OutEntry, now: Clock) returns (r: OutEntry)
      modifies this
      ensures r == Transmitted(e, now.us)
      ensures State() == old(State()).(alive := true, out := old(out) + [Send(e.packet)])
    {
      r := e.(sent := if e.sent == 0 then e.packet.timestamp else now.us);
      alive := true;
      out := out + [Send(e.packet)];
    }

    /** _sendOutgoing of a packet created with the current seq and ack. */
    method SendOutgoing(kind: int, data: Option<seq<Byte>>, now: Clock)
      requires Valid() && ValidClock(now) && IsPacketType(kind)
      modifies this, outgoing
      ensures Valid()
      ensures State() == SendOutgoingSpec(Cfg(), old(State()), kind, data, now)
    {
      var p := CreatePacket(Cfg(), seqNr, ack, kind, data, now.us);
      seqNr := Uint16(seqNr + 1);
      inflight := inflight + 1;
      var sent := Transmit(OutEntry(p, 0), now);
      outgoing[Slot(p.seqNr, bufferSize)] := Some(sent);
    }

    /** _sendAck. */
    method SendAck(now: Clock)
      requires Valid() && ValidClock(now)
      modifies this
      ensures Valid()
      ensures State() == SendAckSpec(Cfg(), old(State()), now)
    {
      var _ := Transmit(OutEntry(CreatePacket(Cfg(), seqNr, ack, PACKET_STATE, None, now.us), 0), now);
    }

    /** _connect. */
    method Connect(now: Clock)
      requires Valid() && ValidClock(now)
      modifies this, outgoing
      ensures Valid()
      ensures State() == ConnectSpec(Cfg(), old(State()), now)
    {
      SendOutgoing(PACKET_SYN, None, now);
    }

    /** _recvAck: the loop empties `acked` slots from the oldest in flight,
        decrementing the in-flight count once per slot. */
    method RecvAck(ackNr: int)
      requires Valid()
      modifies this, outgoing
      ensures Valid()
      ensures State() == RecvAckSpec(Cfg(), old(State()), ackNr)
    {
      var n := outgoing.Length;
      var offset := seqNr - inflight;
      var acked := Uint16(ackNr - offset) + 1;
      if acked >= n {
        return;
      }
      ClearRunNone(outgoing[..], offset);
      var left := inflight;
      var i := 0;
      while i < acked
        modifies outgoing
        invariant 0 <= i <= acked
        invariant outgoing[..] == ClearRun(old(outgoing[..]), offset, i)
        invariant left == inflight - i
      {
        ClearRunStep(old(outgoing[..]), offset, i);
        outgoing[SlotAt(offset, i, n)] := None;
        left := left - 1;
        i := i + 1;
      }
      if left < 0 {
        left := 0;
      }
      inflight := left;
      if inflight == 0 {
        out := out + [EmitFlush];
      }
    }

    /** _write, with the continuation it would register returned instead:
        Completed corresponds to calling the callback, WaitFor to waiting
        for the event and writing the rest then. */
    method Write(data: seq<Byte>, now: Clock) returns (outcome: WriteOutcome)
      requires Valid() && ValidClock(now)
      modifies this, outgoing
      ensures Valid()
      ensures var w := WriteSpec(Cfg(), old(State()), data, now);
        State() == w.state && outcome == w.outcome
    {
      if connecting {
        return WaitFor(OnConnect, data);
      }
      var rest := data;
      while inflight < bufferSize - 1
        invariant Valid()
        invariant WriteLoop(Cfg(), State(), rest, now) == WriteLoop(Cfg(), old(State()), data, now)
        decreases bufferSize - inflight
      {
        var payload := Payload(rest, mtu);
        SendOutgoing(PACKET_DATA, Some(payload), now);
        if |payload| == |rest| {
          return Completed;
        }
        rest := rest[|payload|..];
      }
      return WaitFor(OnFlush, rest);
    }

    /** _resend; `fault` reports the TypeError the program raises when an
        in-flight slot of the scanned run is empty. */
    method Resend(now: Clock) returns (fault: bool)
      requires Valid() && ValidClock(now)
      modifies this, outgoing
      ensures Valid()
      ensures var r := ResendSpec(Cfg(), old(State()), now);
        State() == r.state && fault == r.fault
    {
      var n := outgoing.Length;
      var offset := seqNr - inflight;
      var first := outgoing[Slot(offset, n)];
      if first.None? || Uint32(first.value.sent - now.us) < RESEND_THRESHOLD {
        return false;
      }
      var sent;
      sent, fault := ResendRun(offset, now);
      alive := alive || sent != [];
      out := out + Sends(sent);
    }

    /** The loop of _resend over the in-flight run starting at `offset`:
        it restamps the overdue entries and returns the packets it hands to
        _transmit, in order; each of them marks the connection alive and
        goes to the socket. */
    method ResendRun(offset: int, now: Clock) returns (sent: seq<Packet>, fault: bool)
      requires Valid() && ValidClock(now)
      modifies outgoing
      ensures var scan := ResendScan(old(outgoing[..]), offset, 0, inflight, now.us);
        outgoing[..] == scan.ring && sent == scan.sent && fault == scan.fault
    {
      var n := outgoing.Length;
      ghost var scan := ResendScan(outgoing[..], offset, 0, inflight, now.us);
      sent := [];
      fault := false;
      var i := 0;
      while i < inflight
        modifies outgoing
        invariant 0 <= i <= inflight
        invariant ScanRemains(outgoing[..], offset, i, inflight, now.us, sent, scan)
        decreases inflight - i
      {
        var k := SlotAt(offset, i, n);
        if outgoing[k].None? {
          fault := true;
          break;
        }
        var e := outgoing[k].value;
        ScanStep(outgoing[..], offset, i, inflight, now.us, sent, scan);
        if Uint32(e.sent - now.us) >= RESEND_THRESHOLD {
          outgoing[k] := Some(Transmitted(e, now.us));
          sent := sent + [e.packet];
        }
        i := i + 1;
      }
    }

    /** _keepAlive. */
    method KeepAlive(now: Clock)
      requires Valid() && ValidClock(now)
      modifies this
      ensures Valid()
      ensures State() == KeepAliveSpec(Cfg(), old(State()), now)
    {
      if alive {
        alive := false;
        return;
      }
      SendAck(now);
    }

    /** _timeout. */
    method Timeout(now: Clock)
      modifies this
      ensures State() == TimeoutSpec(old(State()), now)
    {
      if timeoutMax == 0 || timeoutSince == 0 {
        return;
      }
      if now.ms - timeoutSince >= timeoutMax {
        timeoutSince := 0;
        out := out + [EmitTimeout];
      }
    }

    /** setTimeout. */
    method SetTimeout(timeout: nat, now: Clock)
      modifies this
      ensures State() == SetTimeoutSpec(old(State()), timeout, now)
    {
      timeoutMax := timeout;
      timeoutSince := now.ms;
    }

    /** setMtu. */
    method SetMtu(m: int)
      requires Valid() && m > 0
      modifies this
      ensures Valid()
      ensures State() == old(State()).(mtu := m)
    {
      mtu := m;
    }

    /** _closing. */
    method Closing()
      modifies this
      ensures State() == ClosingSpec(old(State()))
    {
      if closed {
        return;
      }
      closed := true;
      out := out + [CloseScheduled];
    }

    /** destroy. */
    method Destroy()
      modifies this
      ensures State() == DestroySpec(old(State()))
    {
      out := out + [PushEnd, EndWritable];
      Closing();
    }

    /** sendFin: while connecting the FIN waits for 'connect'. */
    method SendFin(now: Clock)
      requires Valid() && ValidClock(now)
      modifies this, outgoing
      ensures Valid()
      ensures State() == SendFinSpec(Cfg(), old(State()), now)
    {
      if connecting {
        return;
      }
      SendOutgoing(PACKET_FIN, None, now);
    }

    /** The `closed` closure: count one half; the second one closes. */
    method CloseTick()
      modifies this
      ensures State() == CloseTickSpec(old(State()))
    {
      closeTicks := closeTicks + 1;
      if closeTicks == 2 {
        Closing();
      }
    }

    /** The `noAnswer` closure. */
    method NoAnswer()
      modifies this
      ensures State() == NoAnswerSpec(old(State()))
    {
      out := out + [PushEnd];
      Closing();
    }

    /** The part of _recvIncoming after the handshake: stale filter, ack,
        store and the drain loop. */
    method Accept(p: Packet, now: Clock)
      requires Valid() && ValidClock(now)
      modifies this, outgoing, incoming
      ensures Valid()
      ensures State() == AcceptSpec(Cfg(), old(State()), p, now)
    {
      var n := incoming.Length;
      if Stale(p.seqNr, ack, n) {
        SendAck(now);
        return;
      }
      RecvAck(p.ack);
      if p.id == PACKET_STATE {
        return;
      }
      incoming[Slot(p.seqNr, n)] := Some(p);
      var a, log := DrainIncoming();
      ack := a;
      out := out + log;
      SendAck(now);
    }

    /** The drain loop of _recvIncoming: deliver packets in order while the
        slot after ack is occupied. */
    method DrainIncoming() returns (a: int, log: seq<Output>)
      requires Valid()
      modifies incoming
      ensures var d := Drain(old(incoming[..]), ack, bufferSize);
        incoming[..] == d.ring && a == d.ack && log == d.log
    {
      var n := incoming.Length;
      ghost var d0 := Drain(incoming[..], ack, n);
      a := ack;
      log := [];
      while incoming[After(a, 0, n)].Some?
        modifies incoming
        invariant IsU16(a) && DrainRemains(incoming[..], a, n, log, d0)
        decreases CountSome(incoming[..])
      {
        var k := After(a, 0, n);
        var q := incoming[k].value;
        DrainOne(incoming[..], a, n, log, d0);
        incoming[k] := None;
        a := Uint16(a + 1);
        log := log + Deliver(q);
      }
    }

    /** The handshake completing on a STATE while connecting. */
    method Connected(p: Packet)
      requires Valid()
      modifies this, outgoing, incoming
      ensures Valid()
      ensures State() == ConnectedSpec(Cfg(), old(State()), p)
    {
      ack := Uint16(p.seqNr - 1);
      RecvAck(p.ack);
      connecting := false;
      out := out + [EmitConnect];
      incoming[Slot(p.seqNr, bufferSize)] := None;
    }

    /** _recvIncoming; `fault` reports the TypeError raised by a SYN that
        reaches a connecting side without a cached reply. */
    method RecvIncoming(p: Packet, now: Clock) returns (fault: bool)
      requires Valid() && ValidClock(now)
      modifies this, outgoing, incoming
      ensures Valid()
      ensures var r := RecvIncomingSpec(Cfg(), old(State()), p, now);
        State() == r.state && fault == r.fault
    {
      if closed {
        out := out + [Send(ResetPacket(OfConnection(Cfg(), seqNr, ack), now))];
        return false;
      }
      timeoutSince := now.ms;
      if p.id == PACKET_RESET {
        Destroy();
        return false;
      }
      if p.id == PACKET_SYN && connecting {
        // _transmit(this._synack) with a null cached reply throws.
        return true;
      }
      var q := p;
      if connecting {
        if p.id != PACKET_STATE {
          incoming[Slot(p.seqNr, bufferSize)] := Some(p);
          return false;
        }
        var popped := incoming[Slot(p.seqNr, bufferSize)];
        Connected(p);
        if popped.None? {
          return false;
        }
        q := popped.value;
      }
      Accept(q, now);
      return false;
    }
  }

  /** One more iteration of the ack loop empties one more slot. */
  lemma ClearRunStep<T>(ring: seq<Option<T>>, offset: int, i: int)
    requires 0 <= i < |ring|
    ensures ClearRun(ring, offset, i)[SlotAt(offset, i, |ring|) := None] == ClearRun(ring, offset, i + 1)
  {
    var n := |ring|;
    var a := ClearRun(ring, offset, i)[SlotAt(offset, i, n) := None];
    var b := ClearRun(ring, offset, i + 1);
    forall k | 0 <= k < n ensures a[k] == b[k] {
      Modular.SlotDistance(k, offset, i, n);
      assert Slot(k - offset, n) == i <==> k == SlotAt(offset, i, n);
    }
  }

  /** Before the ack loop nothing is cleared. */
  lemma ClearRunNone<T>(ring: seq<Option<T>>, offset: int)
    requires |ring| > 0
    ensures ClearRun(ring, offset, 0) == ring
  {
    var r := ClearRun(ring, offset, 0);
    forall k | 0 <= k < |ring| ensures r[k] == ring[k] {
      assert Slot(k - offset, |ring|) >= 0;
    }
  }

  /** The invariant of the drain loop: draining what is left, after the
      outputs in `log`, completes the whole drain `d0`. */
  predicate DrainRemains(ring: seq<Option<Packet>>, a: int, n: int, log: seq<Output>, d0: Drained)
    requires |ring| == n && ValidBufferSize(n) && IsU16(a)
  {
    var d := Drain(ring, a, n);
    d.ring == d0.ring && d.ack == d0.ack && log + d.log == d0.log
  }

  /** One iteration of the drain loop, seen from the drain function. */
  lemma DrainOne(ring: seq<Option<Packet>>, a: int, n: int, log: seq<Output>, d0: Drained)
    requires |ring| == n && ValidBufferSize(n) && IsU16(a) && ring[After(a, 0, n)].Some?
    requires DrainRemains(ring, a, n, log, d0)
    ensures var k := After(a, 0, n);
      && DrainRemains(ring[k := None], Uint16(a + 1), n, log + Deliver(ring[k].value), d0)
      && CountSome(ring[k := None]) < CountSome(ring)
  {
    var k := After(a, 0, n);
    CountSomeClear(ring, k);
    var after := Drain(ring[k := None], Uint16(a + 1), n);
    assert Drain(ring, a, n) == Drained(after.ring, after.ack, Deliver(ring[k].value) + after.log);
    assert (log + Deliver(ring[k].value)) + after.log == log + (Deliver(ring[k].value) + after.log);
  }

  /** The invariant of the resend loop: what is left of the scan from
      position i, after the packets in `sent`, completes the whole scan. */
  predicate ScanRemains(ring: seq<Option<OutEntry>>, offset: int, i: nat, count: nat, nowUs: int, sent: seq<Packet>, scan: Resent)
    requires |ring| > 0
  {
    var rem := ResendScan(ring, offset, i, count, nowUs);
    rem.ring == scan.ring && rem.fault == scan.fault && sent + rem.sent == scan.sent
  }

  /** One iteration of the resend loop over an occupied slot keeps the invariant. */
  lemma ScanStep(ring: seq<Option<OutEntry>>, offset: int, i: nat, count: nat, nowUs: int, sent: seq<Packet>, scan: Resent)
    requires |ring| > 0 && i < count && ring[SlotAt(offset, i, |ring|)].Some?
    requires ScanRemains(ring, offset, i, count, nowUs, sent, scan)
    ensures var k := SlotAt(offset, i, |ring|);
      var e := ring[k].value;
      if Uint32(e.sent - nowUs) >= RESEND_THRESHOLD
      then ScanRemains(ring[k := Some(Transmitted(e, nowUs))], offset, i + 1, count, nowUs, sent + [e.packet], scan)
      else ScanRemains(ring, offset, i + 1, count, nowUs, sent, scan)
  {
    var k := SlotAt(offset, i, |ring|);
    var e := ring[k].value;
    if Uint32(e.sent - nowUs) >= RESEND_THRESHOLD {
      var rest := ResendScan(ring[k := Some(Transmitted(e, nowUs))], offset, i + 1, count, nowUs);
      assert (sent + [e.packet]) + rest.sent == sent + ([e.packet] + rest.sent);
    }
  }
}
