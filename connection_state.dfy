/** The state of one transport connection (connection.js) as a value, and the
    effect of each of its handlers on that value. The class in connection.dfy
    keeps the same state in fields and arrays and is proved to change it
    exactly as these functions say; the lemmas here state what the handlers
    promise. */
module ConnectionState {
  import opened Packets
  import Modular

  const BUFFER_SIZE := 512
  const MTU := 1000
  const DEFAULT_TIMEOUT := 5000
  /** Retransmission threshold of _resend, in microseconds. */
  const RESEND_THRESHOLD := 500000

  /** Ring capacities the model supports: powers of two below 2^16, so that
      slot arithmetic on 16-bit sequence numbers is consistent. */
  predicate ValidBufferSize(n: int) {
    2 <= n < TWO16 && Modular.Divides(n, TWO16)
  }

  lemma DefaultBufferSize()
    ensures ValidBufferSize(BUFFER_SIZE)
  {
    Modular.DividesMod(BUFFER_SIZE, TWO16);
  }

  /** The ring slot of a sequence number (cyclist's `index & mask`). */
  function Slot(x: int, n: int): (k: int)
    requires n > 0
    ensures 0 <= k < n
  {
    Modular.Rem(x, n)
  }

  /** The slot j places after `base`. */
  function SlotAt(base: int, j: int, n: int): (k: int)
    requires n > 0
    ensures 0 <= k < n
  {
    Modular.Rem(base + j, n)
  }

  /** The slot j + 1 places after ack: the j-th one the drain loop visits. */
  function After(a: int, j: int, n: int): (k: int)
    requires n > 0
    ensures 0 <= k < n
  {
    Modular.Rem(a + 1 + j, n)
  }

  /** Advancing a 16-bit number by one moves its slot by one. */
  lemma NextSlot(a: int, j: int, n: int)
    requires ValidBufferSize(n)
    ensures SlotAt(Uint16(a + 1), j, n) == SlotAt(a + 1, j, n)
  {
    Modular.RemWrap(a + 1, j, n);
  }

  /** Constructor options; 0 means "not given", and `options.x || default` applies. */
  datatype Options = Options(bufferSize: nat, timeout: nat, mtu: nat)

  function OrDefault(x: nat, d: nat): (r: nat)
    ensures x != 0 ==> r == x
    ensures x == 0 ==> r == d
  {
    if x != 0 then x else d
  }

  /** A moment: Date.now() in milliseconds and timestamp() in microseconds (32 bits). */
  datatype Clock = Clock(ms: nat, us: int)

  predicate ValidClock(now: Clock) {
    IsU32(now.us)
  }

  /** What never changes after construction: the connection id, whether it was
      created from an inbound SYN, and the ring capacity. */
  datatype Config = Config(id: int, server: bool, bufferSize: int)

  predicate ValidConfig(cfg: Config) {
    IsU16(cfg.id) && ValidBufferSize(cfg.bufferSize)
  }

  /** An outgoing ring entry: the packet and its `sent` stamp. */
  datatype OutEntry = OutEntry(packet: Packet, sent: int)

  /** Everything a handler makes visible: datagrams handed to the socket and
      the events emitted to the stream and its listeners. */
  datatype Output =
    | Send(packet: Packet)     // socket.send of Encode(packet) to the peer
    | Push(data: seq<Byte>)    // bytes delivered to the readable side
    | PushEnd                  // push(null): end of the readable side
    | EndWritable              // end(): the writable side is finished
    | EmitConnect
    | EmitFlush
    | EmitTimeout
    | CloseScheduled           // 'close' emitted on the next tick

  datatype Snapshot = Snapshot(
    seqNr: int,
    ack: int,
    inflight: int,
    connecting: bool,
    closed: bool,
    alive: bool,
    timeoutMax: nat,
    timeoutSince: nat,
    mtu: int,
    synack: Option<OutEntry>,
    closeTicks: nat,
    outgoing: seq<Option<OutEntry>>,
    incoming: seq<Option<Packet>>,
    out: seq<Output>)

  predicate WellFormed(cfg: Config, s: Snapshot) {
    && ValidConfig(cfg)
    && IsU16(s.seqNr) && IsU16(s.ack)
    && s.inflight >= 0
    && s.mtu > 0
    && |s.outgoing| == cfg.bufferSize
    && |s.incoming| == cfg.bufferSize
    && (s.connecting ==> s.synack.None?)
  }

  /** createPacket: a header carrying the connection's id (plus one on the
      accepting side), its current seq and ack, the time, a zero timediff and
      the fixed window. Such a packet always fits the wire format. */
  function CreatePacket(cfg: Config, seqNr: int, ack: int, kind: int, data: Option<seq<Byte>>, ts: int): (p: Packet)
    requires ValidConfig(cfg) && IsU16(seqNr) && IsU16(ack) && IsPacketType(kind) && IsU32(ts)
    ensures Encodable(p)
    ensures p.id == kind && p.seqNr == seqNr && p.ack == ack && p.data == data
    ensures p.connection == if cfg.server then Uint16(cfg.id + 1) else cfg.id
    ensures p.timestamp == ts && p.timediff == 0 && p.window == DEFAULT_WINDOW_SIZE
  {
    Packet(kind, if cfg.server then Uint16(cfg.id + 1) else cfg.id, ts, 0, DEFAULT_WINDOW_SIZE, seqNr, ack, data)
  }

  /** Every packet a connection creates survives the wire: decoding its
      encoding gives it back, an empty payload read as absent. */
  lemma CreatedPacketRoundTrip(cfg: Config, seqNr: int, ack: int, kind: int, data: Option<seq<Byte>>, ts: int)
    requires ValidConfig(cfg) && IsU16(seqNr) && IsU16(ack) && IsPacketType(kind) && IsU32(ts)
    ensures var p := CreatePacket(cfg, seqNr, ack, kind, data, ts);
      Decode(Encode(p)) == Some(p.(data := NormalizeData(data)))
  {
    DecodeEncode(CreatePacket(cfg, seqNr, ack, kind, data, ts));
  }

  /** _transmit's stamp: the creation timestamp on the first send, now afterwards. */
  function Transmitted(e: OutEntry, nowUs: int): (r: OutEntry)
    ensures r.packet == e.packet
    ensures e.sent == 0 ==> r.sent == e.packet.timestamp
    ensures e.sent != 0 ==> r.sent == nowUs
  {
    e.(sent := if e.sent == 0 then e.packet.timestamp else nowUs)
  }

  // ---------------------------------------------------------------- construction

  function EmptyRing<T>(n: nat): (r: seq<Option<T>>)
    ensures |r| == n && forall k :: 0 <= k < n ==> r[k].None?
  {
    seq(n, _ => None)
  }

  /** The constructor. An outbound connection starts connecting with ack 0 and
      no cached reply; one created from a SYN starts with ack = syn.seq, builds
      the STATE reply, keeps it as the cached handshake reply and sends it. */
  function InitSpec(cfg: Config, syn: Option<Packet>, opts: Options, initSeq: int, now: Clock): (s: Snapshot)
    requires ValidConfig(cfg) && ValidClock(now)
    requires cfg.server == syn.Some? && cfg.bufferSize == OrDefault(opts.bufferSize, BUFFER_SIZE)
    requires 0 <= initSeq < UINT16_MAX
    requires syn.Some? ==> IsU16(syn.value.seqNr)
    ensures WellFormed(cfg, s) && InFlightOccupied(s)
    ensures s.connecting == syn.None? && s.inflight == 0 && !s.closed
    ensures s.seqNr == initSeq && s.closeTicks == 0
    ensures s.outgoing == EmptyRing(cfg.bufferSize) && s.incoming == EmptyRing(cfg.bufferSize)
    ensures s.mtu == OrDefault(opts.mtu, MTU) && s.timeoutMax == OrDefault(opts.timeout, DEFAULT_TIMEOUT)
    ensures s.timeoutSince == now.ms
    ensures syn.None? ==> s.ack == 0 && !s.alive && s.out == [] && s.synack.None?
    ensures syn.Some? ==> s.synack.Some? && s.ack == syn.value.seqNr && s.alive
    ensures syn.Some? && s.synack.Some? ==>
      var e := s.synack.value;
      && s.out == [Send(e.packet)]
      && e.packet.id == PACKET_STATE && e.packet.seqNr == initSeq && e.packet.ack == syn.value.seqNr
      && e.packet.connection == Uint16(cfg.id + 1) && e.packet.data.None? && e.sent == now.us
  {
    var base := Snapshot(
      seqNr := initSeq, ack := 0, inflight := 0,
      connecting := true, closed := false, alive := false,
      timeoutMax := OrDefault(opts.timeout, DEFAULT_TIMEOUT), timeoutSince := now.ms,
      mtu := OrDefault(opts.mtu, MTU), synack := None, closeTicks := 0,
      outgoing := EmptyRing(cfg.bufferSize), incoming := EmptyRing(cfg.bufferSize), out := []);
    match syn
    case None => base
    case Some(q) =>
      var reply := Transmitted(OutEntry(CreatePacket(cfg, initSeq, q.seqNr, PACKET_STATE, None, now.us), 0), now.us);
      base.(connecting := false, ack := q.seqNr, synack := Some(reply), alive := true, out := [Send(reply.packet)])
  }

  const UINT16_MAX := 0xFFFF

  // ---------------------------------------------------------------- sending

  /** _sendOutgoing of a freshly created packet of the given kind: store it in
      outgoing slot seq mod bufferSize, advance seq modulo 2^16, count it in
      flight, and transmit it. */
  function SendOutgoingSpec(cfg: Config, s: Snapshot, kind: int, data: Option<seq<Byte>>, now: Clock): (r: Snapshot)
    requires WellFormed(cfg, s) && ValidClock(now) && IsPacketType(kind)
    ensures WellFormed(cfg, r)
    ensures r.seqNr == Uint16(s.seqNr + 1) && r.inflight == s.inflight + 1 && r.alive
    ensures |r.out| == |s.out| + 1 && r.out[..|s.out|] == s.out && r.out[|s.out|].Send?
    ensures r.out[|s.out|].packet.id == kind && r.out[|s.out|].packet.seqNr == s.seqNr
    ensures r.(outgoing := s.outgoing, seqNr := s.seqNr, inflight := s.inflight, alive := s.alive, out := s.out) == s
  {
    var p := CreatePacket(cfg, s.seqNr, s.ack, kind, data, now.us);
    s.(outgoing := s.outgoing[Slot(p.seqNr, cfg.bufferSize) := Some(Transmitted(OutEntry(p, 0), now.us))],
       seqNr := Uint16(s.seqNr + 1),
       inflight := s.inflight + 1,
       alive := true,
       out := s.out + [Send(p)])
  }

  /** What _sendOutgoing does: the packet, carrying the current seq and
      ack, goes into outgoing slot seq mod bufferSize stamped with its
      creation time, every other slot is kept, seq advances by one modulo
      2^16, one more packet is in flight, and exactly that packet is sent. */
  lemma SendOutgoingEffect(cfg: Config, s: Snapshot, kind: int, data: Option<seq<Byte>>, now: Clock)
    requires WellFormed(cfg, s) && ValidClock(now) && IsPacketType(kind)
    ensures var r := SendOutgoingSpec(cfg, s, kind, data, now);
      var n := cfg.bufferSize;
      var k := Slot(s.seqNr, n);
      var p := r.outgoing[k].value.packet;
      && r.outgoing[k].Some? && r.outgoing[k].value.sent == now.us
      && p.id == kind && p.seqNr == s.seqNr && p.ack == s.ack && p.data == data
      && (forall j :: 0 <= j < n && j != k ==> r.outgoing[j] == s.outgoing[j])
      && r.seqNr == (s.seqNr + 1) % TWO16
      && r.inflight == s.inflight + 1
      && r.out == s.out + [Send(p)]
      && r.ack == s.ack && r.incoming == s.incoming && r.connecting == s.connecting && r.closed == s.closed
  {}

  /** _sendAck: transmit a STATE packet carrying the current ack. */
  function SendAckSpec(cfg: Config, s: Snapshot, now: Clock): (r: Snapshot)
    requires WellFormed(cfg, s) && ValidClock(now)
    ensures WellFormed(cfg, r)
    ensures r.alive && |r.out| == |s.out| + 1 && r.out[..|s.out|] == s.out && r.out[|s.out|].Send?
    ensures var q := r.out[|s.out|].packet;
      q.id == PACKET_STATE && q.seqNr == s.seqNr && q.ack == s.ack && q.data.None?
    ensures r.(alive := s.alive, out := s.out) == s
  {
    s.(alive := true, out := s.out + [Send(CreatePacket(cfg, s.seqNr, s.ack, PACKET_STATE, None, now.us))])
  }

  /** Connection.reset: a RESET packet addressed either with a connection's
      own id, seq and ack, or with a bare id and zero seq and ack. */
  datatype ResetTarget = OfConnection(cfg: Config, seqNr: int, ack: int) | OfId(id: int)

  function ResetPacket(t: ResetTarget, now: Clock): (p: Packet)
    requires ValidClock(now)
    requires t.OfConnection? ==> ValidConfig(t.cfg) && IsU16(t.seqNr) && IsU16(t.ack)
    requires t.OfId? ==> IsU16(t.id)
    ensures Encodable(p) && p.id == PACKET_RESET && p.data.None? && p.timestamp == now.us
    ensures t.OfConnection? ==> p.seqNr == t.seqNr && p.ack == t.ack
                                && p.connection == (if t.cfg.server then Uint16(t.cfg.id + 1) else t.cfg.id)
    ensures t.OfId? ==> p.connection == t.id && p.seqNr == 0 && p.ack == 0
  {
    match t
    case OfConnection(cfg, sq, ak) => CreatePacket(cfg, sq, ak, PACKET_RESET, None, now.us)
    case OfId(id) =>
      DefaultBufferSize();
      CreatePacket(Config(id, false, BUFFER_SIZE), 0, 0, PACKET_RESET, None, now.us)
  }

  // ---------------------------------------------------------------- acknowledgement

  /** The outgoing ring with the `count` slots starting at `offset` emptied. */
  function ClearRun<T>(ring: seq<Option<T>>, offset: int, count: int): (r: seq<Option<T>>)
    requires |ring| > 0
    ensures |r| == |ring|
  {
    seq(|ring|, k requires 0 <= k < |ring| => if Slot(k - offset, |ring|) < count then None else ring[k])
  }

  /** Number of packets a cumulative ack covers: uint16(ack - (seq - inflight)) + 1. */
  function Acked(s: Snapshot, ackNr: int): (a: int)
    ensures 1 <= a <= TWO16
  {
    Uint16(ackNr - (s.seqNr - s.inflight)) + 1
  }

  /** _recvAck. An ack covering bufferSize packets or more is ignored (the
      sanity check); otherwise that many slots from the oldest in-flight one
      are emptied, the in-flight count drops by as many, floored at zero, and
      'flush' is emitted when nothing is left in flight. */
  function RecvAckSpec(cfg: Config, s: Snapshot, ackNr: int): (r: Snapshot)
    requires WellFormed(cfg, s)
    ensures WellFormed(cfg, r)
    ensures r.out == s.out || r.out == s.out + [EmitFlush]
    ensures r.(outgoing := s.outgoing, inflight := s.inflight, out := s.out) == s
  {
    var offset := s.seqNr - s.inflight;
    var acked := Acked(s, ackNr);
    if acked >= cfg.bufferSize then s
    else
      var left := if s.inflight - acked < 0 then 0 else s.inflight - acked;
      s.(outgoing := ClearRun(s.outgoing, offset, acked),
         inflight := left,
         out := if left == 0 then s.out + [EmitFlush] else s.out)
  }

  /** What one cumulative ack does: ignored when it covers bufferSize packets
      or more; otherwise exactly the `acked` slots following the oldest
      in-flight one are emptied, every other slot is kept, the count never
      goes below zero nor drops by more than bufferSize - 1, and 'flush' is
      signalled exactly when the count ends at zero. */
  lemma RecvAckEffect(cfg: Config, s: Snapshot, ackNr: int)
    requires WellFormed(cfg, s)
    ensures var r := RecvAckSpec(cfg, s, ackNr);
      var n := cfg.bufferSize;
      var offset := s.seqNr - s.inflight;
      var acked := Acked(s, ackNr);
      && (acked >= n ==> r == s)
      && (acked < n ==>
            && r.inflight == (if s.inflight >= acked then s.inflight - acked else 0)
            && 0 <= s.inflight - r.inflight <= n - 1
            && (forall j :: 0 <= j < acked ==> r.outgoing[SlotAt(offset, j, n)].None?)
            && (forall k :: 0 <= k < n && Slot(k - offset, n) >= acked ==> r.outgoing[k] == s.outgoing[k])
            && (r.out == s.out + [EmitFlush] <==> r.inflight == 0)
            && (r.inflight != 0 ==> r.out == s.out)
            && r.seqNr == s.seqNr && r.ack == s.ack && r.incoming == s.incoming)
  {
    var n := cfg.bufferSize;
    var offset := s.seqNr - s.inflight;
    var acked := Acked(s, ackNr);
    if acked < n {
      var r := RecvAckSpec(cfg, s, ackNr);
      forall j | 0 <= j < acked ensures r.outgoing[SlotAt(offset, j, n)].None? {
        var k := SlotAt(offset, j, n);
        Modular.SlotDistance(k, offset, j, n);
        assert Slot(k - offset, n) == j;
      }
      if r.inflight == 0 {
        assert r.out == s.out + [EmitFlush];
      } else {
        assert |r.out| == |s.out|;
      }
    }
  }

  /** An ack for the sequence number just sent covers everything in flight. */
  lemma AckOfLastSent(seqNr: int, inflight: int, n: int)
    requires IsU16(seqNr) && 0 <= inflight < n - 1 && ValidBufferSize(n)
    ensures var offset := Uint16(seqNr + 1) - (inflight + 1);
      && Uint16(seqNr - offset) == inflight
      && SlotAt(offset, inflight, n) == Slot(seqNr, n)
  {
    var u := Uint16(seqNr + 1);
    var offset := u - (inflight + 1);
    if seqNr < UINT16_MAX {
      assert u == seqNr + 1;
    } else {
      assert u == 0;
      Modular.ModUnique(seqNr - offset, TWO16, 1, inflight);
      assert offset + inflight == -1;
      Modular.RemWrap(-1, 0, n);
    }
  }

  /** Inverse of sending: with fewer than bufferSize - 1 packets in flight,
      sending one more and then receiving an ack for exactly its sequence
      number empties its slot and leaves nothing in flight. */
  lemma SendThenAck(cfg: Config, s: Snapshot, kind: int, data: Option<seq<Byte>>, now: Clock)
    requires WellFormed(cfg, s) && ValidClock(now) && IsPacketType(kind)
    requires s.inflight < cfg.bufferSize - 1
    ensures var sent := SendOutgoingSpec(cfg, s, kind, data, now);
      var r := RecvAckSpec(cfg, sent, s.seqNr);
      && sent.inflight == s.inflight + 1
      && sent.outgoing[Slot(s.seqNr, cfg.bufferSize)].Some?
      && r.inflight == 0
      && r.outgoing[Slot(s.seqNr, cfg.bufferSize)].None?
      && r.out == sent.out + [EmitFlush]
  {
    var n := cfg.bufferSize;
    var sent := SendOutgoingSpec(cfg, s, kind, data, now);
    AckOfLastSent(s.seqNr, s.inflight, n);
    assert Acked(sent, s.seqNr) == s.inflight + 1;
    RecvAckEffect(cfg, sent, s.seqNr);
    var r := RecvAckSpec(cfg, sent, s.seqNr);
    assert r.outgoing[SlotAt(sent.seqNr - sent.inflight, s.inflight, n)].None?;
  }

  // ---------------------------------------------------------------- writing

  /** _payload: at most mtu bytes from the front of the data. */
  function Payload(data: seq<Byte>, mtu: int): (p: seq<Byte>)
    requires mtu > 0
    ensures |p| <= mtu && p <= data
    ensures |p| == |data| <==> |data| <= mtu
  {
    if |data| > mtu then data[..mtu] else data
  }

  datatype WaitEvent = OnConnect | OnFlush

  /** How a write call ends: all bytes handed to DATA packets, or the rest
      queued until the named event re-runs the write with it. */
  datatype WriteOutcome = Completed | WaitFor(event: WaitEvent, rest: seq<Byte>)

  datatype Written = Written(state: Snapshot, outcome: WriteOutcome)

  /** The loop of _write: while fewer than bufferSize - 1 packets are in
      flight, cut a payload, send it as DATA, and stop when it was the last.
      It only appends to the log, and stops either with every byte sent and
      the window not overfull, or waiting for 'flush' with the window full. */
  function WriteLoop(cfg: Config, s: Snapshot, data: seq<Byte>, now: Clock): (w: Written)
    requires WellFormed(cfg, s) && ValidClock(now)
    ensures WellFormed(cfg, w.state)
    ensures |w.state.out| >= |s.out|
    ensures w.state.mtu == s.mtu && w.state.inflight >= s.inflight
    ensures w.outcome.Completed? ==> w.state.inflight <= cfg.bufferSize - 1
    ensures w.outcome.WaitFor? ==> w.outcome.event == OnFlush && w.state.inflight >= cfg.bufferSize - 1
    ensures w.state.(outgoing := s.outgoing, seqNr := s.seqNr, inflight := s.inflight, alive := s.alive, out := s.out) == s
    decreases cfg.bufferSize - s.inflight
  {
    if !(s.inflight < cfg.bufferSize - 1) then Written(s, WaitFor(OnFlush, data))
    else
      var payload := Payload(data, s.mtu);
      var s' := SendOutgoingSpec(cfg, s, PACKET_DATA, Some(payload), now);
      if |payload| == |data| then Written(s', Completed)
      else WriteLoop(cfg, s', data[|payload|..], now)
  }

  /** The write loop only appends to the log. */
  lemma {:induction false} WriteLoopAppends(cfg: Config, s: Snapshot, data: seq<Byte>, now: Clock)
    requires WellFormed(cfg, s) && ValidClock(now)
    ensures var w := WriteLoop(cfg, s, data, now);
      w.state.out == s.out + w.state.out[|s.out|..]
    decreases cfg.bufferSize - s.inflight
  {
    if s.inflight < cfg.bufferSize - 1 {
      var payload := Payload(data, s.mtu);
      var s' := SendOutgoingSpec(cfg, s, PACKET_DATA, Some(payload), now);
      if |payload| != |data| {
        var w := WriteLoop(cfg, s', data[|payload|..], now);
        WriteLoopAppends(cfg, s', data[|payload|..], now);
        assert s'.out == s.out + [Send(CreatePacket(cfg, s.seqNr, s.ack, PACKET_DATA, Some(payload), now.us))];
        assert w.state.out[|s.out|..] == s'.out[|s.out|..] + w.state.out[|s'.out|..];
      }
    }
  }

  /** _write: a write issued while connecting waits for 'connect'. */
  function WriteSpec(cfg: Config, s: Snapshot, data: seq<Byte>, now: Clock): (w: Written)
    requires WellFormed(cfg, s) && ValidClock(now)
    ensures WellFormed(cfg, w.state)
    ensures |w.state.out| >= |s.out|
    ensures s.connecting ==> w == Written(s, WaitFor(OnConnect, data))
    ensures !s.connecting && w.outcome.WaitFor? ==> w.outcome.event == OnFlush && w.state.inflight >= cfg.bufferSize - 1
    ensures !s.connecting && w.outcome.Completed? ==> w.state.inflight <= cfg.bufferSize - 1
    ensures w.state.(outgoing := s.outgoing, seqNr := s.seqNr, inflight := s.inflight, alive := s.alive, out := s.out) == s
  {
    if s.connecting then Written(s, WaitFor(OnConnect, data))
    else WriteLoop(cfg, s, data, now)
  }

  /** The payload bytes of the datagrams in an output log, in order. */
  function SentPayloads(outs: seq<Output>): seq<Byte> {
    if outs == [] then []
    else (if outs[0].Send? then PayloadOf(outs[0].packet.data) else []) + SentPayloads(outs[1..])
  }

  /** Every entry is a DATA datagram with a payload of at most mtu bytes. */
  predicate DataChunks(outs: seq<Output>, mtu: int) {
    forall i :: 0 <= i < |outs| ==>
      outs[i].Send? && outs[i].packet.id == PACKET_DATA && outs[i].packet.data.Some?
      && |outs[i].packet.data.value| <= mtu
  }

  function Rest(o: WriteOutcome): seq<Byte> {
    match o
    case Completed => []
    case WaitFor(_, rest) => rest
  }

  /** Chunking and the window gate of _write: it only appends DATA datagrams,
      each payload at most mtu bytes, numbered consecutively from seq and each
      counted in flight; their payloads followed by the bytes left waiting are
      exactly the bytes written; nothing is sent while connecting or while
      bufferSize - 1 packets are in flight; a write stops either with every
      byte sent or waiting for 'flush' with the window full. */
  lemma WriteChunking(cfg: Config, s: Snapshot, data: seq<Byte>, now: Clock)
    requires WellFormed(cfg, s) && ValidClock(now)
    ensures var w := WriteSpec(cfg, s, data, now);
      var added := w.state.out[|s.out|..];
      && w.state.out == s.out + added
      && DataChunks(added, s.mtu)
      && NumberedFrom(added, s.seqNr)
      && SentPayloads(added) + Rest(w.outcome) == data
      && w.state.inflight == s.inflight + |added|
      && w.state.seqNr == Uint16(s.seqNr + |added|)
      && (s.connecting ==> w == Written(s, WaitFor(OnConnect, data)))
      && (!s.connecting && s.inflight >= cfg.bufferSize - 1 ==> added == [])
      && (!s.connecting && w.outcome.WaitFor? ==> w.outcome.event == OnFlush && w.state.inflight >= cfg.bufferSize - 1)
      && (w.outcome.Completed? ==> w.state.inflight <= cfg.bufferSize - 1)
  {
    if !s.connecting {
      WriteLoopAppends(cfg, s, data, now);
      WriteLoopData(cfg, s, data, now);
      WriteLoopPayloads(cfg, s, data, now);
      WriteLoopNumbers(cfg, s, data, now);
      WriteLoopCount(cfg, s, data, now);
      WriteLoopSeq(cfg, s, data, now);
    } else {
      assert WriteSpec(cfg, s, data, now).state.out[|s.out|..] == [];
    }
  }

  /** One iteration of the write loop appends one datagram to the log. */
  lemma WriteStep(cfg: Config, s: Snapshot, data: seq<Byte>, now: Clock)
    requires WellFormed(cfg, s) && ValidClock(now) && s.inflight < cfg.bufferSize - 1
    ensures var payload := Payload(data, s.mtu);
      var s' := SendOutgoingSpec(cfg, s, PACKET_DATA, Some(payload), now);
      var w := WriteLoop(cfg, s, data, now);
      && s'.out == s.out + [Send(s'.out[|s.out|].packet)]
      && s'.out[|s.out|].packet.id == PACKET_DATA
      && s'.out[|s.out|].packet.data == Some(payload)
      && s'.out[|s.out|].packet.seqNr == s.seqNr
      && w.state.out[|s.out|..] == [s'.out[|s.out|]] + w.state.out[|s'.out|..]
  {
    var payload := Payload(data, s.mtu);
    var s' := SendOutgoingSpec(cfg, s, PACKET_DATA, Some(payload), now);
    var w := WriteLoop(cfg, s, data, now);
    var x := s'.out[|s.out|];
    assert s'.out == s.out + [x];
    assert w.state.out == s'.out + w.state.out[|s'.out|..] by {
      if |payload| != |data| {
        WriteLoopAppends(cfg, s', data[|payload|..], now);
      }
    }
    assert w.state.out[|s.out|..] == [x] + w.state.out[|s'.out|..];
  }

  lemma {:induction false} WriteLoopData(cfg: Config, s: Snapshot, data: seq<Byte>, now: Clock)
    requires WellFormed(cfg, s) && ValidClock(now)
    ensures var w := WriteLoop(cfg, s, data, now);
      DataChunks(w.state.out[|s.out|..], s.mtu)
    decreases cfg.bufferSize - s.inflight
  {
    var w := WriteLoop(cfg, s, data, now);
    if s.inflight < cfg.bufferSize - 1 {
      var payload := Payload(data, s.mtu);
      var s' := SendOutgoingSpec(cfg, s, PACKET_DATA, Some(payload), now);
      WriteStep(cfg, s, data, now);
      var tail := w.state.out[|s'.out|..];
      assert DataChunks(tail, s.mtu) by {
        if |payload| != |data| {
          assert w == WriteLoop(cfg, s', data[|payload|..], now);
          WriteLoopData(cfg, s', data[|payload|..], now);
        } else {
          assert tail == [];
        }
      }
      assert w.state.out[|s.out|..] == [s'.out[|s.out|]] + tail;
    } else {
      assert w.state.out[|s.out|..] == [];
    }
  }

  lemma {:induction false} WriteLoopPayloads(cfg: Config, s: Snapshot, data: seq<Byte>, now: Clock)
    requires WellFormed(cfg, s) && ValidClock(now)
    ensures var w := WriteLoop(cfg, s, data, now);
      SentPayloads(w.state.out[|s.out|..]) + Rest(w.outcome) == data
    decreases cfg.bufferSize - s.inflight
  {
    var w := WriteLoop(cfg, s, data, now);
    if s.inflight < cfg.bufferSize - 1 {
      var payload := Payload(data, s.mtu);
      var s' := SendOutgoingSpec(cfg, s, PACKET_DATA, Some(payload), now);
      WriteStep(cfg, s, data, now);
      var tail := w.state.out[|s'.out|..];
      var rest := data[|payload|..];
      assert SentPayloads(tail) + Rest(w.outcome) == rest by {
        if |payload| != |data| {
          assert w == WriteLoop(cfg, s', rest, now);
          WriteLoopPayloads(cfg, s', rest, now);
        } else {
          assert tail == [] && rest == [];
        }
      }
      SentPayloadsCons(s'.out[|s.out|], tail);
      SplitJoin(payload, SentPayloads(tail), Rest(w.outcome), data);
    } else {
      assert w.state.out[|s.out|..] == [];
    }
  }

  lemma SentPayloadsCons(x: Output, tail: seq<Output>)
    ensures SentPayloads([x] + tail) == (if x.Send? then PayloadOf(x.packet.data) else []) + SentPayloads(tail)
  {
    assert ([x] + tail)[1..] == tail;
  }

  lemma SplitJoin<T>(a: seq<T>, b: seq<T>, c: seq<T>, d: seq<T>)
    requires |a| <= |d| && a == d[..|a|] && b + c == d[|a|..]
    ensures (a + b) + c == d
  {
    assert d == d[..|a|] + d[|a|..];
  }

  /** The log holds datagrams numbered consecutively from sq, each number
      the uint16 successor of the one before. */
  predicate NumberedFrom(outs: seq<Output>, sq: int) {
    outs == [] || (outs[0].Send? && outs[0].packet.seqNr == sq && NumberedFrom(outs[1..], Uint16(sq + 1)))
  }

  lemma NumberedCons(x: Output, rest: seq<Output>, sq: int)
    requires x.Send? && x.packet.seqNr == sq && NumberedFrom(rest, Uint16(sq + 1))
    ensures NumberedFrom([x] + rest, sq)
  {
    assert ([x] + rest)[1..] == rest;
  }

  /** Datagram i of a log numbered from sq carries uint16(sq + i). */
  lemma {:induction false} NumberedAt(outs: seq<Output>, sq: int, i: int)
    requires NumberedFrom(outs, sq) && IsU16(sq) && 0 <= i < |outs|
    ensures outs[i].Send? && outs[i].packet.seqNr == Uint16(sq + i)
  {
    if i > 0 {
      NumberedAt(outs[1..], Uint16(sq + 1), i - 1);
      Uint16Shift(sq + 1, i - 1);
    }
  }

  lemma {:induction false} WriteLoopNumbers(cfg: Config, s: Snapshot, data: seq<Byte>, now: Clock)
    requires WellFormed(cfg, s) && ValidClock(now)
    ensures var w := WriteLoop(cfg, s, data, now);
      NumberedFrom(w.state.out[|s.out|..], s.seqNr)
    decreases cfg.bufferSize - s.inflight
  {
    var w := WriteLoop(cfg, s, data, now);
    if s.inflight < cfg.bufferSize - 1 {
      var payload := Payload(data, s.mtu);
      var s' := SendOutgoingSpec(cfg, s, PACKET_DATA, Some(payload), now);
      WriteStep(cfg, s, data, now);
      var tail := w.state.out[|s'.out|..];
      assert NumberedFrom(tail, Uint16(s.seqNr + 1)) by {
        if |payload| != |data| {
          var rest := data[|payload|..];
          assert w == WriteLoop(cfg, s', rest, now);
          WriteLoopNumbers(cfg, s', rest, now);
        } else {
          assert tail == [];
        }
      }
      NumberedCons(s'.out[|s.out|], tail, s.seqNr);
    } else {
      assert w.state.out[|s.out|..] == [];
    }
  }

  lemma {:induction false} WriteLoopCount(cfg: Config, s: Snapshot, data: seq<Byte>, now: Clock)
    requires WellFormed(cfg, s) && ValidClock(now)
    ensures var w := WriteLoop(cfg, s, data, now);
      w.state.inflight == s.inflight + (|w.state.out| - |s.out|)
    decreases cfg.bufferSize - s.inflight
  {
    if s.inflight < cfg.bufferSize - 1 {
      var payload := Payload(data, s.mtu);
      var s' := SendOutgoingSpec(cfg, s, PACKET_DATA, Some(payload), now);
      if |payload| != |data| {
        WriteLoopCount(cfg, s', data[|payload|..], now);
      }
    }
  }

  /** One turn of the write loop when more data remains. */
  lemma WriteLoopUnfold(cfg: Config, s: Snapshot, data: seq<Byte>, now: Clock)
    requires WellFormed(cfg, s) && ValidClock(now) && s.inflight < cfg.bufferSize - 1
    requires |Payload(data, s.mtu)| != |data|
    ensures var payload := Payload(data, s.mtu);
      WriteLoop(cfg, s, data, now)
        == WriteLoop(cfg, SendOutgoingSpec(cfg, s, PACKET_DATA, Some(payload), now), data[|payload|..], now)
  {}

  lemma {:induction false} WriteLoopSeq(cfg: Config, s: Snapshot, data: seq<Byte>, now: Clock)
    requires WellFormed(cfg, s) && ValidClock(now)
    ensures var w := WriteLoop(cfg, s, data, now);
      w.state.seqNr == Uint16(s.seqNr + (|w.state.out| - |s.out|))
    decreases cfg.bufferSize - s.inflight
  {
    if s.inflight < cfg.bufferSize - 1 {
      var payload := Payload(data, s.mtu);
      var s' := SendOutgoingSpec(cfg, s, PACKET_DATA, Some(payload), now);
      if |payload| != |data| {
        var w := WriteLoop(cfg, s', data[|payload|..], now);
        WriteLoopUnfold(cfg, s, data, now);
        var k := |w.state.out| - |s'.out|;
        assert w.state.seqNr == Uint16(s.seqNr + 1 + k) by {
          WriteLoopSeq(cfg, s', data[|payload|..], now);
          Uint16Shift(s.seqNr + 1, k);
        }
        assert s.seqNr + 1 + k == s.seqNr + (|w.state.out| - |s.out|);
      } else {
        assert WriteLoop(cfg, s, data, now).state == s';
      }
    } else {
      assert WriteLoop(cfg, s, data, now).state == s;
    }
  }

  lemma Uint16Shift(x: int, k: int)
    ensures Uint16(Uint16(x) + k) == Uint16(x + k)
  {
    Modular.Wrap(x, k, TWO16);
  }

  // ---------------------------------------------------------------- receiving

  /** The stale filter of _recvIncoming as written: out of window when
      uint16(seq - ack) >= bufferSize, or when seq < uint16(ack + 1) compared
      as plain numbers. */
  predicate Stale(seqNr: int, ack: int, n: int) {
    Uint16(seqNr - ack) >= n || seqNr < Uint16(ack + 1)
  }

  /** Which sequence numbers the filter lets through: below ack 65535 exactly
      those in (ack, ack + bufferSize) without wrapping, so a packet that is in
      the window but past the 65535 wrap is turned away; at ack 65535 those
      below bufferSize - 1, and also 65535 itself, a duplicate of the packet
      already acknowledged. */
  lemma StaleFilterWindow(seqNr: int, ack: int, n: int)
    requires IsU16(seqNr) && IsU16(ack) && ValidBufferSize(n)
    ensures !Stale(seqNr, ack, n) <==>
      if ack < UINT16_MAX then ack < seqNr < ack + n
      else seqNr < n - 1 || seqNr == UINT16_MAX
  {
    if ack < UINT16_MAX {
      if seqNr > ack {
        assert Uint16(seqNr - ack) == seqNr - ack;
      }
    } else {
      if seqNr < UINT16_MAX {
        Modular.ModUnique(seqNr - ack, TWO16, -1, seqNr + 1);
      }
    }
  }

  /** Two instances with the default capacity: an in-window packet just past
      the wrap is treated as old, and a repeat of seq 65535 is accepted. */
  lemma StaleFilterWrapCases()
    ensures Uint16(2 - 65530) < BUFFER_SIZE && Stale(2, 65530, BUFFER_SIZE)
    ensures !Stale(65535, 65535, BUFFER_SIZE)
  {
    DefaultBufferSize();
    StaleFilterWindow(2, 65530, BUFFER_SIZE);
    StaleFilterWindow(65535, 65535, BUFFER_SIZE);
  }

  function CountSome<T>(s: seq<Option<T>>): (c: nat)
    ensures c <= |s|
  {
    CountFrom(s, 0)
  }

  /** The number of occupied slots at positions i and above. */
  function CountFrom<T>(s: seq<Option<T>>, i: nat): (c: nat)
    requires i <= |s|
    ensures c <= |s| - i
    decreases |s| - i
  {
    if i == |s| then 0 else (if s[i].Some? then 1 else 0) + CountFrom(s, i + 1)
  }

  lemma CountSomeClear<T>(s: seq<Option<T>>, k: int)
    requires 0 <= k < |s| && s[k].Some?
    ensures CountSome(s[k := None]) == CountSome(s) - 1
  {
    CountFromClear(s, k, 0);
  }

  /** Emptying an occupied slot at or above i lowers the count from i by one. */
  lemma {:induction false} CountFromClear<T>(s: seq<Option<T>>, k: int, i: nat)
    requires i <= k < |s| && s[k].Some?
    ensures CountFrom(s[k := None], i) == CountFrom(s, i) - 1
    decreases |s| - i
  {
    if i < k {
      CountFromClear(s, k, i + 1);
    } else {
      CountFromAbove(s, k, i + 1);
    }
  }

  /** Slots below i do not count from i. */
  lemma {:induction false} CountFromAbove<T>(s: seq<Option<T>>, k: int, i: nat)
    requires 0 <= k < i <= |s|
    ensures CountFrom(s[k := None], i) == CountFrom(s, i)
    decreases |s| - i
  {
    if i < |s| {
      CountFromAbove(s, k, i + 1);
    }
  }

  /** What a packet popped by the drain loop delivers: a DATA payload, or the
      end of the stream for a FIN. */
  function Deliver(q: Packet): seq<Output> {
    (if q.id == PACKET_DATA && q.data.Some? then [Push(q.data.value)] else [])
    + (if q.id == PACKET_FIN then [PushEnd] else [])
  }

  function DeliverOpt(q: Option<Packet>): seq<Output> {
    if q.Some? then Deliver(q.value) else []
  }

  datatype Drained = Drained(ring: seq<Option<Packet>>, ack: int, log: seq<Output>)

  /** The drain loop: while incoming slot ack + 1 holds a packet, take it out,
      advance ack modulo 2^16 and deliver it. It always stops with the next
      expected slot empty. */
  function Drain(ring: seq<Option<Packet>>, a: int, n: int): (r: Drained)
    requires |ring| == n && ValidBufferSize(n) && IsU16(a)
    ensures |r.ring| == n && IsU16(r.ack)
    ensures r.ring[After(r.ack, 0, n)].None?
    ensures CountSome(r.ring) <= CountSome(ring)
    decreases CountSome(ring)
  {
    var k := Slot(a + 1, n);
    match ring[k]
    case None => Drained(ring, a, [])
    case Some(q) =>
      CountSomeClear(ring, k);
      var rest := Drain(ring[k := None], Uint16(a + 1), n);
      Drained(rest.ring, rest.ack, Deliver(q) + rest.log)
  }

  /** What the packets in the k slots after ack deliver, in slot order. */
  function DeliverRun(ring: seq<Option<Packet>>, a: int, k: nat): seq<Output>
    requires |ring| > 0
    decreases k
  {
    if k == 0 then [] else DeliverOpt(ring[After(a, 0, |ring|)]) + DeliverRun(ring, a + 1, k - 1)
  }

  lemma {:induction false} DeliverRunSame(r1: seq<Option<Packet>>, a1: int, r2: seq<Option<Packet>>, a2: int, k: nat)
    requires |r1| == |r2| > 0
    requires forall j :: 0 <= j < k ==> r1[After(a1, j, |r1|)] == r2[After(a2, j, |r2|)]
    ensures DeliverRun(r1, a1, k) == DeliverRun(r2, a2, k)
    decreases k
  {
    if k > 0 {
      assert r1[After(a1, 0, |r1|)] == r2[After(a2, 0, |r2|)];
      var b1, b2 := a1 + 1, a2 + 1;
      forall j | 0 <= j < k - 1 ensures r1[After(b1, j, |r1|)] == r2[After(b2, j, |r2|)] {
        assert r1[After(a1, j + 1, |r1|)] == r2[After(a2, j + 1, |r2|)];
      }
      DeliverRunSame(r1, b1, r2, b2, k - 1);
    }
  }

  /** Advancing ack by one shortens its distance to any later value by one. */
  lemma AckStep(x: int, a: int)
    requires Uint16(x - Uint16(a + 1)) < UINT16_MAX
    ensures Uint16(x - a) == Uint16(x - Uint16(a + 1)) + 1
  {
    var a' := Uint16(a + 1);
    var k' := Uint16(x - a');
    var q := (x - a') / TWO16;
    var m := ((a + 1) - a') / TWO16;
    assert x - a' == q * TWO16 + k';
    assert (a + 1) - a' == m * TWO16;
    Modular.ModUnique(x - a, TWO16, q - m, k' + 1);
  }

  /** The distance of a slot from the one after ack shrinks by one when ack
      advances, and the slot right after the old ack becomes the farthest. */
  lemma DistanceStep(i: int, a: int, n: int)
    requires ValidBufferSize(n) && 0 <= i < n
    ensures Slot(i - (a + 1), n) >= 1 ==> Slot(i - (Uint16(a + 1) + 1), n) == Slot(i - (a + 1), n) - 1
    ensures Slot(i - (a + 1), n) == 0 ==> Slot(i - (Uint16(a + 1) + 1), n) == n - 1
  {
    Modular.RemIsMod(i - (a + 1), n);
    Modular.RemIsMod(i - (Uint16(a + 1) + 1), n);
    Modular.DividesMod(n, TWO16);
    DistanceStepMod(i, a, n);
  }

  lemma DistanceStepMod(i: int, a: int, n: int)
    requires 0 < n && TWO16 % n == 0 && 0 <= i < n
    ensures (i - (a + 1)) % n >= 1 ==> (i - (Uint16(a + 1) + 1)) % n == (i - (a + 1)) % n - 1
    ensures (i - (a + 1)) % n == 0 ==> (i - (Uint16(a + 1) + 1)) % n == n - 1
  {
    var m := (a + 1) / TWO16;
    assert i - (Uint16(a + 1) + 1) == i - (a + 2) + m * TWO16;
    assert m * TWO16 == (m * (TWO16 / n)) * n;
    Modular.ModShift(i - (a + 2), m * (TWO16 / n), n);
    var d := (i - (a + 1)) % n;
    var q := (i - (a + 1)) / n;
    if d >= 1 {
      Modular.ModUnique(i - (a + 2), n, q, d - 1);
    } else {
      Modular.ModUnique(i - (a + 2), n, q - 1, n - 1);
    }
  }

  /** The k slots after ack `a` were occupied in `ring` and are empty in `r`. */
  predicate RunCleared(ring: seq<Option<Packet>>, r: seq<Option<Packet>>, a: int, n: int, k: int)
    requires |ring| == n && |r| == n && n > 0
  {
    forall j :: 0 <= j < k ==> ring[After(a, j, n)].Some? && r[After(a, j, n)].None?
  }

  /** Every slot at least k places after the one following ack `a` is untouched. */
  predicate RestKept(ring: seq<Option<Packet>>, r: seq<Option<Packet>>, a: int, n: int, k: int)
    requires |ring| == n && |r| == n && n > 0
  {
    forall j :: 0 <= k <= j < n ==> r[After(a, j, n)] == ring[After(a, j, n)]
  }

  /** The outcome `r` of draining `ring` from ack `a`: if ack advanced k
      times, the k slots after the old ack were all occupied and are now
      empty, every other slot is untouched, k is the number of packets taken
      out, and what was delivered is what those k packets carry, in order. */
  predicate DrainedRun(ring: seq<Option<Packet>>, a: int, n: int, r: Drained)
    requires |ring| == n && |r.ring| == n && n > 0
  {
    var k := Uint16(r.ack - a);
    && k == CountSome(ring) - CountSome(r.ring)
    && RunCleared(ring, r.ring, a, n, k)
    && RestKept(ring, r.ring, a, n, k)
    && r.log == DeliverRun(ring, a, k)
  }

  /** The drain loop advances ack once per consecutive occupied slot after
      it, and nothing else happens (see DrainedRun). */
  lemma {:induction false} DrainRun(ring: seq<Option<Packet>>, a: int, n: int)
    requires |ring| == n && ValidBufferSize(n) && IsU16(a)
    ensures DrainedRun(ring, a, n, Drain(ring, a, n))
    decreases CountSome(ring)
  {
    var r := Drain(ring, a, n);
    var k0 := Slot(a + 1, n);
    if ring[k0].Some? {
      var ring' := ring[k0 := None];
      var a' := Uint16(a + 1);
      CountSomeClear(ring, k0);
      DrainRun(ring', a', n);
      var rest := Drain(ring', a', n);
      assert r == Drained(rest.ring, rest.ack, Deliver(ring[k0].value) + rest.log);
      DrainStep(ring, a, n, rest);
    } else {
      assert r.ack == a;
    }
  }

  /** The state before one iteration of the drain loop: the slot after ack
      is occupied, and `rest` is what draining from the next ack, with that
      slot emptied, produces. */
  predicate DrainStepPre(ring: seq<Option<Packet>>, a: int, n: int, rest: Drained) {
    && |ring| == n && ValidBufferSize(n) && IsU16(a) && |rest.ring| == n
    && ring[Slot(a + 1, n)].Some?
    && DrainedRun(ring[Slot(a + 1, n) := None], Uint16(a + 1), n, rest)
  }

  /** One iteration of the drain loop extends the run by the slot after ack. */
  lemma DrainStep(ring: seq<Option<Packet>>, a: int, n: int, rest: Drained)
    requires DrainStepPre(ring, a, n, rest)
    ensures DrainedRun(ring, a, n, Drained(rest.ring, rest.ack, Deliver(ring[Slot(a + 1, n)].value) + rest.log))
  {
    DrainStepCount(ring, a, n, rest);
    DrainStepCleared(ring, a, n, rest);
    DrainStepKept(ring, a, n, rest);
    DrainStepLog(ring, a, n, rest);
  }

  /** Ack advances once more, and one more packet has been taken out. */
  lemma DrainStepCount(ring: seq<Option<Packet>>, a: int, n: int, rest: Drained)
    requires DrainStepPre(ring, a, n, rest)
    ensures Uint16(rest.ack - a) == Uint16(rest.ack - Uint16(a + 1)) + 1
    ensures Uint16(rest.ack - a) == CountSome(ring) - CountSome(rest.ring) <= n
  {
    CountSomeClear(ring, Slot(a + 1, n));
    AckStep(rest.ack, a);
  }

  lemma DrainStepCleared(ring: seq<Option<Packet>>, a: int, n: int, rest: Drained)
    requires DrainStepPre(ring, a, n, rest)
    ensures RunCleared(ring, rest.ring, a, n, Uint16(rest.ack - a))
  {
    DrainStepCount(ring, a, n, rest);
    forall j | 0 <= j < Uint16(rest.ack - a) ensures ring[After(a, j, n)].Some? && rest.ring[After(a, j, n)].None? {
      ClearedStep(ring, a, n, rest, j);
    }
  }

  lemma DrainStepKept(ring: seq<Option<Packet>>, a: int, n: int, rest: Drained)
    requires DrainStepPre(ring, a, n, rest)
    ensures RestKept(ring, rest.ring, a, n, Uint16(rest.ack - a))
  {
    DrainStepCount(ring, a, n, rest);
    forall j | 0 <= Uint16(rest.ack - a) <= j < n ensures rest.ring[After(a, j, n)] == ring[After(a, j, n)] {
      KeptStep(ring, a, n, rest, j);
    }
  }

  /** Slot j of the extended run: the slot right after ack, or one of the
      run that followed it. */
  lemma ClearedStep(ring: seq<Option<Packet>>, a: int, n: int, rest: Drained, j: int)
    requires DrainStepPre(ring, a, n, rest) && 0 <= j <= Uint16(rest.ack - Uint16(a + 1))
    ensures ring[After(a, j, n)].Some? && rest.ring[After(a, j, n)].None?
  {
    var k0 := Slot(a + 1, n);
    var a' := Uint16(a + 1);
    if j > 0 {
      NextSlot(a, j, n);
      assert After(a, j, n) == After(a', j - 1, n);
      Modular.SlotsDistinct(a + 1, 0, j, n);
    } else {
      DrainStepCount(ring, a, n, rest);
      NextSlot(a, n, n);
      assert After(a', n - 1, n) == k0;
    }
  }

  /** A slot beyond the extended run is beyond the run that followed it and
      is not the slot right after ack. */
  lemma KeptStep(ring: seq<Option<Packet>>, a: int, n: int, rest: Drained, j: int)
    requires DrainStepPre(ring, a, n, rest) && Uint16(rest.ack - Uint16(a + 1)) < j < n
    ensures rest.ring[After(a, j, n)] == ring[After(a, j, n)]
  {
    NextSlot(a, j, n);
    assert After(a, j, n) == After(Uint16(a + 1), j - 1, n);
    Modular.SlotsDistinct(a + 1, 0, j, n);
  }

  /** The packet taken out first is delivered first. */
  lemma DrainStepLog(ring: seq<Option<Packet>>, a: int, n: int, rest: Drained)
    requires DrainStepPre(ring, a, n, rest)
    ensures Deliver(ring[Slot(a + 1, n)].value) + rest.log == DeliverRun(ring, a, Uint16(rest.ack - a))
  {
    DrainStepCount(ring, a, n, rest);
    DeliverStep(ring, a, n, rest.log, Uint16(rest.ack - Uint16(a + 1)));
  }

  /** Delivering the slot after ack, then the run after it in the ring with
      that slot emptied, is delivering the longer run. */
  lemma DeliverStep(ring: seq<Option<Packet>>, a: int, n: int, log: seq<Output>, k': nat)
    requires |ring| == n && ValidBufferSize(n) && k' < n && ring[Slot(a + 1, n)].Some?
    requires log == DeliverRun(ring[Slot(a + 1, n) := None], Uint16(a + 1), k')
    ensures Deliver(ring[Slot(a + 1, n)].value) + log == DeliverRun(ring, a, k' + 1)
  {
    var k0 := Slot(a + 1, n);
    var ring' := ring[k0 := None];
    var a' := Uint16(a + 1);
    var b := a + 1;
    forall j | 0 <= j < k' ensures ring'[After(a', j, n)] == ring[After(b, j, n)] {
      NextSlot(a, j + 1, n);
      Modular.SlotsDistinct(a + 1, 0, j + 1, n);
    }
    DeliverRunSame(ring', a', ring, b, k');
    assert After(a, 0, n) == k0;
  }

  /** The receive path after the handshake: a packet outside the window only
      gets a STATE reply; otherwise its ack is applied, and unless it is a
      STATE it is stored, the drain loop runs and a STATE acknowledging the
      new ack is sent. */
  function AcceptSpec(cfg: Config, s: Snapshot, p: Packet, now: Clock): (r: Snapshot)
    requires WellFormed(cfg, s) && ValidClock(now)
    ensures WellFormed(cfg, r)
    ensures r.connecting == s.connecting && r.closed == s.closed
    ensures |r.out| > |s.out| || r.out == s.out
    ensures r.out[..|s.out|] == s.out
  {
    var n := cfg.bufferSize;
    if Stale(p.seqNr, s.ack, n) then SendAckSpec(cfg, s, now)
    else
      var s1 := RecvAckSpec(cfg, s, p.ack);
      assert s1.out[..|s.out|] == s.out;
      if p.id == PACKET_STATE then s1
      else
        var d := Drain(s1.incoming[Slot(p.seqNr, n) := Some(p)], s1.ack, n);
        var r := SendAckSpec(cfg, s1.(incoming := d.ring, ack := d.ack, out := s1.out + d.log), now);
        assert r.out[..|s.out|] == s.out;
        r
  }

  /** After the handshake a packet outside the window leaves ack, the
      in-flight count and both rings as they were, and produces exactly one
      datagram: a STATE carrying the current ack. */
  lemma OutOfWindowResync(cfg: Config, s: Snapshot, p: Packet, now: Clock)
    requires WellFormed(cfg, s) && ValidClock(now)
    requires Stale(p.seqNr, s.ack, cfg.bufferSize)
    ensures var r := AcceptSpec(cfg, s, p, now);
      && r.ack == s.ack && r.inflight == s.inflight
      && r.outgoing == s.outgoing && r.incoming == s.incoming
      && |r.out| == |s.out| + 1
      && r.out[|s.out|].Send? && r.out[|s.out|].packet.id == PACKET_STATE
      && r.out[|s.out|].packet.ack == s.ack
  {
  }

  /** After the handshake an in-window packet other than a STATE is stored
      and drained: the ack it carries is applied first, then ack advances
      over the run of occupied slots after it, those slots are emptied and
      the rest kept (DrainedRun). */
  lemma AcceptedDrains(cfg: Config, s: Snapshot, p: Packet, now: Clock)
    requires WellFormed(cfg, s) && ValidClock(now)
    requires p.id != PACKET_STATE && !Stale(p.seqNr, s.ack, cfg.bufferSize)
    ensures var r := AcceptSpec(cfg, s, p, now);
      var n := cfg.bufferSize;
      var s1 := RecvAckSpec(cfg, s, p.ack);
      var ring := s.incoming[Slot(p.seqNr, n) := Some(p)];
      var d := Drain(ring, s.ack, n);
      && r.incoming == d.ring && r.ack == d.ack
      && DrainedRun(ring, s.ack, n, d)
      && r.inflight == s1.inflight && r.outgoing == s1.outgoing
  {
    AcceptShape(cfg, s, p, now);
    DrainRun(s.incoming[Slot(p.seqNr, cfg.bufferSize) := Some(p)], s.ack, cfg.bufferSize);
  }

  /** Ack advances at least one step when the packet is the next expected
      one, and the slot after the new ack is empty. */
  lemma AcceptedAdvances(cfg: Config, s: Snapshot, p: Packet, now: Clock)
    requires WellFormed(cfg, s) && ValidClock(now)
    requires p.id != PACKET_STATE && !Stale(p.seqNr, s.ack, cfg.bufferSize)
    ensures var r := AcceptSpec(cfg, s, p, now);
      && (p.seqNr == Uint16(s.ack + 1) ==> Uint16(r.ack - s.ack) >= 1)
      && r.incoming[After(r.ack, 0, cfg.bufferSize)].None?
  {
    var n := cfg.bufferSize;
    var ring := s.incoming[Slot(p.seqNr, n) := Some(p)];
    var d := Drain(ring, s.ack, n);
    assert p.seqNr == Uint16(s.ack + 1) ==> Uint16(d.ack - s.ack) >= 1 by {
      DrainOutcome(ring, s.ack, n);
      if p.seqNr == Uint16(s.ack + 1) {
        NextSlot(s.ack, 0, n);
      }
    }
    AcceptShape(cfg, s, p, now);
  }

  /** What such a packet makes visible: the deliveries of the drained run in
      slot order, then a STATE acknowledging the new ack. */
  lemma AcceptedDelivers(cfg: Config, s: Snapshot, p: Packet, now: Clock)
    requires WellFormed(cfg, s) && ValidClock(now)
    requires p.id != PACKET_STATE && !Stale(p.seqNr, s.ack, cfg.bufferSize)
    ensures var r := AcceptSpec(cfg, s, p, now);
      var n := cfg.bufferSize;
      var ring := s.incoming[Slot(p.seqNr, n) := Some(p)];
      var last := r.out[|r.out| - 1];
      && r.out == RecvAckSpec(cfg, s, p.ack).out + DeliverRun(ring, s.ack, Uint16(r.ack - s.ack)) + [last]
      && last.Send? && last.packet.id == PACKET_STATE && last.packet.ack == r.ack
  {
    var n := cfg.bufferSize;
    var ring := s.incoming[Slot(p.seqNr, n) := Some(p)];
    var d := Drain(ring, s.ack, n);
    assert d.log == DeliverRun(ring, s.ack, Uint16(d.ack - s.ack)) by {
      DrainRun(ring, s.ack, n);
    }
    AcceptShape(cfg, s, p, now);
  }

  /** The in-window, non-STATE path of AcceptSpec spelled out. */
  lemma AcceptShape(cfg: Config, s: Snapshot, p: Packet, now: Clock)
    requires WellFormed(cfg, s) && ValidClock(now)
    requires p.id != PACKET_STATE && !Stale(p.seqNr, s.ack, cfg.bufferSize)
    ensures var r := AcceptSpec(cfg, s, p, now);
      var s1 := RecvAckSpec(cfg, s, p.ack);
      var d := Drain(s.incoming[Slot(p.seqNr, cfg.bufferSize) := Some(p)], s.ack, cfg.bufferSize);
      && r.incoming == d.ring && r.ack == d.ack
      && r.inflight == s1.inflight && r.outgoing == s1.outgoing
      && |r.out| == |s1.out| + |d.log| + 1
      && r.out == s1.out + d.log + [r.out[|r.out| - 1]]
      && r.out[|r.out| - 1].Send? && r.out[|r.out| - 1].packet.id == PACKET_STATE
      && r.out[|r.out| - 1].packet.ack == d.ack
  {
    var s1 := RecvAckSpec(cfg, s, p.ack);
    assert s1.incoming == s.incoming && s1.ack == s.ack;
  }

  /** DrainRun, plus: the drain loop takes at least one packet out when the
      slot after ack is occupied. */
  lemma DrainOutcome(ring: seq<Option<Packet>>, a: int, n: int)
    requires |ring| == n && ValidBufferSize(n) && IsU16(a)
    ensures var d := Drain(ring, a, n);
      && DrainedRun(ring, a, n, d)
      && d.log == DeliverRun(ring, a, Uint16(d.ack - a))
      && (ring[After(a, 0, n)].Some? ==> Uint16(d.ack - a) >= 1)
  {
    DrainRun(ring, a, n);
    if ring[After(a, 0, n)].Some? {
      CountSomeClear(ring, Slot(a + 1, n));
    }
  }

  /** A handler's result; `fault` marks the path on which the program would
      throw (it dereferences a missing value). */
  datatype Step = Step(state: Snapshot, fault: bool)

  /** The handshake reaching the connected state on a STATE: ack becomes
      uint16(seq - 1), the STATE's ack is applied, connecting ends, 'connect'
      is emitted and incoming slot seq is emptied. */
  function ConnectedSpec(cfg: Config, s: Snapshot, p: Packet): (r: Snapshot)
    requires WellFormed(cfg, s)
    ensures WellFormed(cfg, r) && !r.connecting
    ensures r.ack == Uint16(p.seqNr - 1)
    ensures r.incoming == s.incoming[Slot(p.seqNr, cfg.bufferSize) := None]
    ensures var a := RecvAckSpec(cfg, s, p.ack);
      r.outgoing == a.outgoing && r.inflight == a.inflight && r.out == a.out + [EmitConnect]
    ensures r.(ack := s.ack, connecting := s.connecting, incoming := s.incoming,
               outgoing := s.outgoing, inflight := s.inflight, out := s.out) == s
    ensures |r.out| > |s.out| && r.out[..|s.out|] == s.out && r.out[|r.out| - 1] == EmitConnect
  {
    var s2 := RecvAckSpec(cfg, s.(ack := Uint16(p.seqNr - 1)), p.ack);
    var r := s2.(connecting := false, out := s2.out + [EmitConnect], incoming := s2.incoming[Slot(p.seqNr, cfg.bufferSize) := None]);
    assert r.out[..|s.out|] == s.out;
    r
  }

  /** _recvIncoming. */
  function RecvIncomingSpec(cfg: Config, s: Snapshot, p: Packet, now: Clock): (r: Step)
    requires WellFormed(cfg, s) && ValidClock(now)
    ensures WellFormed(cfg, r.state)
    ensures r.fault <==> !s.closed && p.id == PACKET_SYN && s.connecting
    ensures !s.closed ==> r.state.timeoutSince == now.ms
    ensures !s.closed && !s.connecting && p.id != PACKET_RESET ==>
              r.state == AcceptSpec(cfg, s.(timeoutSince := now.ms), p, now)
  {
    var n := cfg.bufferSize;
    if s.closed then Step(s.(out := s.out + [Send(ResetPacket(OfConnection(cfg, s.seqNr, s.ack), now))]), false)
    else
      var s1 := s.(timeoutSince := now.ms);
      if p.id == PACKET_RESET then Step(DestroySpec(s1), false)
      else if p.id == PACKET_SYN && s1.connecting then
        // The cached reply is null on the connecting side (WellFormed), so
        // handing it to _transmit throws.
        Step(s1, true)
      else if s1.connecting then
        if p.id != PACKET_STATE then Step(s1.(incoming := s1.incoming[Slot(p.seqNr, n) := Some(p)]), false)
        else
          var s3 := ConnectedSpec(cfg, s1, p);
          match s1.incoming[Slot(p.seqNr, n)]
          case None => Step(s3, false)
          case Some(q) => Step(AcceptSpec(cfg, s3, q, now), false)
      else Step(AcceptSpec(cfg, s1, p, now), false)
  }

  /** On a closed connection every inbound packet is answered with a RESET
      carrying the connection's id, seq and ack, and nothing else changes. */
  lemma ClosedRepliesReset(cfg: Config, s: Snapshot, p: Packet, now: Clock)
    requires WellFormed(cfg, s) && ValidClock(now) && s.closed
    ensures var r := RecvIncomingSpec(cfg, s, p, now);
      && !r.fault
      && |r.state.out| == |s.out| + 1 && r.state.out[..|s.out|] == s.out
      && r.state.out[|s.out|].Send? && r.state.out[|s.out|].packet.id == PACKET_RESET
      && r.state.out[|s.out|].packet.seqNr == s.seqNr && r.state.out[|s.out|].packet.ack == s.ack
      && r.state.(out := s.out) == s
  {
    var r := RecvIncomingSpec(cfg, s, p, now);
    assert r.state.out == s.out + [r.state.out[|s.out|]];
  }

  /** A RESET destroys an open connection: the readable and writable sides
      end and the connection closes. */
  lemma ResetDestroys(cfg: Config, s: Snapshot, p: Packet, now: Clock)
    requires WellFormed(cfg, s) && ValidClock(now) && !s.closed && p.id == PACKET_RESET
    ensures var r := RecvIncomingSpec(cfg, s, p, now);
      && !r.fault && r.state.closed
      && r.state.out == s.out + [PushEnd, EndWritable, CloseScheduled]
  {
  }

  /** While connecting, a packet that is not STATE, SYN or RESET is only
      stored in incoming slot seq; apart from the idle deadline nothing
      else changes and nothing is sent or emitted. */
  lemma HandshakeBuffers(cfg: Config, s: Snapshot, p: Packet, now: Clock)
    requires WellFormed(cfg, s) && ValidClock(now) && !s.closed && s.connecting
    requires p.id != PACKET_STATE && p.id != PACKET_SYN && p.id != PACKET_RESET
    ensures var r := RecvIncomingSpec(cfg, s, p, now).state;
      && r.incoming[Slot(p.seqNr, cfg.bufferSize)] == Some(p)
      && (forall k :: 0 <= k < cfg.bufferSize && k != Slot(p.seqNr, cfg.bufferSize) ==> r.incoming[k] == s.incoming[k])
      && r.(incoming := s.incoming, timeoutSince := s.timeoutSince) == s
  {
  }

  /** A SYN while the handshake is pending always throws: only the
      connecting side is ever connecting, and it holds no cached reply.
      Apart from the idle deadline nothing changes. */
  lemma RepeatedSyn(cfg: Config, s: Snapshot, p: Packet, now: Clock)
    requires WellFormed(cfg, s) && ValidClock(now) && !s.closed && s.connecting && p.id == PACKET_SYN
    ensures var r := RecvIncomingSpec(cfg, s, p, now);
      r.fault && s.synack.None? && r.state == s.(timeoutSince := now.ms)
  {
  }

  /** While connecting, a STATE completes the handshake: afterwards the
      connection is connected and has emitted 'connect'; when a packet was
      already buffered in the STATE's own slot it is replayed through the
      receive path, otherwise the slot is left empty. */
  lemma HandshakeCompletes(cfg: Config, s: Snapshot, p: Packet, now: Clock)
    requires WellFormed(cfg, s) && ValidClock(now) && !s.closed && s.connecting
    requires p.id == PACKET_STATE
    ensures var r := RecvIncomingSpec(cfg, s, p, now);
      var s3 := ConnectedSpec(cfg, s.(timeoutSince := now.ms), p);
      var k := Slot(p.seqNr, cfg.bufferSize);
      && !r.fault && !r.state.connecting && !r.state.closed
      && r.state.out[..|s.out|] == s.out
      && EmitConnect in r.state.out[|s.out|..]
      && (s.incoming[k].None? ==> r.state == s3 && r.state.incoming[k].None?)
      && (s.incoming[k].Some? ==> r.state == AcceptSpec(cfg, s3, s.incoming[k].value, now))
  {
    var s3 := ConnectedSpec(cfg, s.(timeoutSince := now.ms), p);
    var r := RecvIncomingSpec(cfg, s, p, now);
    assert s3.out[..|s.out|] == s.out;
    assert r.state.out[..|s3.out|] == s3.out;
    assert r.state.out[|s3.out| - 1] == EmitConnect;
    assert r.state.out[|s.out|..][|s3.out| - 1 - |s.out|] == EmitConnect;
  }

  // ---------------------------------------------------------------- timers

  datatype Resent = Resent(ring: seq<Option<OutEntry>>, sent: seq<Packet>, fault: bool)

  /** The loop of _resend over the `count` in-flight slots from `offset`:
      each packet whose uint32(sent - now) is at least the threshold is
      transmitted again; an empty slot makes the program throw. */
  function ResendScan(ring: seq<Option<OutEntry>>, offset: int, i: nat, count: nat, nowUs: int): (r: Resent)
    requires |ring| > 0
    ensures |r.ring| == |ring|
    decreases count - i
  {
    if i >= count then Resent(ring, [], false)
    else
      var k := SlotAt(offset, i, |ring|);
      match ring[k]
      case None => Resent(ring, [], true)
      case Some(e) =>
        if Uint32(e.sent - nowUs) >= RESEND_THRESHOLD then
          var rest := ResendScan(ring[k := Some(Transmitted(e, nowUs))], offset, i + 1, count, nowUs);
          Resent(rest.ring, [e.packet] + rest.sent, rest.fault)
        else ResendScan(ring, offset, i + 1, count, nowUs)
  }

  function Sends(ps: seq<Packet>): (o: seq<Output>)
    ensures |o| == |ps|
  {
    if ps == [] then [] else [Send(ps[0])] + Sends(ps[1..])
  }

  /** _resend: nothing unless the oldest in-flight slot holds a packet that
      passes the threshold test; then the whole in-flight run is scanned. */
  function ResendSpec(cfg: Config, s: Snapshot, now: Clock): (r: Step)
    requires WellFormed(cfg, s) && ValidClock(now)
    ensures WellFormed(cfg, r.state)
    ensures var first := s.outgoing[Slot(s.seqNr - s.inflight, cfg.bufferSize)];
      first.None? || Uint32(first.value.sent - now.us) < RESEND_THRESHOLD ==> r == Step(s, false)
    ensures |r.state.out| >= |s.out| && r.state.out[..|s.out|] == s.out
    ensures r.state.(outgoing := s.outgoing, alive := s.alive, out := s.out) == s
  {
    var n := cfg.bufferSize;
    var offset := s.seqNr - s.inflight;
    match s.outgoing[Slot(offset, n)]
    case None => Step(s, false)
    case Some(first) =>
      if Uint32(first.sent - now.us) < RESEND_THRESHOLD then Step(s, false)
      else
        var scan := ResendScan(s.outgoing, offset, 0, s.inflight, now.us);
        Step(s.(outgoing := scan.ring, alive := s.alive || scan.sent != [], out := s.out + Sends(scan.sent)), scan.fault)
  }

  /** The threshold test subtracts now from sent: a packet last sent any time
      from 1 microsecond to about 71 minutes before now is judged overdue,
      while one stamped with now itself is not. */
  lemma ResendTestDirection(sent: int, nowUs: int)
    requires IsU32(sent) && IsU32(nowUs)
    ensures 0 < nowUs - sent <= TWO32 - RESEND_THRESHOLD ==> Uint32(sent - nowUs) >= RESEND_THRESHOLD
    ensures sent == nowUs ==> Uint32(sent - nowUs) < RESEND_THRESHOLD
  {
    if 0 < nowUs - sent <= TWO32 - RESEND_THRESHOLD {
      Modular.ModUnique(sent - nowUs, TWO32, -1, TWO32 + sent - nowUs);
    }
  }

  /** The in-flight packets of the run in order, kept when overdue. */
  function OverdueRun(ring: seq<Option<OutEntry>>, offset: int, i: nat, count: nat, nowUs: int): seq<Packet>
    requires |ring| > 0
    decreases count - i
  {
    if i >= count then []
    else
      var k := SlotAt(offset, i, |ring|);
      var here := if ring[k].Some? && Uint32(ring[k].value.sent - nowUs) >= RESEND_THRESHOLD then [ring[k].value.packet] else [];
      here + OverdueRun(ring, offset, i + 1, count, nowUs)
  }

  predicate RunOccupied(ring: seq<Option<OutEntry>>, offset: int, i: nat, count: nat)
    requires |ring| > 0
  {
    forall j :: i <= j < count ==> ring[SlotAt(offset, j, |ring|)].Some?
  }

  lemma {:induction false} OverdueRunSame(r1: seq<Option<OutEntry>>, r2: seq<Option<OutEntry>>, offset: int, i: nat, count: nat, nowUs: int)
    requires |r1| == |r2| > 0
    requires forall j :: i <= j < count ==> r1[SlotAt(offset, j, |r1|)] == r2[SlotAt(offset, j, |r2|)]
    ensures OverdueRun(r1, offset, i, count, nowUs) == OverdueRun(r2, offset, i, count, nowUs)
    decreases count - i
  {
    if i < count {
      OverdueRunSame(r1, r2, offset, i + 1, count, nowUs);
    }
  }

  /** Go-back-N without gaps: when no more than bufferSize packets are in
      flight and all their slots are occupied, the scan never throws and
      retransmits exactly the overdue ones, oldest first. */
  lemma {:induction false} ResendScanOccupied(ring: seq<Option<OutEntry>>, offset: int, i: nat, count: nat, nowUs: int)
    requires |ring| > 0 && count <= |ring| && RunOccupied(ring, offset, i, count)
    ensures var r := ResendScan(ring, offset, i, count, nowUs);
      !r.fault && r.sent == OverdueRun(ring, offset, i, count, nowUs) && RunOccupied(r.ring, offset, i, count)
    decreases count - i
  {
    var n := |ring|;
    assert RunOccupied(ResendScan(ring, offset, i, count, nowUs).ring, offset, i, count) by {
      var r := ResendScan(ring, offset, i, count, nowUs);
      ResendScanKeepsSlots(ring, offset, i, count, nowUs);
      forall j | i <= j < count ensures r.ring[SlotAt(offset, j, n)].Some? {
        assert ring[SlotAt(offset, j, n)].Some?;
      }
    }
    if i < count {
      var k := SlotAt(offset, i, n);
      var e := ring[k].value;
      if Uint32(e.sent - nowUs) >= RESEND_THRESHOLD {
        var ring' := ring[k := Some(Transmitted(e, nowUs))];
        var rest := ResendScan(ring', offset, i + 1, count, nowUs);
        assert !rest.fault && rest.sent == OverdueRun(ring, offset, i + 1, count, nowUs) by {
          RestUntouched(ring, offset, i, count, Some(Transmitted(e, nowUs)));
          ResendScanOccupied(ring', offset, i + 1, count, nowUs);
          OverdueRunSame(ring', ring, offset, i + 1, count, nowUs);
        }
      } else {
        ResendScanOccupied(ring, offset, i + 1, count, nowUs);
      }
    }
  }

  /** Rewriting the slot of position i leaves the slots of the later
      positions of the run alone. */
  lemma RestUntouched(ring: seq<Option<OutEntry>>, offset: int, i: nat, count: nat, v: Option<OutEntry>)
    requires |ring| > 0 && count <= |ring| && RunOccupied(ring, offset, i + 1, count)
    ensures var ring' := ring[SlotAt(offset, i, |ring|) := v];
      && RunOccupied(ring', offset, i + 1, count)
      && forall j :: i + 1 <= j < count ==> ring'[SlotAt(offset, j, |ring|)] == ring[SlotAt(offset, j, |ring|)]
  {
    var n := |ring|;
    forall j | i + 1 <= j < count ensures ring[SlotAt(offset, i, n) := v][SlotAt(offset, j, n)] == ring[SlotAt(offset, j, n)] {
      Modular.SlotsDistinct(offset, i, j, n);
    }
  }

  /** _keepAlive: when something was transmitted since the last tick only
      clear the flag, otherwise send a STATE. */
  function KeepAliveSpec(cfg: Config, s: Snapshot, now: Clock): (r: Snapshot)
    requires WellFormed(cfg, s) && ValidClock(now)
    ensures WellFormed(cfg, r)
    ensures r.(alive := s.alive, out := s.out) == s
    ensures s.alive ==> r == s.(alive := false)
    ensures !s.alive ==> r.alive && |r.out| == |s.out| + 1 && r.out[|s.out|].Send?
                         && r.out[|s.out|].packet.id == PACKET_STATE
  {
    if s.alive then s.(alive := false) else SendAckSpec(cfg, s, now)
  }

  /** Two quiet ticks in a row: the first clears the flag, the second probes. */
  lemma KeepAliveAlternates(cfg: Config, s: Snapshot, now: Clock, later: Clock)
    requires WellFormed(cfg, s) && ValidClock(now) && ValidClock(later) && s.alive
    ensures var r := KeepAliveSpec(cfg, KeepAliveSpec(cfg, s, now), later);
      r.alive && |r.out| == |s.out| + 1 && r.out[|s.out|].packet.id == PACKET_STATE
  {}

  /** _timeout: disarmed when the limit or the deadline is zero; otherwise
      once the limit has elapsed, disarm and emit 'timeout'. */
  function TimeoutSpec(s: Snapshot, now: Clock): (r: Snapshot)
    ensures r.out == s.out || r.out == s.out + [EmitTimeout]
    ensures r.out == s.out + [EmitTimeout] <==>
              s.timeoutMax != 0 && s.timeoutSince != 0 && now.ms - s.timeoutSince >= s.timeoutMax
    ensures r.out == s.out + [EmitTimeout] ==> r.timeoutSince == 0
    ensures r.(timeoutSince := s.timeoutSince, out := s.out) == s
  {
    if s.timeoutMax == 0 || s.timeoutSince == 0 then s
    else if now.ms - s.timeoutSince >= s.timeoutMax then s.(timeoutSince := 0, out := s.out + [EmitTimeout])
    else s
  }

  /** setTimeout: a new limit, and the deadline re-armed from now. */
  function SetTimeoutSpec(s: Snapshot, timeout: nat, now: Clock): (r: Snapshot)
    ensures r.timeoutMax == timeout && r.timeoutSince == now.ms
    ensures r.(timeoutMax := s.timeoutMax, timeoutSince := s.timeoutSince) == s
  {
    s.(timeoutMax := timeout, timeoutSince := now.ms)
  }

  /** 'timeout' fires at most once per arming: after it fired, no sequence
      of further ticks emits it again until the deadline is re-armed. */
  lemma {:induction false} TimeoutOnce(s: Snapshot, now: Clock, later: seq<Clock>)
    requires TimeoutSpec(s, now).out == s.out + [EmitTimeout]
    ensures var t := TimeoutSpec(s, now);
      TimeoutTicks(t, later) == t
    decreases |later|
  {
    var t := TimeoutSpec(s, now);
    if later != [] {
      assert TimeoutSpec(t, later[0]) == t;
      TimeoutOnceFrom(t, later[1..]);
    }
  }

  lemma {:induction false} TimeoutOnceFrom(t: Snapshot, later: seq<Clock>)
    requires t.timeoutSince == 0
    ensures TimeoutTicks(t, later) == t
    decreases |later|
  {
    if later != [] {
      TimeoutOnceFrom(t, later[1..]);
    }
  }

  function TimeoutTicks(s: Snapshot, ticks: seq<Clock>): Snapshot
    decreases |ticks|
  {
    if ticks == [] then s else TimeoutTicks(TimeoutSpec(s, ticks[0]), ticks[1..])
  }

  /** setTimeout re-arms a fired timeout: with a positive limit and a moment
      after the epoch, the next tick once the limit has elapsed fires again. */
  lemma RearmFiresAgain(s: Snapshot, timeout: nat, armed: Clock, tick: Clock)
    requires timeout > 0 && armed.ms > 0 && tick.ms - armed.ms >= timeout
    ensures var r := TimeoutSpec(SetTimeoutSpec(s, timeout, armed), tick);
      r.out == s.out + [EmitTimeout] && r.timeoutSince == 0
  {}

  // ---------------------------------------------------------------- closing

  /** _closing: mark closed and schedule 'close', only the first time. */
  function ClosingSpec(s: Snapshot): (r: Snapshot)
    ensures r.closed
    ensures s.closed ==> r == s
    ensures !s.closed ==> r == s.(closed := true, out := s.out + [CloseScheduled])
  {
    if s.closed then s else s.(closed := true, out := s.out + [CloseScheduled])
  }

  /** _closing is idempotent: a second call changes nothing, so 'close' is
      scheduled at most once. */
  lemma ClosingIdempotent(s: Snapshot)
    ensures ClosingSpec(ClosingSpec(s)) == ClosingSpec(s)
    ensures |ClosingSpec(s).out| <= |s.out| + 1
  {}

  /** destroy: end the readable side, end the writable side, close. */
  function DestroySpec(s: Snapshot): (r: Snapshot)
    ensures r.closed
    ensures r.out == s.out + [PushEnd, EndWritable] + (if s.closed then [] else [CloseScheduled])
    ensures r.(closed := s.closed, out := s.out) == s
  {
    ClosingSpec(s.(out := s.out + [PushEnd, EndWritable]))
  }

  /** _connect: send the SYN through the outgoing ring. */
  function ConnectSpec(cfg: Config, s: Snapshot, now: Clock): (r: Snapshot)
    requires WellFormed(cfg, s) && ValidClock(now)
    ensures WellFormed(cfg, r)
    ensures r.seqNr == Uint16(s.seqNr + 1) && r.inflight == s.inflight + 1
    ensures |r.out| == |s.out| + 1 && r.out[..|s.out|] == s.out && r.out[|s.out|].Send?
    ensures var q := r.out[|s.out|].packet;
      q.id == PACKET_SYN && q.seqNr == s.seqNr && q.connection == (if cfg.server then Uint16(cfg.id + 1) else cfg.id)
      && r.outgoing[Slot(s.seqNr, cfg.bufferSize)] == Some(OutEntry(q, now.us))
  {
    SendOutgoingSpec(cfg, s, PACKET_SYN, None, now)
  }

  /** sendFin, run on 'finish': while connecting it waits for 'connect';
      otherwise the FIN takes the next sequence number like any packet. */
  function SendFinSpec(cfg: Config, s: Snapshot, now: Clock): (r: Snapshot)
    requires WellFormed(cfg, s) && ValidClock(now)
    ensures WellFormed(cfg, r)
    ensures s.connecting ==> r == s
    ensures !s.connecting ==>
      && r.seqNr == Uint16(s.seqNr + 1) && r.inflight == s.inflight + 1
      && |r.out| == |s.out| + 1 && r.out[..|s.out|] == s.out && r.out[|s.out|].Send?
      && r.out[|s.out|].packet.id == PACKET_FIN && r.out[|s.out|].packet.seqNr == s.seqNr
  {
    if s.connecting then s else SendOutgoingSpec(cfg, s, PACKET_FIN, None, now)
  }

  /** The two-step close counter: the flush after the FIN and the end of the
      readable side each count one; the second closes the connection. */
  function CloseTickSpec(s: Snapshot): (r: Snapshot)
    ensures r.closeTicks == s.closeTicks + 1
    ensures r.closed <==> s.closed || s.closeTicks == 1
    ensures r.out == s.out + (if !s.closed && s.closeTicks == 1 then [CloseScheduled] else [])
    ensures r.(closeTicks := s.closeTicks, closed := s.closed, out := s.out) == s
  {
    var t := s.(closeTicks := s.closeTicks + 1);
    if t.closeTicks == 2 then ClosingSpec(t) else t
  }

  /** Both halves counted: after the flush tick and the end tick the
      connection is closed, whichever came first. */
  lemma CloseAfterBothTicks(s: Snapshot)
    requires s.closeTicks == 0
    ensures CloseTickSpec(CloseTickSpec(s)).closed
    ensures !s.closed ==> !CloseTickSpec(s).closed
  {}

  /** noAnswer, the timer armed with the FIN: end the readable side and close. */
  function NoAnswerSpec(s: Snapshot): (r: Snapshot)
    ensures r.closed
    ensures r.out == s.out + [PushEnd] + (if s.closed then [] else [CloseScheduled])
    ensures r.(closed := s.closed, out := s.out) == s
  {
    ClosingSpec(s.(out := s.out + [PushEnd]))
  }

  // ---------------------------------------------------------------- deadline

  /** Only the constructor, setTimeout and the receive path arm the idle
      deadline (and only setTimeout changes the limit): sending, acking,
      writing, resending, keep-alive, the FIN, the close steps and destroy
      all leave both alone. */
  lemma DeadlineKept(cfg: Config, s: Snapshot, now: Clock, kind: int, data: Option<seq<Byte>>, ackNr: int, bytes: seq<Byte>)
    requires WellFormed(cfg, s) && ValidClock(now) && IsPacketType(kind)
    ensures var t := (s.timeoutMax, s.timeoutSince);
      && (var r := SendOutgoingSpec(cfg, s, kind, data, now); (r.timeoutMax, r.timeoutSince) == t)
      && (var r := SendAckSpec(cfg, s, now); (r.timeoutMax, r.timeoutSince) == t)
      && (var r := RecvAckSpec(cfg, s, ackNr); (r.timeoutMax, r.timeoutSince) == t)
      && (var r := WriteSpec(cfg, s, bytes, now).state; (r.timeoutMax, r.timeoutSince) == t)
      && (var r := ResendSpec(cfg, s, now).state; (r.timeoutMax, r.timeoutSince) == t)
      && (var r := KeepAliveSpec(cfg, s, now); (r.timeoutMax, r.timeoutSince) == t)
      && (var r := ConnectSpec(cfg, s, now); (r.timeoutMax, r.timeoutSince) == t)
      && (var r := SendFinSpec(cfg, s, now); (r.timeoutMax, r.timeoutSince) == t)
      && (var r := ClosingSpec(s); (r.timeoutMax, r.timeoutSince) == t)
      && (var r := DestroySpec(s); (r.timeoutMax, r.timeoutSince) == t)
      && (var r := CloseTickSpec(s); (r.timeoutMax, r.timeoutSince) == t)
      && (var r := NoAnswerSpec(s); (r.timeoutMax, r.timeoutSince) == t)
  {}

  // ---------------------------------------------------------------- the in-flight run

  /** Go-back-N without gaps: no more than bufferSize packets are in flight
      and the slot of each of them, from the oldest on, holds a packet. */
  predicate InFlightOccupied(s: Snapshot) {
    && |s.outgoing| > 0
    && 0 <= s.inflight <= |s.outgoing|
    && RunOccupied(s.outgoing, s.seqNr - s.inflight, 0, s.inflight)
  }

  /** Sending below capacity appends the new packet's slot to the run. */
  lemma SendKeepsOccupied(cfg: Config, s: Snapshot, kind: int, data: Option<seq<Byte>>, now: Clock)
    requires WellFormed(cfg, s) && ValidClock(now) && IsPacketType(kind)
    requires InFlightOccupied(s) && s.inflight < cfg.bufferSize
    ensures InFlightOccupied(SendOutgoingSpec(cfg, s, kind, data, now))
  {
    var n := cfg.bufferSize;
    var r := SendOutgoingSpec(cfg, s, kind, data, now);
    var off := s.seqNr - s.inflight;
    var off' := r.seqNr - r.inflight;
    forall j | 0 <= j < r.inflight
      ensures r.outgoing[SlotAt(off', j, n)].Some?
    {
      NextSlot(s.seqNr, j - s.inflight - 1, n);
      assert SlotAt(off', j, n) == SlotAt(off, j, n);
      if j < s.inflight {
        Modular.SlotsDistinct(off, j, s.inflight, n);
      }
    }
  }

  /** The write loop sends only below bufferSize - 1 in flight, so it keeps
      the run occupied. */
  lemma {:induction false} WriteKeepsOccupied(cfg: Config, s: Snapshot, data: seq<Byte>, now: Clock)
    requires WellFormed(cfg, s) && ValidClock(now) && InFlightOccupied(s)
    ensures InFlightOccupied(WriteLoop(cfg, s, data, now).state)
    ensures InFlightOccupied(WriteSpec(cfg, s, data, now).state)
    decreases cfg.bufferSize - s.inflight
  {
    if s.inflight < cfg.bufferSize - 1 {
      var payload := Payload(data, s.mtu);
      var s' := SendOutgoingSpec(cfg, s, PACKET_DATA, Some(payload), now);
      SendKeepsOccupied(cfg, s, PACKET_DATA, Some(payload), now);
      if |payload| != |data| {
        WriteKeepsOccupied(cfg, s', data[|payload|..], now);
      }
    }
  }

  /** An ack removes a prefix of the run: what stays in flight is the rest
      of the run, whose slots the ack left alone. */
  lemma AckKeepsOccupied(cfg: Config, s: Snapshot, ackNr: int)
    requires WellFormed(cfg, s) && InFlightOccupied(s)
    ensures InFlightOccupied(RecvAckSpec(cfg, s, ackNr))
  {
    var n := cfg.bufferSize;
    var off := s.seqNr - s.inflight;
    var acked := Acked(s, ackNr);
    var r := RecvAckSpec(cfg, s, ackNr);
    if acked < n && s.inflight >= acked {
      RecvAckEffect(cfg, s, ackNr);
      var off' := r.seqNr - r.inflight;
      forall j | 0 <= j < r.inflight
        ensures r.outgoing[SlotAt(off', j, n)].Some?
      {
        var k := SlotAt(off, acked + j, n);
        assert SlotAt(off', j, n) == k;
        Modular.SlotDistance(k, off, acked + j, n);
        assert s.outgoing[k].Some?;
      }
    }
  }

  /** A packet accepted after the handshake only applies its ack to the
      outgoing side. */
  lemma AcceptKeepsOccupied(cfg: Config, s: Snapshot, p: Packet, now: Clock)
    requires WellFormed(cfg, s) && ValidClock(now) && InFlightOccupied(s)
    ensures InFlightOccupied(AcceptSpec(cfg, s, p, now))
  {
    if !Stale(p.seqNr, s.ack, cfg.bufferSize) {
      AckKeepsOccupied(cfg, s, p.ack);
    }
  }

  /** Every branch of _recvIncoming keeps the run occupied. */
  lemma ReceiveKeepsOccupied(cfg: Config, s: Snapshot, p: Packet, now: Clock)
    requires WellFormed(cfg, s) && ValidClock(now) && InFlightOccupied(s)
    ensures InFlightOccupied(RecvIncomingSpec(cfg, s, p, now).state)
  {
    var n := cfg.bufferSize;
    var s1 := s.(timeoutSince := now.ms);
    if !s.closed && p.id != PACKET_RESET && !(p.id == PACKET_SYN && s.connecting) {
      if s.connecting && p.id == PACKET_STATE {
        AckKeepsOccupied(cfg, s1, p.ack);
        var s3 := ConnectedSpec(cfg, s1, p);
        if s1.incoming[Slot(p.seqNr, n)].Some? {
          AcceptKeepsOccupied(cfg, s3, s1.incoming[Slot(p.seqNr, n)].value, now);
        }
      } else if !s.connecting {
        AcceptKeepsOccupied(cfg, s1, p, now);
      }
    }
  }

  /** The resend scan only restamps occupied slots. */
  lemma {:induction false} ResendScanKeepsSlots(ring: seq<Option<OutEntry>>, offset: int, i: nat, count: nat, nowUs: int)
    requires |ring| > 0
    ensures var r := ResendScan(ring, offset, i, count, nowUs);
      forall k :: 0 <= k < |ring| && ring[k].Some? ==> r.ring[k].Some?
    decreases count - i
  {
    if i < count {
      var k := SlotAt(offset, i, |ring|);
      if ring[k].Some? {
        var e := ring[k].value;
        if Uint32(e.sent - nowUs) >= RESEND_THRESHOLD {
          ResendScanKeepsSlots(ring[k := Some(Transmitted(e, nowUs))], offset, i + 1, count, nowUs);
        } else {
          ResendScanKeepsSlots(ring, offset, i + 1, count, nowUs);
        }
      }
    }
  }

  /** With the run occupied, _resend never throws: when the oldest packet is
      overdue it retransmits exactly the overdue in-flight packets, oldest
      first, and the run stays occupied. */
  lemma ResendNeverFaults(cfg: Config, s: Snapshot, now: Clock)
    requires WellFormed(cfg, s) && ValidClock(now) && InFlightOccupied(s)
    ensures var r := ResendSpec(cfg, s, now);
      var off := s.seqNr - s.inflight;
      var first := s.outgoing[Slot(off, cfg.bufferSize)];
      && !r.fault && InFlightOccupied(r.state)
      && (first.Some? && Uint32(first.value.sent - now.us) >= RESEND_THRESHOLD ==>
            r.state.out == s.out + Sends(OverdueRun(s.outgoing, off, 0, s.inflight, now.us)))
  {
    var n := cfg.bufferSize;
    var off := s.seqNr - s.inflight;
    var first := s.outgoing[Slot(off, n)];
    var r := ResendSpec(cfg, s, now);
    if first.Some? && Uint32(first.value.sent - now.us) >= RESEND_THRESHOLD {
      var scan := ResendScan(s.outgoing, off, 0, s.inflight, now.us);
      assert r.state.outgoing == scan.ring && r.state.out == s.out + Sends(scan.sent) && r.fault == scan.fault;
      assert r.state.seqNr == s.seqNr && r.state.inflight == s.inflight;
      ResendScanOccupied(s.outgoing, off, 0, s.inflight, now.us);
    } else {
      assert r == Step(s, false);
    }
  }
}
