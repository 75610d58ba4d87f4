/** The Node of index.js: one UDP socket shared by outbound connections,
    registered under `host/port`, and accepted ones, registered under
    `address:id`. Routing of every inbound datagram is a pure decision
    (RouteMessage); the registries, flags, deferred 'bound' work and close
    countdowns are the state of the class Node, whose methods are proved to
    change it as the functions of NodeState-valued specifications say. A
    connection is seen here only as a record of what the Node reads of it. */
module Mux {
  import opened Packets

  const DEFAULT_HOST := "127.0.0.1"

  // ---------------------------------------------------------------- keys

  predicate IsDigit(c: char) {
    '0' <= c <= '9'
  }

  predicate AllDigits(s: string) {
    forall i :: 0 <= i < |s| ==> IsDigit(s[i])
  }

  function DigitChar(d: int): (c: char)
    requires 0 <= d < 10
    ensures IsDigit(c)
  {
    (48 + d) as char
  }

  function DigitValue(c: char): (d: int)
    requires IsDigit(c)
    ensures 0 <= d < 10
  {
    c as int - 48
  }

  /** The decimal text of a number, as String(n) writes it: no sign, no
      leading zero. */
  function Decimal(n: nat): (s: string)
    ensures |s| >= 1 && AllDigits(s)
    decreases n
  {
    if n < 10 then [DigitChar(n)] else Decimal(n / 10) + [DigitChar(n % 10)]
  }

  /** Reading a string of digits as a number (the inverse of Decimal). */
  function ParseDecimal(s: string): (n: nat)
    requires AllDigits(s)
    decreases |s|
  {
    if s == [] then 0 else ParseDecimal(s[..|s| - 1]) * 10 + DigitValue(s[|s| - 1])
  }

  lemma {:induction false} DecimalRoundTrip(n: nat)
    ensures ParseDecimal(Decimal(n)) == n
    decreases n
  {
    if n >= 10 {
      var s := Decimal(n);
      assert s[..|s| - 1] == Decimal(n / 10);
      DecimalRoundTrip(n / 10);
    }
  }

  /** A registry key: a host text, a separator and a number in decimal. */
  function JoinKey(host: string, sep: char, n: nat): (k: string)
    ensures |k| == |host| + 1 + |Decimal(n)|
    ensures k[..|host|] == host && k[|host|] == sep && k[|host| + 1..] == Decimal(n)
  {
    host + [sep] + Decimal(n)
  }

  /** Keys built with a non-digit separator are injective: the separator is
      the last non-digit of the key, so host and number can be read back,
      whatever characters the host contains. */
  lemma JoinKeyInjective(h1: string, n1: nat, h2: string, n2: nat, sep: char)
    requires !IsDigit(sep)
    ensures JoinKey(h1, sep, n1) == JoinKey(h2, sep, n2) <==> h1 == h2 && n1 == n2
  {
    var k1, k2 := JoinKey(h1, sep, n1), JoinKey(h2, sep, n2);
    if k1 == k2 {
      var d1, d2 := Decimal(n1), Decimal(n2);
      if |d1| < |d2| {
        SeparatorInDigits(h1, n1, h2, n2, sep);
      } else if |d2| < |d1| {
        SeparatorInDigits(h2, n2, h1, n1, sep);
      } else {
        assert h1 == k1[..|h1|] == h2;
        assert d1 == k1[|h1| + 1..] == d2;
        DecimalRoundTrip(n1);
        DecimalRoundTrip(n2);
      }
    }
  }

  /** The key with the shorter number has its separator where the other key
      has a digit. */
  lemma SeparatorInDigits(h1: string, n1: nat, h2: string, n2: nat, sep: char)
    requires !IsDigit(sep) && |Decimal(n1)| < |Decimal(n2)|
    ensures JoinKey(h1, sep, n1) != JoinKey(h2, sep, n2)
  {
    var k1, k2 := JoinKey(h1, sep, n1), JoinKey(h2, sep, n2);
    if |k1| == |k2| {
      var p := |h1|;
      assert |h2| + 1 <= p;
      assert k2[p] == Decimal(n2)[p - |h2| - 1];
    }
  }

  /** _getKey: the client registry key `host/port`. */
  function ClientKey(host: string, port: nat): (k: string)
    ensures forall h2: string, p2: nat {:trigger JoinKey(h2, '/', p2)} ::
      k == JoinKey(h2, '/', p2) <==> host == h2 && port == p2
  {
    var k := JoinKey(host, '/', port);
    forall h2: string, p2: nat ensures k == JoinKey(h2, '/', p2) <==> host == h2 && port == p2 {
      JoinKeyInjective(host, port, h2, p2, '/');
    }
    k
  }

  /** The server registry key of a decoded packet: `address:n`, where n is
      the connection field, plus one modulo 2^16 on a SYN. */
  function ServerKey(address: string, p: Packet): (k: string)
    requires IsU16(p.connection)
    ensures var c := if p.id == PACKET_SYN then Uint16(p.connection + 1) else p.connection;
      forall h2: string, c2: nat {:trigger JoinKey(h2, ':', c2)} ::
        k == JoinKey(h2, ':', c2) <==> address == h2 && c == c2
  {
    var c := if p.id == PACKET_SYN then Uint16(p.connection + 1) else p.connection;
    var k := JoinKey(address, ':', c);
    forall h2: string, c2: nat ensures k == JoinKey(h2, ':', c2) <==> address == h2 && c == c2 {
      JoinKeyInjective(address, c, h2, c2, ':');
    }
    k
  }

  /** A SYN tagged c and a later packet tagged uint16(c + 1) from the same
      address reach the same server entry; packets from another address, or
      non-SYN packets with different tags, never share one. */
  lemma ServerKeyMatches(address: string, syn: Packet, later: Packet, other: string)
    requires IsU16(syn.connection) && IsU16(later.connection)
    requires syn.id == PACKET_SYN && later.id != PACKET_SYN
    ensures ServerKey(address, syn) == ServerKey(address, later) <==> later.connection == Uint16(syn.connection + 1)
    ensures other != address ==> ServerKey(other, later) != ServerKey(address, later)
  {
    JoinKeyInjective(address, Uint16(syn.connection + 1), address, later.connection, ':');
    JoinKeyInjective(other, later.connection, address, later.connection, ':');
  }

  // ---------------------------------------------------------------- routing

  /** What the Node reads of a registered connection: the id it expects on
      inbound packets (`_recvId`) and its `_closed` flag. */
  datatype Peer = Peer(recvId: int, closed: bool)

  datatype DropReason = NoHandler | TooShort | SynToClient | ForeignId | Unknown

  /** The routing decision for one datagram: hand the decoded packet to a
      registered client or server connection, create a server connection
      for it, or drop it. */
  datatype Route =
    | ToClient(key: string, packet: Packet)
    | ToServer(id: string, packet: Packet)
    | NewServer(id: string, packet: Packet)
    | Dropped(reason: DropReason)

  /** onMessage with _handleClient and _handleServer: the client registered
      for the sender's `address/port` takes the datagram if there is one;
      otherwise the server side does, if listening. Datagrams shorter than a
      header are dropped on both paths. A client drops a SYN and a packet
      whose connection field is not its receive id. The server side hands the
      packet to the entry under its server key, and creates an entry only for
      a SYN while the node is open. */
  function RouteMessage(clients: map<string, Peer>, server: Option<map<string, Peer>>, closed: bool,
                        address: string, port: nat, msg: seq<Byte>): (r: Route)
    ensures r.ToClient? ==> r.key == ClientKey(address, port) && r.key in clients
    ensures r.ToServer? ==> server.Some? && r.id in server.value
    ensures r.NewServer? ==> server.Some? && r.id !in server.value
    ensures !r.Dropped? ==> Decode(msg) == Some(r.packet)
    ensures r.ToServer? || r.NewServer? ==> r.id == ServerKey(address, r.packet)
  {
    var key := ClientKey(address, port);
    if key in clients then
      if |msg| < MIN_PACKET_SIZE then Dropped(TooShort)
      else
        var p := Decode(msg).value;
        if p.id == PACKET_SYN then Dropped(SynToClient)
        else if p.connection != clients[key].recvId then Dropped(ForeignId)
        else ToClient(key, p)
    else if server.Some? then
      if |msg| < MIN_PACKET_SIZE then Dropped(TooShort)
      else
        var p := Decode(msg).value;
        var id := ServerKey(address, p);
        if id in server.value then ToServer(id, p)
        else if p.id != PACKET_SYN || closed then Dropped(Unknown)
        else NewServer(id, p)
    else Dropped(NoHandler)
  }

  /** Dispatch order: a sender with a client entry is only ever served by
      the client path; a sender without one goes to the server path when
      listening and is dropped otherwise. */
  lemma DispatchOrder(clients: map<string, Peer>, server: Option<map<string, Peer>>, closed: bool,
                      address: string, port: nat, msg: seq<Byte>)
    ensures var r := RouteMessage(clients, server, closed, address, port, msg);
      && (ClientKey(address, port) in clients ==>
            !r.ToServer? && !r.NewServer? && r != Dropped(NoHandler) && r != Dropped(Unknown))
      && (ClientKey(address, port) !in clients && server.Some? ==> !r.ToClient? && r != Dropped(NoHandler))
      && (ClientKey(address, port) !in clients && server.None? ==> r == Dropped(NoHandler))
  {}

  /** A datagram shorter than a header never reaches a connection and never
      creates one. */
  lemma ShortDropped(clients: map<string, Peer>, server: Option<map<string, Peer>>, closed: bool,
                     address: string, port: nat, msg: seq<Byte>)
    requires |msg| < MIN_PACKET_SIZE
    ensures RouteMessage(clients, server, closed, address, port, msg).Dropped?
  {}

  /** The client filter: a datagram reaches a client connection exactly when
      it is a full header from that client's endpoint, not a SYN, and tagged
      with the client's receive id. */
  lemma ClientFilter(clients: map<string, Peer>, server: Option<map<string, Peer>>, closed: bool,
                     address: string, port: nat, msg: seq<Byte>)
    ensures var r := RouteMessage(clients, server, closed, address, port, msg);
      var key := ClientKey(address, port);
      r.ToClient? <==>
        && key in clients && |msg| >= MIN_PACKET_SIZE
        && Decode(msg).value.id != PACKET_SYN
        && Decode(msg).value.connection == clients[key].recvId
  {}

  /** A server connection is created exactly for a full-header SYN from a
      sender with no client entry, while listening and open, whose key is
      not registered yet. */
  lemma CreateOnSyn(clients: map<string, Peer>, server: Option<map<string, Peer>>, closed: bool,
                    address: string, port: nat, msg: seq<Byte>)
    ensures var r := RouteMessage(clients, server, closed, address, port, msg);
      r.NewServer? <==>
        && ClientKey(address, port) !in clients && server.Some? && !closed
        && |msg| >= MIN_PACKET_SIZE && Decode(msg).value.id == PACKET_SYN
        && ServerKey(address, Decode(msg).value) !in server.value
  {}

  /** A datagram reaches a registered server entry exactly when the sender
      has no client entry, the node is listening, the datagram is a full
      header, and its server key is registered. */
  lemma ServerFilter(clients: map<string, Peer>, server: Option<map<string, Peer>>, closed: bool,
                     address: string, port: nat, msg: seq<Byte>)
    ensures var r := RouteMessage(clients, server, closed, address, port, msg);
      r.ToServer? <==>
        && ClientKey(address, port) !in clients && server.Some?
        && |msg| >= MIN_PACKET_SIZE && ServerKey(address, Decode(msg).value) in server.value
  {}

  // ---------------------------------------------------------------- node state

  /** A connection as the close countdown names it: by registry and key. */
  datatype PeerRef = Client(key: string) | Server(id: string)

  /** Work deferred until the socket is bound ('bound' listeners, in
      registration order). */
  datatype OnBound =
    | EmitListening
    | StartConnect(key: string)
    | StartPunch(attempts: int, port: nat, host: string)

  /** The countdown of one close call: the connections it still waits for
      (its openConnections counter is the size of this set) and whether a
      callback was given. */
  datatype Countdown = Countdown(waiting: set<PeerRef>, hasCallback: bool)

  datatype NodeOutput =
    | SocketBind(port: nat, host: Option<string>)
    | EmitBound
    | Fired(work: OnBound)          // a deferred piece of work runs
    | EmitConnection(id: string)
    | Deliver(to: PeerRef, packet: Packet)   // that connection's _recvIncoming
    | EndConnections(peers: set<PeerRef>)
    | SocketClose
    | CloseCallback

  datatype NodeError = NodeClosed | AlreadyBound | AlreadyListening | AlreadyConnected

  datatype NodeState = NodeState(
    bound: bool,
    closed: bool,
    clients: map<string, Peer>,
    server: Option<map<string, Peer>>,
    onBound: seq<OnBound>,
    countdowns: seq<Countdown>,
    log: seq<NodeOutput>)

  datatype NodeStep = NodeStep(state: NodeState, error: Option<NodeError>)

  function InitNode(): (s: NodeState)
    ensures !s.bound && !s.closed && s.server.None? && s.clients == map[] && s.log == []
  {
    NodeState(false, false, map[], None, [], [], [])
  }

  /** bind: refused when closed or already bound; otherwise the socket
      starts binding (`_bound` is set only when it reports 'listening'). */
  function BindSpec(s: NodeState, port: nat, host: Option<string>): (r: NodeStep)
    ensures r.error.Some? <==> s.closed || s.bound
    ensures r.error == Some(NodeClosed) <==> s.closed
    ensures r.error.Some? ==> r.state == s
  {
    if s.closed then NodeStep(s, Some(NodeClosed))
    else if s.bound then NodeStep(s, Some(AlreadyBound))
    else NodeStep(s.(log := s.log + [SocketBind(port, host)]), None)
  }

  /** The socket's 'listening' event: the node is bound, emits 'bound', and
      the work waiting for it runs in order. */
  function BoundSpec(s: NodeState): (r: NodeState)
    ensures r.bound && r.onBound == []
  {
    s.(bound := true, onBound := [], log := s.log + [EmitBound] + FiredAll(s.onBound))
  }

  function FiredAll(ws: seq<OnBound>): (o: seq<NodeOutput>)
    ensures |o| == |ws| && forall i :: 0 <= i < |ws| ==> o[i] == Fired(ws[i])
  {
    if ws == [] then [] else [Fired(ws[0])] + FiredAll(ws[1..])
  }

  /** Runs a piece of work now when bound, or defers it until 'bound'. */
  function WhenBound(s: NodeState, w: OnBound): (r: NodeState)
    ensures r.(log := s.log, onBound := s.onBound) == s
    ensures s.bound ==> r.log == s.log + [Fired(w)] && r.onBound == s.onBound
    ensures !s.bound ==> r.log == s.log && r.onBound == s.onBound + [w]
  {
    if s.bound then s.(log := s.log + [Fired(w)]) else s.(onBound := s.onBound + [w])
  }

  /** Deferring work and then binding fires it exactly as running it once
      bound would: after the earlier deferred work, in registration order. */
  lemma DeferredFiresOnBound(s: NodeState, w: OnBound)
    requires !s.bound
    ensures BoundSpec(WhenBound(s, w)) == WhenBound(BoundSpec(s), w)
  {
    var ws := s.onBound + [w];
    assert FiredAll(ws) == FiredAll(s.onBound) + [Fired(w)];
  }

  /** listen: refused when closed or already listening; otherwise an empty
      server registry is created and 'listening' is emitted once bound. */
  function ListenSpec(s: NodeState): (r: NodeStep)
    ensures r.error.Some? <==> s.closed || s.server.Some?
    ensures r.error.Some? ==> r.state == s
    ensures r.error.None? ==> r.state.server == Some(map[]) && r.state.clients == s.clients
    ensures r.error.None? ==> r.state == WhenBound(s.(server := Some(map[])), EmitListening)
  {
    if s.closed then NodeStep(s, Some(NodeClosed))
    else if s.server.Some? then NodeStep(s, Some(AlreadyListening))
    else NodeStep(WhenBound(s.(server := Some(map[])), EmitListening), None)
  }

  function HostOr(host: Option<string>): string {
    if host.Some? then host.value else DEFAULT_HOST
  }

  /** connect: refused when closed or when the peer's `host/port` key is
      already registered; otherwise the connection is registered under that
      key and starts its handshake once bound. */
  function ConnectSpec(s: NodeState, port: nat, host: Option<string>, peer: Peer): (r: NodeStep)
    ensures var key := ClientKey(HostOr(host), port);
      && (r.error.Some? <==> s.closed || key in s.clients)
      && (r.error.None? ==> r.state.clients == s.clients[key := peer] && r.state.server == s.server)
      && (r.error.None? ==> r.state == WhenBound(s.(clients := s.clients[key := peer]), StartConnect(key)))
      && (r.error.Some? ==> r.state == s)
  {
    var key := ClientKey(HostOr(host), port);
    if s.closed then NodeStep(s, Some(NodeClosed))
    else if key in s.clients then NodeStep(s, Some(AlreadyConnected))
    else NodeStep(WhenBound(s.(clients := s.clients[key := peer]), StartConnect(key)), None)
  }

  /** punch: refused when closed; otherwise the punch starts once bound (its
      own state machine is HolePunch). */
  function PunchSpec(s: NodeState, attempts: int, port: nat, host: Option<string>): (r: NodeStep)
    ensures r.error.Some? <==> s.closed
    ensures r.state.clients == s.clients && r.state.server == s.server
    ensures r.error.Some? ==> r.state == s
    ensures r.error.None? ==> r.state == WhenBound(s, StartPunch(attempts, port, HostOr(host)))
  {
    if s.closed then NodeStep(s, Some(NodeClosed))
    else NodeStep(WhenBound(s, StartPunch(attempts, port, HostOr(host))), None)
  }

  /** Both registries as one map: every registered connection by reference. */
  function Registry(s: NodeState): (reg: map<PeerRef, Peer>)
    ensures forall k :: Client(k) in reg <==> k in s.clients
    ensures forall k :: Server(k) in reg <==> s.server.Some? && k in s.server.value
  {
    (map k | k in s.clients :: Client(k) := s.clients[k])
      + (if s.server.Some? then map k | k in s.server.value :: Server(k) := s.server.value[k] else map[])
  }

  function Refs(s: NodeState): set<PeerRef> {
    Registry(s).Keys
  }

  /** The connections of `visited` that are registered and not yet closing. */
  function OpenIn(reg: map<PeerRef, Peer>, visited: set<PeerRef>): (o: set<PeerRef>)
    ensures o <= visited
  {
    set r | r in visited && r in reg && !reg[r].closed
  }

  /** The registered connections not yet closing. */
  function OpenPeers(s: NodeState): (o: set<PeerRef>)
    ensures o <= Refs(s)
  {
    OpenIn(Registry(s), Refs(s))
  }

  /** close: marks the node closed and ends every connection not already
      closing; with none, the socket is closed and the callback runs at
      once, otherwise a countdown waits for those connections. */
  function CloseSpec(s: NodeState, hasCallback: bool): (r: NodeState)
    ensures r.closed && r.clients == s.clients && r.server == s.server
    ensures |r.log| > |s.log| && r.log[..|s.log|] == s.log && r.log[|s.log|] == EndConnections(OpenPeers(s))
  {
    var open := OpenPeers(s);
    var s1 := s.(closed := true, log := s.log + [EndConnections(open)]);
    if open == {} then s1.(log := s1.log + [SocketClose] + (if hasCallback then [CloseCallback] else []))
    else s1.(countdowns := s.countdowns + [Countdown(open, hasCallback)])
  }

  /** onMessage: route the datagram; a new server connection is registered
      (under the record `created`) and announced. */
  function OnMessageSpec(s: NodeState, address: string, port: nat, msg: seq<Byte>, created: Peer): (r: NodeState)
    ensures r.clients == s.clients && r.closed == s.closed && r.bound == s.bound
    ensures var route := RouteMessage(s.clients, s.server, s.closed, address, port, msg);
      && (route.Dropped? ==> r == s)
      && (route.ToClient? ==> r == s.(log := s.log + [Deliver(Client(route.key), route.packet)]))
      && (route.ToServer? ==> r == s.(log := s.log + [Deliver(Server(route.id), route.packet)]))
      && (route.NewServer? ==> r.server == Some(s.server.value[route.id := created])
                               && r.log == s.log + [EmitConnection(route.id)])
  {
    match RouteMessage(s.clients, s.server, s.closed, address, port, msg)
    case ToClient(key, p) => s.(log := s.log + [Deliver(Client(key), p)])
    case ToServer(id, p) => s.(log := s.log + [Deliver(Server(id), p)])
    case NewServer(id, p) => s.(server := Some(s.server.value[id := created]), log := s.log + [EmitConnection(id)])
    case Dropped(_) => s
  }

  /** The handshake reaches one server entry: once a SYN tagged c created
      an entry, a later non-SYN tagged uint16(c + 1) from the same sender is
      delivered to that entry. */
  lemma SynThenSameEntry(s: NodeState, address: string, port: nat, syn: seq<Byte>, later: seq<Byte>, created: Peer)
    requires RouteMessage(s.clients, s.server, s.closed, address, port, syn).NewServer?
    requires |later| >= MIN_PACKET_SIZE && Decode(later).value.id != PACKET_SYN
    requires Decode(later).value.connection == Uint16(Decode(syn).value.connection + 1)
    ensures var t := OnMessageSpec(s, address, port, syn, created);
      var id := RouteMessage(s.clients, s.server, s.closed, address, port, syn).id;
      RouteMessage(t.clients, t.server, t.closed, address, port, later) == ToServer(id, Decode(later).value)
  {
    ServerKeyMatches(address, Decode(syn).value, Decode(later).value, address);
  }

  /** A connection's `_closing` ran: it counts as closed from now on. */
  function PeerClosingSpec(s: NodeState, r: PeerRef): (t: NodeState)
    ensures t.(clients := s.clients, server := s.server) == s
    ensures t.clients.Keys == s.clients.Keys && (t.server.Some? <==> s.server.Some?)
  {
    match r
    case Client(k) => if k in s.clients then s.(clients := s.clients[k := s.clients[k].(closed := true)]) else s
    case Server(k) =>
      if s.server.Some? && k in s.server.value
      then s.(server := Some(s.server.value[k := s.server.value[k].(closed := true)])) else s
  }

  /** One countdown hears that connection r closed: r is no longer awaited,
      and the countdown fires (socket closed, callback) when r was the last. */
  function CountdownHears(c: Countdown, r: PeerRef): (o: (Countdown, seq<NodeOutput>))
    ensures o.0.waiting == c.waiting - {r} && o.0.hasCallback == c.hasCallback
  {
    var c' := c.(waiting := c.waiting - {r});
    if r in c.waiting && c'.waiting == {}
    then (c', [SocketClose] + (if c.hasCallback then [CloseCallback] else []))
    else (c', [])
  }

  /** Every pending countdown hears the close, in the order close was called. */
  function AllHear(cs: seq<Countdown>, r: PeerRef): (o: (seq<Countdown>, seq<NodeOutput>))
    ensures |o.0| == |cs|
    ensures forall i :: 0 <= i < |cs| ==> o.0[i] == CountdownHears(cs[i], r).0
  {
    if cs == [] then ([], [])
    else
      var head := CountdownHears(cs[0], r);
      var tail := AllHear(cs[1..], r);
      ([head.0] + tail.0, head.1 + tail.1)
  }

  /** A connection's 'close' event: it leaves its registry, and the
      countdowns hear of it. */
  function PeerClosedSpec(s: NodeState, r: PeerRef): (t: NodeState)
    ensures t.bound == s.bound && t.closed == s.closed && t.onBound == s.onBound
    ensures |t.countdowns| == |s.countdowns| && |t.log| >= |s.log| && t.log[..|s.log|] == s.log
    ensures r.Client? ==> t.clients == s.clients - {r.key} && t.server == s.server
    ensures r.Server? ==> t.clients == s.clients && (s.server.Some? ==> t.server == Some(s.server.value - {r.id}))
  {
    var heard := AllHear(s.countdowns, r);
    var s1 := match r
      case Client(k) => s.(clients := s.clients - {k})
      case Server(k) => if s.server.Some? then s.(server := Some(s.server.value - {k})) else s;
    s1.(countdowns := heard.0, log := s.log + heard.1)
  }

  /** A connection that has run _closing is not ended again by a later close. */
  lemma ClosingNotEnded(s: NodeState, r: PeerRef)
    ensures r !in OpenPeers(PeerClosingSpec(s, r))
  {
    var t := PeerClosingSpec(s, r);
    if r in Registry(t) {
      assert Registry(t)[r].closed by {
        assert r.Client? || r.Server?;
      }
    }
  }

  // ---------------------------------------------------------------- properties

  /** Registering a client and then its 'close' event leaves the client
      registry exactly as before; a second connect to the same endpoint is
      refused while the first is registered. */
  lemma ConnectThenClose(s: NodeState, port: nat, host: Option<string>, peer: Peer)
    requires !s.closed && ClientKey(HostOr(host), port) !in s.clients
    ensures var c := ConnectSpec(s, port, host, peer);
      && c.error.None?
      && ConnectSpec(c.state, port, host, peer).error == Some(AlreadyConnected)
      && PeerClosedSpec(c.state, Client(ClientKey(HostOr(host), port))).clients == s.clients
  {
    var key := ClientKey(HostOr(host), port);
    var c := ConnectSpec(s, port, host, peer);
    assert c.state.clients - {key} == s.clients;
  }

  /** Once closed, nothing new can be registered: connect, listen, bind and
      punch are refused, and no datagram creates a server connection. */
  lemma ClosedRefusesAll(s: NodeState, port: nat, host: Option<string>, peer: Peer, attempts: int,
                         address: string, msg: seq<Byte>)
    requires s.closed
    ensures ConnectSpec(s, port, host, peer) == NodeStep(s, Some(NodeClosed))
    ensures ListenSpec(s) == NodeStep(s, Some(NodeClosed))
    ensures BindSpec(s, port, host) == NodeStep(s, Some(NodeClosed))
    ensures PunchSpec(s, attempts, port, host) == NodeStep(s, Some(NodeClosed))
    ensures !RouteMessage(s.clients, s.server, s.closed, address, port, msg).NewServer?
  {}

  /** The number of times a countdown fires while it hears the closes in
      `rs`, one after another. */
  function Fires(c: Countdown, rs: seq<PeerRef>): nat
    decreases |rs|
  {
    if rs == [] then 0
    else
      var h := CountdownHears(c, rs[0]);
      (if h.1 != [] then 1 else 0) + Fires(h.0, rs[1..])
  }

  /** The close countdown closes the socket exactly once: when the last of
      the connections it waits for has closed, and never before. */
  lemma {:induction false} CountdownFiresOnce(c: Countdown, rs: seq<PeerRef>)
    requires c.waiting != {}
    ensures Fires(c, rs) == if c.waiting <= set r | r in rs then 1 else 0
    decreases |rs|
  {
    if rs != [] {
      var h := CountdownHears(c, rs[0]);
      var rest := set r | r in rs[1..];
      assert (set r | r in rs) == {rs[0]} + rest;
      if h.0.waiting == {} {
        assert Fires(h.0, rs[1..]) == 0 by { NoMoreFires(h.0, rs[1..]); }
      } else {
        CountdownFiresOnce(h.0, rs[1..]);
      }
    }
  }

  /** A countdown with nothing left to wait for never fires again. */
  lemma {:induction false} NoMoreFires(c: Countdown, rs: seq<PeerRef>)
    requires c.waiting == {}
    ensures Fires(c, rs) == 0
    decreases |rs|
  {
    if rs != [] {
      NoMoreFires(CountdownHears(c, rs[0]).0, rs[1..]);
    }
  }

  /** With no open connection, close shuts the socket and calls back at
      once; otherwise it does neither until its countdown fires. */
  lemma CloseImmediately(s: NodeState, hasCallback: bool)
    ensures var r := CloseSpec(s, hasCallback);
      var tail := r.log[|s.log| + 1..];
      && |r.log| > |s.log|
      && (OpenPeers(s) == {} ==> tail == [SocketClose] + (if hasCallback then [CloseCallback] else []) && r.countdowns == s.countdowns)
      && (OpenPeers(s) != {} ==> tail == [] && r.countdowns == s.countdowns + [Countdown(OpenPeers(s), hasCallback)])
  {}

  /** The loop of close: visit every registered connection, skip those
      already closing, and collect and count the others. */
  method CountOpen(reg: map<PeerRef, Peer>) returns (ended: set<PeerRef>, openConnections: nat)
    ensures ended == OpenIn(reg, reg.Keys) && openConnections == |ended|
  {
    openConnections := 0;
    var todo := reg.Keys;
    ended := {};
    while todo != {}
      invariant todo <= reg.Keys
      invariant ended == OpenIn(reg, reg.Keys - todo) && openConnections == |ended|
      decreases |todo|
    {
      var r :| r in todo;
      Visit(reg, todo, ended, openConnections, r);
      todo := todo - {r};
      if !reg[r].closed {
        openConnections := openConnections + 1;
        ended := ended + {r};
      }
    }
  }

  /** One more iteration of that loop. */
  lemma Visit(reg: map<PeerRef, Peer>, todo: set<PeerRef>, ended: set<PeerRef>, count: nat, r: PeerRef)
    requires todo <= reg.Keys && r in todo && ended == OpenIn(reg, reg.Keys - todo) && count == |ended|
    ensures var ended' := if reg[r].closed then ended else ended + {r};
      ended' == OpenIn(reg, reg.Keys - (todo - {r})) && |ended'| == count + (if reg[r].closed then 0 else 1)
  {
    assert reg.Keys - (todo - {r}) == (reg.Keys - todo) + {r};
  }

  // ---------------------------------------------------------------- the class

  class Node {
    var bound: bool
    var closed: bool
    var clients: map<string, Peer>
    var server: Option<map<string, Peer>>
    var onBound: seq<OnBound>
    var countdowns: seq<Countdown>
    var log: seq<NodeOutput>

    function State(): NodeState
      reads this
    {
      NodeState(bound, closed, clients, server, onBound, countdowns, log)
    }

    constructor ()
      ensures State() == InitNode()
    {
      bound := false;
      closed := false;
      clients := map[];
      server := None;
      onBound := [];
      countdowns := [];
      log := [];
    }

    method Bind(port: nat, host: Option<string>) returns (error: Option<NodeError>)
      modifies this
      ensures var r := BindSpec(old(State()), port, host);
        State() == r.state && error == r.error
    {
      if closed {
        return Some(NodeClosed);
      }
      if bound {
        return Some(AlreadyBound);
      }
      log := log + [SocketBind(port, host)];
      return None;
    }

    /** The socket's 'listening' event. */
    method Bound()
      modifies this
      ensures State() == BoundSpec(old(State()))
    {
      bound := true;
      log := log + [EmitBound] + FiredAll(onBound);
      onBound := [];
    }

    method Defer(w: OnBound)
      modifies this
      ensures State() == WhenBound(old(State()), w)
    {
      if bound {
        log := log + [Fired(w)];
      } else {
        onBound := onBound + [w];
      }
    }

    method Listen() returns (error: Option<NodeError>)
      modifies this
      ensures var r := ListenSpec(old(State()));
        State() == r.state && error == r.error
    {
      if closed {
        return Some(NodeClosed);
      }
      if server.Some? {
        return Some(AlreadyListening);
      }
      server := Some(map[]);
      Defer(EmitListening);
      return None;
    }

    /** connect, registering the connection record `peer`. */
    method Connect(port: nat, host: Option<string>, peer: Peer) returns (error: Option<NodeError>)
      modifies this
      ensures var r := ConnectSpec(old(State()), port, host, peer);
        State() == r.state && error == r.error
    {
      if closed {
        return Some(NodeClosed);
      }
      var key := ClientKey(HostOr(host), port);
      if key in clients {
        return Some(AlreadyConnected);
      }
      clients := clients[key := peer];
      Defer(StartConnect(key));
      return None;
    }

    method Punch(attempts: int, port: nat, host: Option<string>) returns (error: Option<NodeError>)
      modifies this
      ensures var r := PunchSpec(old(State()), attempts, port, host);
        State() == r.state && error == r.error
    {
      if closed {
        return Some(NodeClosed);
      }
      Defer(StartPunch(attempts, port, HostOr(host)));
      return None;
    }

    /** close: every registered connection not already closing is ended
        and counted, and a countdown waits for them. */
    method Close(hasCallback: bool)
      modifies this
      ensures State() == CloseSpec(old(State()), hasCallback)
    {
      var st := State();
      closed := true;
      var ended, openConnections := CountOpen(Registry(st));
      log := log + [EndConnections(ended)];
      if openConnections == 0 {
        log := log + [SocketClose] + (if hasCallback then [CloseCallback] else []);
      } else {
        countdowns := countdowns + [Countdown(ended, hasCallback)];
      }
    }

    /** onMessage, with the record `created` standing for the connection a SYN creates. */
    method OnMessage(address: string, port: nat, msg: seq<Byte>, created: Peer)
      modifies this
      ensures State() == OnMessageSpec(old(State()), address, port, msg, created)
    {
      var route := RouteMessage(clients, server, closed, address, port, msg);
      match route {
        case ToClient(key, p) =>
          log := log + [Deliver(Client(key), p)];
        case ToServer(id, p) =>
          log := log + [Deliver(Server(id), p)];
        case NewServer(id, p) =>
          server := Some(server.value[id := created]);
          log := log + [EmitConnection(id)];
        case Dropped(_) =>
      }
    }

    method PeerClosing(r: PeerRef)
      modifies this
      ensures State() == PeerClosingSpec(old(State()), r)
    {
      match r {
        case Client(k) =>
          if k in clients {
            clients := clients[k := clients[k].(closed := true)];
          }
        case Server(k) =>
          if server.Some? && k in server.value {
            server := Some(server.value[k := server.value[k].(closed := true)]);
          }
      }
    }

    /** A connection's 'close' event: the registry listener runs first, then
        the countdown listeners of the close calls, in order. */
    method PeerClosed(r: PeerRef)
      modifies this
      ensures State() == PeerClosedSpec(old(State()), r)
    {
      match r {
        case Client(k) =>
          clients := clients - {k};
        case Server(k) =>
          if server.Some? {
            server := Some(server.value - {k});
          }
      }
      var heard := AllHear(countdowns, r);
      countdowns := heard.0;
      log := log + heard.1;
    }
  }
}
