/** The hole-punch exchange of Node.punch (index.js): the closure state
    ackSent, ackReceived, done and punchCounter, driven by three kinds of
    event — a run of sendPunch (the first one when the node is bound, then
    500 ms after each probe has been sent), a datagram arriving on the
    socket, and the completion of sending a PUNCHED reply. */
module HolePunch {
  import opened Packets

  /** "PUNCH" and "PUNCHED" as the bytes Buffer.from writes. */
  const PUNCH_SYN: seq<Byte> := [0x50, 0x55, 0x4E, 0x43, 0x48]
  const PUNCH_ACK: seq<Byte> := [0x50, 0x55, 0x4E, 0x43, 0x48, 0x45, 0x44]
  /** Delay between a probe being sent and the next run of sendPunch, in ms. */
  const RETRY_MS := 500

  datatype Endpoint = Endpoint(address: string, port: nat)

  /** The arguments of one punch call. */
  datatype PunchConfig = PunchConfig(attempts: int, peer: Endpoint)

  datatype Event =
    | Tick                                   // sendPunch runs
    | Message(data: seq<Byte>, from: Endpoint)
    | AckSendCompleted                       // the send callback of a PUNCHED reply

  datatype PunchOutput =
    | SendSyn               // PUNCH to the peer; its completion schedules the next Tick
    | SendAck(withCallback: bool)   // PUNCHED to the peer, with or without a completion callback
    | Finished(ok: bool)    // listener removed, and cb(ok) called when a callback was given

  datatype PunchState = PunchState(ackSent: bool, ackReceived: bool, done: bool, counter: int, out: seq<PunchOutput>)

  function Init(): (s: PunchState)
    ensures !s.done && s.counter == 0 && s.out == []
  {
    PunchState(false, false, false, 0, [])
  }

  /** sendPunch: nothing once done; success when both flags hold; failure
      once the incremented counter exceeds the attempts; otherwise a probe. */
  function TickSpec(cfg: PunchConfig, s: PunchState): (r: PunchState)
    ensures r.ackSent == s.ackSent && r.ackReceived == s.ackReceived
    ensures s.done ==> r == s
  {
    if s.done then s
    else if s.ackSent && s.ackReceived then s.(done := true, out := s.out + [Finished(true)])
    else
      var c := s.counter + 1;
      if c > cfg.attempts then s.(counter := c, done := true, out := s.out + [Finished(false)])
      else s.(counter := c, out := s.out + [SendSyn])
  }

  /** The message listener (removed once done): only datagrams from the
      peer's endpoint count; PUNCH is answered with PUNCHED, PUNCHED records
      that the peer heard us. */
  function MessageSpec(cfg: PunchConfig, s: PunchState, data: seq<Byte>, from: Endpoint): (r: PunchState)
    ensures r.ackSent == s.ackSent && r.done == s.done && r.counter == s.counter
    ensures s.done || from != cfg.peer ==> r == s
    ensures !s.done && from == cfg.peer && data == PUNCH_SYN ==> r == s.(out := s.out + [SendAck(true)])
    ensures !s.done && from == cfg.peer && data == PUNCH_ACK ==> r == s.(ackReceived := true)
    ensures data != PUNCH_SYN && data != PUNCH_ACK ==> r == s
  {
    if s.done || from != cfg.peer then s
    else if data == PUNCH_SYN then s.(out := s.out + [SendAck(true)])
    else if data == PUNCH_ACK then s.(ackReceived := true)
    else s
  }

  /** Once the first PUNCHED reply has been sent, ackSent is set and one
      more PUNCHED goes out; this callback is not cancelled by done. */
  function AckSentSpec(s: PunchState): (r: PunchState)
    ensures r.ackSent && r.ackReceived == s.ackReceived && r.done == s.done && r.counter == s.counter
    ensures r.out == s.out + [SendAck(false)]
  {
    s.(ackSent := true, out := s.out + [SendAck(false)])
  }

  /** One event: the output log only grows, by at most one entry, and the
      counter by at most one; once done, nothing but the PUNCHED that
      follows a completed reply can still happen. */
  function Step(cfg: PunchConfig, s: PunchState, e: Event): (r: PunchState)
    ensures |s.out| <= |r.out| <= |s.out| + 1 && r.out[..|s.out|] == s.out
    ensures s.counter <= r.counter <= s.counter + 1
    ensures s.done ==> r.done && r.counter == s.counter && r.ackReceived == s.ackReceived
                       && (r.out == s.out || r.out == s.out + [SendAck(false)])
  {
    match e
    case Tick => TickSpec(cfg, s)
    case Message(data, from) => MessageSpec(cfg, s, data, from)
    case AckSendCompleted => AckSentSpec(s)
  }

  /** The state after a sequence of events, in order. */
  function Run(cfg: PunchConfig, s: PunchState, evs: seq<Event>): PunchState
    decreases |evs|
  {
    if evs == [] then s else Run(cfg, Step(cfg, s, evs[0]), evs[1..])
  }

  // ---------------------------------------------------------------- counting outputs

  /** How many times x occurs in o. */
  function Occurrences(o: seq<PunchOutput>, x: PunchOutput): (c: nat)
    ensures c <= |o|
    ensures c == 0 <==> x !in o
  {
    if o == [] then 0 else Occurrences(o[..|o| - 1], x) + (if o[|o| - 1] == x then 1 else 0)
  }

  lemma OccurrencesAppend(o: seq<PunchOutput>, y: PunchOutput)
    ensures forall x :: Occurrences(o + [y], x) == Occurrences(o, x) + (if y == x then 1 else 0)
  {
    assert (o + [y])[..|o|] == o;
  }

  function CountFinished(o: seq<PunchOutput>): nat {
    Occurrences(o, Finished(true)) + Occurrences(o, Finished(false))
  }

  function Max(a: int, b: int): int {
    if a >= b then a else b
  }

  /** What holds of the closure state at all times: done exactly when one
      outcome was reported; true only with both flags; ackSent only once
      the follow-up PUNCHED went out; every increment of
      the counter sent a probe, except the one that gave up; and the
      counter stays within the attempts while running. */
  predicate Inv(cfg: PunchConfig, s: PunchState) {
    var gaveUp := Occurrences(s.out, Finished(false));
    && 0 <= s.counter
    && CountFinished(s.out) == (if s.done then 1 else 0)
    && (Occurrences(s.out, Finished(true)) > 0 ==> s.ackSent && s.ackReceived)
    && (s.ackSent ==> SendAck(false) in s.out)
    && Occurrences(s.out, SendSyn) == s.counter - gaveUp
    && s.counter <= Max(cfg.attempts, 0) + gaveUp
    && (!s.done ==> s.counter <= Max(cfg.attempts, 0))
  }

  lemma InitInv(cfg: PunchConfig)
    ensures Inv(cfg, Init())
  {}

  /** Appending one output adds one to its own count and to no other. */
  lemma AppendCounts(o: seq<PunchOutput>, y: PunchOutput, o': seq<PunchOutput>)
    requires o' == o + [y]
    ensures Occurrences(o', SendSyn) == Occurrences(o, SendSyn) + (if y == SendSyn then 1 else 0)
    ensures Occurrences(o', Finished(true)) == Occurrences(o, Finished(true)) + (if y == Finished(true) then 1 else 0)
    ensures Occurrences(o', Finished(false)) == Occurrences(o, Finished(false)) + (if y == Finished(false) then 1 else 0)
  {
    OccurrencesAppend(o, y);
  }

  /** One output appended, with the counter and done flag moved as given,
      keeps the invariant when the counts agree. */
  lemma AppendInv(cfg: PunchConfig, s: PunchState, y: PunchOutput, r: PunchState)
    requires Inv(cfg, s) && r.out == s.out + [y] && 0 <= r.counter
    requires CountFinished(r.out) == (if r.done then 1 else 0)
    requires y == Finished(true) ==> r.ackSent && r.ackReceived
    requires s.ackSent == r.ackSent
    requires s.ackReceived ==> r.ackReceived
    requires Occurrences(r.out, SendSyn) == r.counter - Occurrences(r.out, Finished(false))
    requires r.counter <= Max(cfg.attempts, 0) + Occurrences(r.out, Finished(false))
    requires !r.done ==> r.counter <= Max(cfg.attempts, 0)
    ensures Inv(cfg, r)
  {
    AppendCounts(s.out, y, r.out);
  }

  lemma TickInv(cfg: PunchConfig, s: PunchState)
    requires Inv(cfg, s)
    ensures Inv(cfg, TickSpec(cfg, s))
  {
    var r := TickSpec(cfg, s);
    if s.done {
    } else if s.ackSent && s.ackReceived {
      AppendCounts(s.out, Finished(true), r.out);
      AppendInv(cfg, s, Finished(true), r);
    } else if s.counter + 1 > cfg.attempts {
      AppendCounts(s.out, Finished(false), r.out);
      AppendInv(cfg, s, Finished(false), r);
    } else {
      AppendCounts(s.out, SendSyn, r.out);
      AppendInv(cfg, s, SendSyn, r);
    }
  }

  lemma MessageInv(cfg: PunchConfig, s: PunchState, data: seq<Byte>, from: Endpoint)
    requires Inv(cfg, s)
    ensures Inv(cfg, MessageSpec(cfg, s, data, from))
  {
    if !s.done && from == cfg.peer && data == PUNCH_SYN {
      AppendCounts(s.out, SendAck(true), s.out + [SendAck(true)]);
    }
  }

  lemma AckSentInv(cfg: PunchConfig, s: PunchState)
    requires Inv(cfg, s)
    ensures Inv(cfg, AckSentSpec(s))
  {
    AppendCounts(s.out, SendAck(false), s.out + [SendAck(false)]);
  }

  lemma StepInv(cfg: PunchConfig, s: PunchState, e: Event)
    requires Inv(cfg, s)
    ensures Inv(cfg, Step(cfg, s, e))
  {
    match e
    case Tick => TickInv(cfg, s);
    case Message(data, from) => MessageInv(cfg, s, data, from);
    case AckSendCompleted => AckSentInv(cfg, s);
  }

  lemma {:induction false} RunInv(cfg: PunchConfig, s: PunchState, evs: seq<Event>)
    requires Inv(cfg, s)
    ensures Inv(cfg, Run(cfg, s, evs))
    decreases |evs|
  {
    if evs != [] {
      StepInv(cfg, s, evs[0]);
      RunInv(cfg, Step(cfg, s, evs[0]), evs[1..]);
    }
  }

  // ---------------------------------------------------------------- properties

  /** Whatever happens, the outcome is reported at most once, success only
      after both PUNCHED was sent and PUNCHED was received, and no more
      than `attempts` probes are sent. */
  lemma PunchOutcome(cfg: PunchConfig, evs: seq<Event>)
    ensures var s := Run(cfg, Init(), evs);
      && CountFinished(s.out) <= 1
      && (Finished(true) in s.out ==> s.ackSent && s.ackReceived && SendAck(false) in s.out)
      && Occurrences(s.out, SendSyn) <= Max(cfg.attempts, 0)
  {
    InitInv(cfg);
    RunInv(cfg, Init(), evs);
  }

  /** A run of sendPunch reports success exactly when it is still running
      and both flags hold, and failure exactly when it is still running,
      they do not both hold, and the incremented counter exceeds the
      attempts. */
  lemma TickOutcome(cfg: PunchConfig, s: PunchState)
    ensures var r := TickSpec(cfg, s);
      && (r.out == s.out + [Finished(true)] <==> !s.done && s.ackSent && s.ackReceived)
      && (r.out == s.out + [Finished(false)] <==>
            !s.done && !(s.ackSent && s.ackReceived) && s.counter + 1 > cfg.attempts)
      && (r.out == s.out + [SendSyn] <==>
            !s.done && !(s.ackSent && s.ackReceived) && s.counter + 1 <= cfg.attempts)
  {
    var r := TickSpec(cfg, s);
    if r.out != s.out {
      assert r.out[|s.out|] in {Finished(true), Finished(false), SendSyn};
    }
  }

  /** Datagrams from any other endpoint change nothing. */
  lemma OtherEndpointIgnored(cfg: PunchConfig, s: PunchState, data: seq<Byte>, from: Endpoint)
    requires from != cfg.peer
    ensures MessageSpec(cfg, s, data, from) == s
  {}

  /** Flags are never cleared. */
  lemma {:induction false} FlagsStay(cfg: PunchConfig, s: PunchState, evs: seq<Event>)
    ensures var r := Run(cfg, s, evs);
      && (s.ackSent ==> r.ackSent) && (s.ackReceived ==> r.ackReceived) && (s.done ==> r.done)
    decreases |evs|
  {
    if evs != [] {
      FlagsStay(cfg, Step(cfg, s, evs[0]), evs[1..]);
    }
  }

  function Ticks(k: nat): (t: seq<Event>)
    ensures |t| == k
  {
    if k == 0 then [] else [Tick] + Ticks(k - 1)
  }

  function Probes(k: nat): (o: seq<PunchOutput>)
    ensures |o| == k
  {
    if k == 0 then [] else [SendSyn] + Probes(k - 1)
  }

  /** With no reply at all, sendPunch probes until the counter passes the
      attempts and then gives up: from counter c, attempts - c more probes
      and a failure. */
  lemma {:induction false} NoReplyGivesUp(cfg: PunchConfig, s: PunchState)
    requires !s.done && !(s.ackSent && s.ackReceived) && 0 <= s.counter <= cfg.attempts
    ensures var r := Run(cfg, s, Ticks(cfg.attempts - s.counter + 1));
      r.done && r.out == s.out + Probes(cfg.attempts - s.counter) + [Finished(false)]
    decreases cfg.attempts - s.counter
  {
    var k := cfg.attempts - s.counter;
    var s' := TickSpec(cfg, s);
    if k == 0 {
      assert Run(cfg, s', []) == s';
    } else {
      assert Ticks(k + 1)[1..] == Ticks(k);
      NoReplyGivesUp(cfg, s');
      assert s'.out == s.out + [SendSyn];
      assert Probes(k) == [SendSyn] + Probes(k - 1);
    }
  }

  // ---------------------------------------------------------------- the closure as an object

  class PunchSession {
    const cfg: PunchConfig
    var ackSent: bool
    var ackReceived: bool
    var done: bool
    var punchCounter: int
    var out: seq<PunchOutput>

    function State(): PunchState
      reads this
    {
      PunchState(ackSent, ackReceived, done, punchCounter, out)
    }

    constructor (attempts: int, peer: Endpoint)
      ensures cfg == PunchConfig(attempts, peer) && State() == Init()
    {
      cfg := PunchConfig(attempts, peer);
      ackSent, ackReceived, done := false, false, false;
      punchCounter := 0;
      out := [];
    }

    /** sendPunch. */
    method SendPunch()
      modifies this
      ensures State() == TickSpec(cfg, old(State()))
    {
      if done {
        return;
      }
      if ackSent && ackReceived {
        done := true;
        out := out + [Finished(true)];
        return;
      }
      punchCounter := punchCounter + 1;
      if punchCounter > cfg.attempts {
        done := true;
        out := out + [Finished(false)];
        return;
      }
      out := out + [SendSyn];
    }

    /** The 'message' listener; it is detached once done. */
    method OnMessage(data: seq<Byte>, from: Endpoint)
      modifies this
      ensures State() == MessageSpec(cfg, old(State()), data, from)
    {
      if done || from != cfg.peer {
        return;
      }
      if data == PUNCH_SYN {
        out := out + [SendAck(true)];
      } else if data == PUNCH_ACK {
        ackReceived := true;
      }
    }

    /** The completion callback of the first PUNCHED reply. */
    method AckSendCompleted()
      modifies this
      ensures State() == AckSentSpec(old(State()))
    {
      ackSent := true;
      out := out + [SendAck(false)];
    }
  }
}
