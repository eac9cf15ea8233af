/**
 * The WebSocket signaling relay of the streaming server
 * (image_server/server.js): two role slots, one for the streamer page and
 * one for the headset page, each empty or holding one connection. A message
 * that names a role rebinds that slot to its sender (the last writer wins),
 * then the message is relayed by its `type`: an offer to the headset, an
 * answer to the streamer, an ICE candidate to the other side of its sender.
 * Closing a connection empties the slots that hold it. Nothing is queued: a
 * message whose destination slot is empty is not sent anywhere.
 *
 * `send` is modelled as appending a delivery to the sequence `sent`.
 */
module SignalingRelay {
  import opened Wrappers

  /** A connection; the server compares connections by identity (`===`). */
  type SocketId = nat

  /**
   * A parsed JSON value. `role` and `kind` are the fields `role` and `type`
   * when they hold strings, and None when they are absent or hold anything
   * else (the server only compares them with `===` against string literals).
   * `rest` stands for all other content, which the relay never reads.
   */
  datatype Message = Message(role: Option<string>, kind: Option<string>, rest: string)

  /** An incoming text frame, as `JSON.parse` treats it. */
  datatype Frame =
    | Malformed            // not JSON: `JSON.parse` throws a SyntaxError
    | Null                 // the JSON value null: reading `data.role` throws a TypeError
    | Value(data: Message) // any other JSON value

  datatype RelayError = SyntaxError | TypeError

  /** `JSON.parse(msg)` followed by the first property read on its result. */
  function Parse(frame: Frame): (r: Result<Message, RelayError>)
    ensures r.Success? <==> frame.Value?
    ensures r.Success? ==> r.value == frame.data
    ensures frame.Malformed? ==> r == Failure(SyntaxError)
    ensures frame.Null? ==> r == Failure(TypeError)
  {
    match frame
    case Malformed => Failure(SyntaxError)
    case Null => Failure(TypeError)
    case Value(data) => Success(data)
  }

  /** One call of `send`: the re-serialisation of `data` written to connection `to`. */
  datatype Delivery = Delivery(to: SocketId, data: Message)

  /** The slots `streamerSocket` and `headsetSocket`, and every send so far. */
  datatype RelayState = RelayState(streamer: Option<SocketId>, headset: Option<SocketId>, sent: seq<Delivery>)

  const Initial: RelayState := RelayState(None, None, [])

  /**
   * Role binding: `role === "streamer"` puts the sender in the streamer slot,
   * `role === "headset"` in the headset slot, anything else binds nothing.
   */
  function Register(st: RelayState, ws: SocketId, role: Option<string>): (r: RelayState)
    ensures r.sent == st.sent
    ensures role == Some("streamer") ==> r.streamer == Some(ws) && r.headset == st.headset
    ensures role == Some("headset") ==> r.headset == Some(ws) && r.streamer == st.streamer
    ensures role != Some("streamer") && role != Some("headset") ==> r == st
  {
    if role == Some("streamer") then st.(streamer := Some(ws))
    else if role == Some("headset") then st.(headset := Some(ws))
    else st
  }

  /**
   * The routing table of the relay, as one decision: offers go to the
   * headset, answers to the streamer, candidates to the slot opposite the
   * one that holds the sender; None when that slot is empty or the sender
   * holds neither slot.
   */
  function Destination(st: RelayState, ws: SocketId, data: Message): (to: Option<SocketId>)
    ensures to.Some? ==> to == st.streamer || to == st.headset
  {
    if data.kind == Some("offer") then st.headset
    else if data.kind == Some("answer") then st.streamer
    else if data.kind == Some("candidate") then
      if st.streamer == Some(ws) then st.headset
      else if st.headset == Some(ws) then st.streamer
      else None
    else None
  }

  /**
   * The sends of the three independent `if` statements of the handler, on the
   * bindings as they stand after role binding. At most one of them fires, and
   * it fires exactly when the routing table names a destination.
   */
  function Forwarded(st: RelayState, ws: SocketId, data: Message): (out: seq<Delivery>)
    ensures out == match Destination(st, ws, data)
                   case Some(to) => [Delivery(to, data)]
                   case None => []
  {
    var offer :=
      if data.kind == Some("offer") && st.headset.Some?
      then [Delivery(st.headset.value, data)] else [];
    var answer :=
      if data.kind == Some("answer") && st.streamer.Some?
      then [Delivery(st.streamer.value, data)] else [];
    var candidate :=
      if data.kind == Some("candidate") then
        if st.streamer == Some(ws) && st.headset.Some? then [Delivery(st.headset.value, data)]
        else if st.headset == Some(ws) && st.streamer.Some? then [Delivery(st.streamer.value, data)]
        else []
      else [];
    offer + answer + candidate
  }

  /**
   * The `message` handler: parse, bind the role, then relay. A frame that
   * makes the handler throw changes nothing; otherwise at most one send
   * happens, and what is sent is the parsed message itself.
   */
  function HandleMessage(st: RelayState, ws: SocketId, frame: Frame): (r: Result<RelayState, RelayError>)
    ensures r.Failure? <==> !frame.Value?
    ensures r.Success? ==> |st.sent| <= |r.value.sent| <= |st.sent| + 1
    ensures r.Success? ==> r.value.sent[..|st.sent|] == st.sent
  {
    match Parse(frame)
    case Failure(e) => Failure(e)
    case Success(data) =>
      var bound := Register(st, ws, data.role);
      var out := Forwarded(bound, ws, data);
      assert (bound.sent + out)[..|st.sent|] == st.sent;
      Success(bound.(sent := bound.sent + out))
  }

  /**
   * What one message sends: the received message itself, to a connection
   * that holds a slot once role binding is done.
   */
  lemma MessageSends(st: RelayState, ws: SocketId, frame: Frame)
    requires HandleMessage(st, ws, frame).Success?
    ensures var next := HandleMessage(st, ws, frame).value;
      forall d :: d in next.sent[|st.sent|..] ==>
        d.data == frame.data && (Some(d.to) == next.streamer || Some(d.to) == next.headset)
  {
    var data := frame.data;
    var bound := Register(st, ws, data.role);
    var out := Forwarded(bound, ws, data);
    var next := bound.(sent := bound.sent + out);
    assert HandleMessage(st, ws, frame).value == next;
    assert next.sent[|st.sent|..] == out;
    forall d | d in out
      ensures d.data == data && (Some(d.to) == next.streamer || Some(d.to) == next.headset)
    {
      var to := Destination(bound, ws, data);
      assert to.Some? && d == Delivery(to.value, data);
    }
  }

  /** The `close` handler: only the slots holding the closing connection are emptied. */
  function HandleClose(st: RelayState, ws: SocketId): (r: RelayState)
    ensures r.sent == st.sent
    ensures r.streamer != Some(ws) && r.headset != Some(ws)
    ensures st.streamer != Some(ws) ==> r.streamer == st.streamer
    ensures st.headset != Some(ws) ==> r.headset == st.headset
    ensures r.streamer == st.streamer || r.streamer == None
    ensures r.headset == st.headset || r.headset == None
  {
    RelayState(
      if st.streamer == Some(ws) then None else st.streamer,
      if st.headset == Some(ws) then None else st.headset,
      st.sent)
  }

  /** The server's module-level state and its two connection callbacks. */
  class Relay {
    var streamerSocket: Option<SocketId>
    var headsetSocket: Option<SocketId>
    var sent: seq<Delivery>

    function State(): RelayState
      reads this
    {
      RelayState(streamerSocket, headsetSocket, sent)
    }

    constructor ()
      ensures State() == Initial
    {
      streamerSocket := None;
      headsetSocket := None;
      sent := [];
    }

    /** `ws.send(JSON.stringify(data))`. */
    method Send(to: SocketId, data: Message)
      modifies this`sent
      ensures sent == old(sent) + [Delivery(to, data)]
    {
      sent := sent + [Delivery(to, data)];
    }

    /** `ws.on("message", ...)` for connection `ws`; a Fail outcome is the exception thrown. */
    method OnMessage(ws: SocketId, frame: Frame) returns (outcome: Outcome<RelayError>)
      modifies this
      ensures match HandleMessage(old(State()), ws, frame)
              case Success(st) => outcome == Pass && State() == st
              case Failure(e) => outcome == Fail(e) && State() == old(State())
    {
      var parsed := Parse(frame);
      if parsed.Failure? {
        return Fail(parsed.error);
      }
      var data := parsed.value;
      if data.role == Some("streamer") {
        streamerSocket := Some(ws);
      } else if data.role == Some("headset") {
        headsetSocket := Some(ws);
      }
      ghost var bound := State();
      if data.kind == Some("offer") && headsetSocket.Some? {
        Send(headsetSocket.value, data);
      }
      if data.kind == Some("answer") && streamerSocket.Some? {
        Send(streamerSocket.value, data);
      }
      if data.kind == Some("candidate") {
        if streamerSocket == Some(ws) && headsetSocket.Some? {
          Send(headsetSocket.value, data);
        } else if headsetSocket == Some(ws) && streamerSocket.Some? {
          Send(streamerSocket.value, data);
        }
      }
      assert sent == bound.sent + Forwarded(bound, ws, data);
      outcome := Pass;
    }

    /** `ws.on("close", ...)` for connection `ws`. */
    method OnClose(ws: SocketId)
      modifies this
      ensures State() == HandleClose(old(State()), ws)
    {
      if streamerSocket == Some(ws) {
        streamerSocket := None;
      }
      if headsetSocket == Some(ws) {
        headsetSocket := None;
      }
    }
  }

  // ---------------------------------------------------------------------------
  // Runs of the relay over a sequence of events

  datatype Event = Received(from: SocketId, frame: Frame) | Closed(socket: SocketId)

  /**
   * One event; a handler that throws leaves the state as it was. In the real
   * server nothing catches that exception and the process ends, so a run
   * that goes on past a failed parse goes beyond anything the server does;
   * the run lemmas hold for every prefix of a run as well.
   */
  function Step(st: RelayState, e: Event): RelayState {
    match e
    case Received(ws, frame) =>
      (match HandleMessage(st, ws, frame)
       case Success(next) => next
       case Failure(_) => st)
    case Closed(ws) => HandleClose(st, ws)
  }

  function Run(st: RelayState, events: seq<Event>): RelayState
    decreases |events|
  {
    if events == [] then st else Run(Step(st, events[0]), events[1..])
  }

  /** Running two sequences of events one after the other is running their concatenation. */
  lemma {:induction false} RunAppend(st: RelayState, first: seq<Event>, second: seq<Event>)
    ensures Run(st, first + second) == Run(Run(st, first), second)
    decreases |first|
  {
    if first != [] {
      assert (first + second)[0] == first[0];
      assert (first + second)[1..] == first[1..] + second;
      RunAppend(Step(st, first[0]), first[1..], second);
    } else {
      assert first + second == second;
    }
  }

  /** Every event causes at most one send, and what was sent stays sent. */
  lemma {:induction false} RunSendsAtMostOnePerEvent(st: RelayState, events: seq<Event>)
    ensures |st.sent| <= |Run(st, events).sent| <= |st.sent| + |events|
    ensures Run(st, events).sent[..|st.sent|] == st.sent
    decreases |events|
  {
    if events != [] {
      var next := Step(st, events[0]);
      RunSendsAtMostOnePerEvent(next, events[1..]);
      assert next.sent[..|st.sent|] == st.sent;
      assert Run(st, events).sent[..|st.sent|] == Run(st, events).sent[..|next.sent|][..|st.sent|];
    }
  }

  /** Whatever a longer log adds past a shorter one is added by one of the steps between. */
  lemma NewSendsSplit(a: seq<Delivery>, b: seq<Delivery>, c: seq<Delivery>)
    requires |a| <= |b| <= |c| && c[..|b|] == b
    ensures forall d :: d in c[|a|..] ==> d in b[|a|..] || d in c[|b|..]
  {
    forall d | d in c[|a|..]
      ensures d in b[|a|..] || d in c[|b|..]
    {
      var k :| |a| <= k < |c| && c[k] == d;
      if k < |b| {
        assert b[|a|..][k - |a|] == d;
      } else {
        assert c[|b|..][k - |b|] == d;
      }
    }
  }

  /** Event `e` is a frame that parses to `m`. */
  predicate Carries(e: Event, m: Message) {
    e.Received? && e.frame == Value(m)
  }

  /** The relay invents nothing: whatever it sends is a message it received. */
  lemma {:induction false} RunSendsOnlyReceived(st: RelayState, events: seq<Event>)
    ensures |st.sent| <= |Run(st, events).sent|
    ensures forall d :: d in Run(st, events).sent[|st.sent|..] ==>
              exists i :: 0 <= i < |events| && Carries(events[i], d.data)
    decreases |events|
  {
    RunSendsAtMostOnePerEvent(st, events);
    if events != [] {
      var next := Step(st, events[0]);
      RunSendsAtMostOnePerEvent(next, events[1..]);
      RunSendsOnlyReceived(next, events[1..]);
      var all := Run(st, events).sent;
      NewSendsSplit(st.sent, next.sent, all);
      forall d | d in all[|st.sent|..]
        ensures exists i :: 0 <= i < |events| && Carries(events[i], d.data)
      {
        if d in next.sent[|st.sent|..] {
          assert Carries(events[0], d.data);
        } else {
          var i :| 0 <= i < |events[1..]| && Carries(events[1..][i], d.data);
          assert events[i + 1] == events[1..][i];
        }
      }
    }
  }

  /** Event `e` is a message from `ws` that claims a role. */
  predicate Registers(e: Event, ws: SocketId) {
    e.Received? && e.from == ws && e.frame.Value?
    && (e.frame.data.role == Some("streamer") || e.frame.data.role == Some("headset"))
  }

  /** One event that is not a registration by `ws` neither binds nor addresses `ws`. */
  lemma StepAvoidsUnbound(st: RelayState, e: Event, ws: SocketId)
    requires st.streamer != Some(ws) && st.headset != Some(ws) && !Registers(e, ws)
    ensures var next := Step(st, e);
      && next.streamer != Some(ws) && next.headset != Some(ws)
      && |st.sent| <= |next.sent| && next.sent[..|st.sent|] == st.sent
      && forall d :: d in next.sent[|st.sent|..] ==> d.to != ws
  {
  }

  /**
   * A connection that holds no slot, and claims none, is sent nothing: this
   * covers a closed connection and one whose slot a later registration took.
   */
  lemma {:induction false} UnboundReceivesNothing(st: RelayState, events: seq<Event>, ws: SocketId)
    requires st.streamer != Some(ws) && st.headset != Some(ws)
    requires forall i :: 0 <= i < |events| ==> !Registers(events[i], ws)
    ensures |st.sent| <= |Run(st, events).sent|
    ensures forall d :: d in Run(st, events).sent[|st.sent|..] ==> d.to != ws
    ensures Run(st, events).streamer != Some(ws) && Run(st, events).headset != Some(ws)
    decreases |events|
  {
    if events != [] {
      var next := Step(st, events[0]);
      StepAvoidsUnbound(st, events[0], ws);
      assert forall i :: 0 <= i < |events[1..]| ==> events[1..][i] == events[i + 1];
      UnboundReceivesNothing(next, events[1..], ws);
      RunSendsAtMostOnePerEvent(next, events[1..]);
      NewSendsSplit(st.sent, next.sent, Run(next, events[1..]).sent);
    }
  }

  // ---------------------------------------------------------------------------
  // Scenarios with the message shapes the two pages send

  /** `{ role }`, sent by each page when its socket opens. */
  function Registration(role: string): Message {
    Message(Some(role), None, "")
  }

  /** `{ role, type, <type>: ... }`, the shape of every signaling message. */
  function Signal(role: string, kind: string, body: string): Message {
    Message(Some(role), Some(kind), body)
  }

  /** A `candidate` carrying `role: "streamer"` goes to the headset: binding precedes relaying. */
  lemma CandidateWithStreamerRole(st: RelayState, ws: SocketId, body: string)
    ensures var m := Signal("streamer", "candidate", body);
      HandleMessage(st, ws, Value(m)) == Success(RelayState(
        Some(ws), st.headset,
        st.sent + if st.headset.Some? then [Delivery(st.headset.value, m)] else []))
  {
  }

  /** Running a non-empty sequence of events is running its first event, then the rest. */
  lemma RunFirst(st: RelayState, events: seq<Event>)
    requires events != []
    ensures Run(st, events) == Run(Step(st, events[0]), events[1..])
  {
  }

  /** Both pages register: connection 1 as streamer, connection 2 as headset. */
  lemma Pairing()
    ensures Run(Initial, [
        Received(1, Value(Registration("streamer"))),
        Received(2, Value(Registration("headset")))
      ]) == RelayState(Some(1), Some(2), [])
  {
    var events := [
      Received(1, Value(Registration("streamer"))),
      Received(2, Value(Registration("headset")))
    ];
    RunFirst(Initial, events);
    RunFirst(RelayState(Some(1), None, []), events[1..]);
  }

  /**
   * Once paired, the offer reaches the headset, the answer the streamer, and
   * each side's ICE candidates the other side.
   */
  lemma Exchange(sdpOffer: string, sdpAnswer: string, ice1: string, ice2: string)
    ensures var offer, answer := Signal("streamer", "offer", sdpOffer), Signal("headset", "answer", sdpAnswer);
      var c1, c2 := Signal("streamer", "candidate", ice1), Signal("headset", "candidate", ice2);
      Run(RelayState(Some(1), Some(2), []), [
        Received(1, Value(offer)),
        Received(2, Value(answer)),
        Received(1, Value(c1)),
        Received(2, Value(c2))
      ]).sent == [Delivery(2, offer), Delivery(1, answer), Delivery(2, c1), Delivery(1, c2)]
  {
    var offer, answer := Signal("streamer", "offer", sdpOffer), Signal("headset", "answer", sdpAnswer);
    var c1, c2 := Signal("streamer", "candidate", ice1), Signal("headset", "candidate", ice2);
    var s0 := RelayState(Some(1), Some(2), []);
    var first := [Received(1, Value(offer)), Received(2, Value(answer))];
    var second := [Received(1, Value(c1)), Received(2, Value(c2))];
    var mid := s0.(sent := [Delivery(2, offer), Delivery(1, answer)]);
    assert Run(s0, first) == mid by {
      OfferAnswer(s0, 1, 2, sdpOffer, sdpAnswer);
      assert s0.sent + [Delivery(2, offer), Delivery(1, answer)] == mid.sent;
    }
    assert Run(mid, second).sent == [Delivery(2, offer), Delivery(1, answer), Delivery(2, c1), Delivery(1, c2)] by {
      CandidatesCross(mid, 1, 2, ice1, ice2);
    }
    RunAppend(s0, first, second);
    assert first + second == [Received(1, Value(offer)), Received(2, Value(answer)),
                              Received(1, Value(c1)), Received(2, Value(c2))];
  }

  /** Once paired, the streamer's offer reaches the headset and the headset's answer the streamer. */
  lemma OfferAnswer(st: RelayState, ws1: SocketId, ws2: SocketId, sdpOffer: string, sdpAnswer: string)
    requires st.streamer == Some(ws1) && st.headset == Some(ws2)
    ensures var offer, answer := Signal("streamer", "offer", sdpOffer), Signal("headset", "answer", sdpAnswer);
      Run(st, [Received(ws1, Value(offer)), Received(ws2, Value(answer))])
        == st.(sent := st.sent + [Delivery(ws2, offer), Delivery(ws1, answer)])
  {
    var offer, answer := Signal("streamer", "offer", sdpOffer), Signal("headset", "answer", sdpAnswer);
    var e1, e2 := Received(ws1, Value(offer)), Received(ws2, Value(answer));
    var s1 := st.(sent := st.sent + [Delivery(ws2, offer)]);
    var s2 := st.(sent := st.sent + [Delivery(ws2, offer), Delivery(ws1, answer)]);
    assert Step(st, e1) == s1 by {
      StreamerSignalsPairedHeadset(st, ws1, ws2, "offer", sdpOffer);
    }
    assert Step(s1, e2) == s2 by {
      HeadsetSignalsPairedStreamer(s1, ws1, ws2, "answer", sdpAnswer);
      assert s1.sent + [Delivery(ws1, answer)] == s2.sent;
    }
    RunTwo(st, e1, e2);
  }

  /** Once paired, each side's candidate reaches the other side. */
  lemma CandidatesCross(st: RelayState, ws1: SocketId, ws2: SocketId, ice1: string, ice2: string)
    requires st.streamer == Some(ws1) && st.headset == Some(ws2)
    ensures var c1, c2 := Signal("streamer", "candidate", ice1), Signal("headset", "candidate", ice2);
      Run(st, [Received(ws1, Value(c1)), Received(ws2, Value(c2))])
        == st.(sent := st.sent + [Delivery(ws2, c1), Delivery(ws1, c2)])
  {
    var c1, c2 := Signal("streamer", "candidate", ice1), Signal("headset", "candidate", ice2);
    var e1, e2 := Received(ws1, Value(c1)), Received(ws2, Value(c2));
    var s1 := st.(sent := st.sent + [Delivery(ws2, c1)]);
    var s2 := st.(sent := st.sent + [Delivery(ws2, c1), Delivery(ws1, c2)]);
    assert Step(st, e1) == s1 by {
      StreamerSignalsPairedHeadset(st, ws1, ws2, "candidate", ice1);
    }
    assert Step(s1, e2) == s2 by {
      HeadsetSignalsPairedStreamer(s1, ws1, ws2, "candidate", ice2);
      assert s1.sent + [Delivery(ws1, c2)] == s2.sent;
    }
    RunTwo(st, e1, e2);
  }

  /** Running two events is stepping twice. */
  lemma RunTwo(st: RelayState, e1: Event, e2: Event)
    ensures Run(st, [e1, e2]) == Step(Step(st, e1), e2)
  {
    RunFirst(st, [e1, e2]);
    assert [e1, e2][1..] == [e2];
    RunFirst(Step(st, e1), [e2]);
    assert [e2][1..] == [];
  }

  /** With `ws1` as streamer and `ws2` as headset, the streamer's offers and candidates reach `ws2`. */
  lemma StreamerSignalsPairedHeadset(st: RelayState, ws1: SocketId, ws2: SocketId, kind: string, body: string)
    requires st.streamer == Some(ws1) && st.headset == Some(ws2)
    requires kind == "offer" || kind == "candidate"
    ensures Step(st, Received(ws1, Value(Signal("streamer", kind, body))))
         == st.(sent := st.sent + [Delivery(ws2, Signal("streamer", kind, body))])
  {
    assert kind != "answer" by {
      assert kind[0] != "answer"[0];
    }
  }

  /** With `ws1` as streamer and `ws2` as headset, the headset's answers and candidates reach `ws1`. */
  lemma HeadsetSignalsPairedStreamer(st: RelayState, ws1: SocketId, ws2: SocketId, kind: string, body: string)
    requires st.streamer == Some(ws1) && st.headset == Some(ws2)
    requires kind == "answer" || kind == "candidate"
    ensures Step(st, Received(ws2, Value(Signal("headset", kind, body))))
         == st.(sent := st.sent + [Delivery(ws1, Signal("headset", kind, body))])
  {
    assert kind != "offer" by {
      assert kind[0] != "offer"[0];
    }
    assert "headset" != "streamer" by {
      assert "headset"[0] != "streamer"[0];
    }
  }

  /** The whole signaling session, from both registrations to the last candidate. */
  lemma Handshake(sdpOffer: string, sdpAnswer: string, ice1: string, ice2: string)
    ensures var offer, answer := Signal("streamer", "offer", sdpOffer), Signal("headset", "answer", sdpAnswer);
      var c1, c2 := Signal("streamer", "candidate", ice1), Signal("headset", "candidate", ice2);
      Run(Initial, [
        Received(1, Value(Registration("streamer"))),
        Received(2, Value(Registration("headset"))),
        Received(1, Value(offer)),
        Received(2, Value(answer)),
        Received(1, Value(c1)),
        Received(2, Value(c2))
      ]).sent == [Delivery(2, offer), Delivery(1, answer), Delivery(2, c1), Delivery(1, c2)]
  {
    var offer, answer := Signal("streamer", "offer", sdpOffer), Signal("headset", "answer", sdpAnswer);
    var c1, c2 := Signal("streamer", "candidate", ice1), Signal("headset", "candidate", ice2);
    var pairing := [Received(1, Value(Registration("streamer"))), Received(2, Value(Registration("headset")))];
    var exchange := [Received(1, Value(offer)), Received(2, Value(answer)), Received(1, Value(c1)), Received(2, Value(c2))];
    Pairing();
    Exchange(sdpOffer, sdpAnswer, ice1, ice2);
    RunAppend(Initial, pairing, exchange);
  }

  /** An offer sent before any headset registered is never delivered: there is no queue. */
  lemma OfferBeforeHeadsetIsLost(sdpOffer: string)
    ensures Run(Initial, [
        Received(1, Value(Signal("streamer", "offer", sdpOffer))),
        Received(2, Value(Registration("headset")))
      ]) == RelayState(Some(1), Some(2), [])
  {
    var events := [
      Received(1, Value(Signal("streamer", "offer", sdpOffer))),
      Received(2, Value(Registration("headset")))
    ];
    assert Step(Initial, events[0]) == RelayState(Some(1), None, []);
    RunFirst(Initial, events);
    RunFirst(RelayState(Some(1), None, []), events[1..]);
  }

  /** A second streamer registration takes the slot: answers go to the newer connection. */
  lemma LastStreamerWins(sdpAnswer: string)
    ensures Run(Initial, [
        Received(1, Value(Registration("streamer"))),
        Received(3, Value(Registration("streamer"))),
        Received(2, Value(Signal("headset", "answer", sdpAnswer)))
      ]).sent == [Delivery(3, Signal("headset", "answer", sdpAnswer))]
  {
    var events := [
      Received(1, Value(Registration("streamer"))),
      Received(3, Value(Registration("streamer"))),
      Received(2, Value(Signal("headset", "answer", sdpAnswer)))
    ];
    RunFirst(Initial, events);
    RunFirst(RelayState(Some(1), None, []), events[1..]);
    RunFirst(RelayState(Some(3), None, []), events[2..]);
  }
}
