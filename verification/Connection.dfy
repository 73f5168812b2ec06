/** The connection of a client: state, websockets, handshake and reconnects, over every run.

    libwebsockets, the manager and the token provider are the environment: they appear as events and as
    outcomes. Events of a websocket come only from the one that is being pumped; application calls may
    come at any time, inside a pump they are callbacks that re-enter the client. */
module Connection {
  import opened CStrings

  datatype State = Disconnected | Connecting | Connected | Reconnecting | Error

  /** A websocket: `Open` is the `connected` flag of websocket_client.c. `acked` records that it has
      delivered its Socket.IO CONNECT ack. */
  datatype Phase = Dialing | Open | Closed | Failed
  datatype Socket = Socket(phase: Phase, acked: bool)

  /** `current` is `client->websocket`; `pumped` the websocket inside whose `lws_service` call we are. */
  datatype Conn = Conn(state: State, sockets: seq<Socket>, current: Option<nat>, pumped: Option<nat>, attempts: int)

  const INITIAL := Conn(Disconnected, [], None, None, 0)

  /** How far an `oddsockets_connect` gets. */
  datatype Outcome = MintFails | NoWorker | NoWebsocket | DialFails | Dialed

  /** Frames by their Engine.IO and Socket.IO packet type. */
  datatype Packet = OpenPacket | Ping | Pong | Ack | DisconnectPacket | EventPacket | ConnectError | Other

  function Classify(message: string): Packet {
    if message == "" then Other
    else if message[0] == '0' then OpenPacket
    else if message[0] == '2' then Ping
    else if message[0] == '3' then Pong
    else if message[0] == '4' && |message| > 1 then
      if message[1] == '0' then Ack
      else if message[1] == '1' then DisconnectPacket
      else if message[1] == '2' then EventPacket
      else if message[1] == '4' then ConnectError
      else Other
    else Other
  }

  datatype Event =
    | CallConnect(outcome: Outcome)
    | CallDisconnect
    | CallEmit
    | PumpBegins
    | PumpEnds
    | Established
    | Frame(packet: Packet)
    | DialError
    | CloseEvent(outcome: Outcome)

  // ---------------------------------------------------------------- one step

  /** Refused while connected or connecting. */
  predicate Refuses(c: Conn) { c.state.Connected? || c.state.Connecting? }

  function AfterConnect(c: Conn, outcome: Outcome): Conn {
    if Refuses(c) then c
    else match outcome
      case MintFails => c.(state := Error)
      case NoWorker => c.(state := Error)
      case NoWebsocket => c.(state := Error, current := None)
      case DialFails => c.(state := Error, current := None)
      case Dialed => c.(state := Connecting, sockets := c.sockets + [Socket(Dialing, false)], current := Some(|c.sockets|))
  }

  predicate InRange(c: Conn) {
    (c.current.Some? ==> c.current.value < |c.sockets|) && (c.pumped.Some? ==> c.pumped.value < |c.sockets|)
  }

  function PumpedPhase(c: Conn): Phase
    requires InRange(c) && c.pumped.Some?
  {
    c.sockets[c.pumped.value].phase
  }

  function WithPumped(c: Conn, s: Socket): Conn
    requires InRange(c) && c.pumped.Some?
  {
    c.(sockets := c.sockets[c.pumped.value := s])
  }

  /** A close schedules a reconnect while attempts are left. */
  predicate Reconnects(c: Conn, max: int) { c.attempts < max }

  function AfterClose(c: Conn, outcome: Outcome, max: int): Conn {
    var d := c.(state := Disconnected);
    if Reconnects(d, max) then AfterConnect(d.(state := Reconnecting, attempts := d.attempts + 1), outcome) else d
  }

  predicate Enabled(c: Conn, e: Event)
    requires InRange(c)
  {
    match e
    case CallConnect(_) => true
    case CallDisconnect => c.pumped.None?
    case CallEmit => true
    case PumpBegins => c.pumped.None? && c.current.Some?
    case PumpEnds => c.pumped.Some?
    case Established => c.pumped.Some? && PumpedPhase(c).Dialing?
    case Frame(_) => c.pumped.Some? && PumpedPhase(c).Open?
    case DialError => c.pumped.Some? && PumpedPhase(c).Dialing?
    case CloseEvent(_) => c.pumped.Some? && (PumpedPhase(c).Dialing? || PumpedPhase(c).Open?)
  }

  function Step(c: Conn, e: Event, max: int): (r: Conn)
    requires InRange(c) && Enabled(c, e)
    ensures InRange(r)
  {
    match e
    case CallConnect(outcome) => AfterConnect(c, outcome)
    case CallDisconnect =>
      var d := if c.current.Some? then c.(sockets := c.sockets[c.current.value := c.sockets[c.current.value].(phase := Closed)]) else c;
      d.(state := Disconnected, current := None)
    case CallEmit => c
    case PumpBegins => c.(pumped := c.current)
    case PumpEnds => c.(pumped := None)
    case Established => WithPumped(c, c.sockets[c.pumped.value].(phase := Open))
    case Frame(packet) => AfterPacket(c, packet)
    case DialError => WithPumped(c, c.sockets[c.pumped.value].(phase := Failed))
    case CloseEvent(outcome) => AfterClose(WithPumped(c, c.sockets[c.pumped.value].(phase := Closed)), outcome, max)
  }

  function AfterPacket(c: Conn, packet: Packet): Conn
    requires InRange(c) && c.pumped.Some?
  {
    if packet.Ack? then WithPumped(c, c.sockets[c.pumped.value].(acked := true)).(state := Connected, attempts := 0)
    else if packet.DisconnectPacket? then c.(state := Disconnected)
    else c
  }

  /** The websocket on which an emit queues its `42` frame, if it does. */
  function QueuesOn(c: Conn, e: Event): Option<nat>
    requires InRange(c)
  {
    if e.CallEmit? && c.state.Connected? && c.current.Some? && c.sockets[c.current.value].phase.Open? then c.current else None
  }

  // ---------------------------------------------------------------- runs

  /** The state after a run from the start; None if some event of it cannot happen where it stands. */
  function After(run: seq<Event>, max: int): (c: Option<Conn>)
    ensures c.Some? ==> InRange(c.value)
    decreases |run|
  {
    if run == [] then Some(INITIAL)
    else
      var before := After(run[..|run| - 1], max);
      if before.Some? && Enabled(before.value, run[|run| - 1])
      then Some(Step(before.value, run[|run| - 1], max))
      else None
  }

  predicate Valid(run: seq<Event>, max: int) { After(run, max).Some? }

  /** A connect is careful unless it is called from a callback of a websocket that is still alive. Even
      then it does no harm if it is refused, or fails before it comes to the websocket. */
  predicate CarefulCall(c: Conn, e: Event)
    requires InRange(c)
  {
    e.CallConnect? ==>
      Refuses(c) || e.outcome.MintFails? || e.outcome.NoWorker? ||
      c.pumped.None? || PumpedPhase(c).Closed? || PumpedPhase(c).Failed?
  }

  predicate Careful(run: seq<Event>, max: int)
    requires Valid(run, max)
    decreases |run|
  {
    run == [] ||
    (Careful(run[..|run| - 1], max) && CarefulCall(After(run[..|run| - 1], max).value, run[|run| - 1]))
  }

  /** A run can happen from a state on. */
  predicate Follows(c: Conn, run: seq<Event>, max: int)
    decreases |run|
  {
    InRange(c) && (run != [] ==> Enabled(c, run[0]) && Follows(Step(c, run[0], max), run[1..], max))
  }

  function End(c: Conn, run: seq<Event>, max: int): (r: Conn)
    requires Follows(c, run, max)
    ensures InRange(r)
    decreases |run|
  {
    if run == [] then c else End(Step(c, run[0], max), run[1..], max)
  }

  // ---------------------------------------------------------------- safety

  /** Connected means connected: to a websocket that is open and has acked. */
  predicate ReallyConnected(c: Conn)
    requires InRange(c)
  {
    c.state.Connected? ==> c.current.Some? && c.sockets[c.current.value] == Socket(Open, true)
  }

  /** A live websocket that is being pumped is the client's own. */
  predicate PumpsOwn(c: Conn)
    requires InRange(c)
  {
    c.pumped.Some? && (PumpedPhase(c).Dialing? || PumpedPhase(c).Open?) ==> c.current == c.pumped
  }

  /** The client is connecting while its websocket dials. */
  predicate DialsInState(c: Conn)
    requires InRange(c)
  {
    c.current.Some? && c.sockets[c.current.value].phase.Dialing? ==> c.state.Connecting?
  }

  predicate Safe(c: Conn)
    requires InRange(c)
  {
    ReallyConnected(c) && PumpsOwn(c) && DialsInState(c)
  }

  lemma StepIsSafe(c: Conn, e: Event, max: int)
    requires InRange(c) && Enabled(c, e) && CarefulCall(c, e) && Safe(c)
    ensures Safe(Step(c, e, max))
  {
  }

  lemma {:induction false} AlwaysSafe(run: seq<Event>, max: int)
    requires Valid(run, max) && Careful(run, max)
    ensures Safe(After(run, max).value)
    decreases |run|
  {
    if run != [] {
      AlwaysSafe(run[..|run| - 1], max);
      StepIsSafe(After(run[..|run| - 1], max).value, run[|run| - 1], max);
    }
  }

  /** `acked` is what it says: the websocket delivered its ack earlier in the run, while it was pumped. */
  lemma {:induction false} AckWasDelivered(run: seq<Event>, max: int, w: nat) returns (k: nat)
    requires Valid(run, max) && w < |After(run, max).value.sockets| && After(run, max).value.sockets[w].acked
    ensures k < |run| && run[k] == Frame(Ack)
    ensures Valid(run[..k], max) && After(run[..k], max).value.pumped == Some(w)
    decreases |run|
  {
    hide After, Step;
    LastStep(run, max);
    var init := run[..|run| - 1];
    var before := After(init, max).value;
    if w < |before.sockets| && before.sockets[w].acked {
      k := AckWasDelivered(init, max, w);
      assert init[..k] == run[..k];
    } else {
      k := |run| - 1;
      AckedNow(before, run[k], max, w);
    }
  }

  lemma LastStep(run: seq<Event>, max: int)
    requires Valid(run, max)
    ensures run == [] ==> After(run, max) == Some(INITIAL)
    ensures run != [] ==>
              var init := run[..|run| - 1];
              Valid(init, max) && Enabled(After(init, max).value, run[|init|]) &&
              After(run, max) == Some(Step(After(init, max).value, run[|init|], max))
  {
  }

  lemma AckedNow(c: Conn, e: Event, max: int, w: nat)
    requires InRange(c) && Enabled(c, e) && w < |Step(c, e, max).sockets| && Step(c, e, max).sockets[w].acked
    requires !(w < |c.sockets| && c.sockets[w].acked)
    ensures e == Frame(Ack) && c.pumped == Some(w)
  {
  }

  /** On every careful run, each event frame is queued on the client's own websocket, which is still
      open and has delivered its CONNECT ack before. */
  lemma FramesGoToAckedSocket(run: seq<Event>, max: int, e: Event) returns (k: nat)
    requires Valid(run, max) && Careful(run, max) && QueuesOn(After(run, max).value, e).Some?
    ensures var c := After(run, max).value;
            QueuesOn(c, e) == c.current && c.sockets[c.current.value] == Socket(Open, true) &&
            k < |run| && run[k] == Frame(Ack) && Valid(run[..k], max) && After(run[..k], max).value.pumped == c.current
  {
    AlwaysSafe(run, max);
    k := AckWasDelivered(run, max, After(run, max).value.current.value);
  }

  /** A connect is harmless if the next packet cannot make the client wrongly "connected". */
  predicate Harmless(c: Conn, outcome: Outcome, max: int)
    requires InRange(c)
  {
    var d := Step(c, CallConnect(outcome), max);
    Enabled(d, Frame(Ack)) ==> ReallyConnected(Step(d, Frame(Ack), max))
  }

  /** And care is needed, exactly: after a careful run, a connect is harmless if and only if it is careful. */
  lemma CarefulIffHarmless(run: seq<Event>, outcome: Outcome, max: int)
    requires Valid(run, max) && Careful(run, max)
    ensures var c := After(run, max).value;
            CarefulCall(c, CallConnect(outcome)) <==> Harmless(c, outcome, max)
  {
    AlwaysSafe(run, max);
    hide After;
  }

  /** So every run with a careless call has a point where one ack packet breaks the invariant. */
  lemma {:induction false} CarelessRunsBreak(run: seq<Event>, max: int) returns (k: nat)
    requires Valid(run, max) && !Careful(run, max)
    ensures 0 < k <= |run| && Valid(run[..k] + [Frame(Ack)], max)
    ensures !ReallyConnected(After(run[..k] + [Frame(Ack)], max).value)
    decreases |run|
  {
    var init := run[..|run| - 1];
    if Careful(init, max) {
      k := |run|;
      var e := run[|run| - 1];
      var c := After(init, max).value;
      assert After(run, max) == Some(Step(c, e, max)) && run[..k] == run;
      CarefulIffHarmless(init, e.outcome, max);
      OneMore(run, Frame(Ack), max);
    } else {
      k := CarelessRunsBreak(init, max);
      assert init[..k] == run[..k];
    }
  }

  /** "Connected" means connected all along a run, whatever ack comes when, exactly on the careful runs. */
  lemma SafeIffCareful(run: seq<Event>, max: int)
    requires Valid(run, max)
    ensures Careful(run, max) <==> forall k :: 0 <= k <= |run| ==> AckIsSafe(run[..k], max)
  {
    if Careful(run, max) {
      forall k | 0 <= k <= |run| ensures AckIsSafe(run[..k], max) {
        CarefulPrefix(run, k, max);
        CarefulThenAck(run[..k], max);
      }
    } else {
      var k := CarelessRunsBreak(run, max);
      assert !AckIsSafe(run[..k], max);
    }
  }

  /** If the run can go on with an ack, that leaves the client really connected. */
  predicate AckIsSafe(run: seq<Event>, max: int) {
    Valid(run + [Frame(Ack)], max) ==> ReallyConnected(After(run + [Frame(Ack)], max).value)
  }

  lemma CarefulThenAck(run: seq<Event>, max: int)
    requires Valid(run, max) && Careful(run, max)
    ensures AckIsSafe(run, max)
  {
    var longer := run + [Frame(Ack)];
    assert longer[..|run|] == run && longer[|run|] == Frame(Ack);
    if Valid(longer, max) { AlwaysSafe(longer, max); }
  }

  lemma {:induction false} CarefulPrefix(run: seq<Event>, k: nat, max: int)
    requires Valid(run, max) && Careful(run, max) && k <= |run|
    ensures Valid(run[..k], max) && Careful(run[..k], max)
    decreases |run|
  {
    if k < |run| {
      var init := run[..|run| - 1];
      CarefulPrefix(init, k, max);
      assert init[..k] == run[..k];
    } else {
      assert run[..k] == run;
    }
  }

  /** Such a run exists: a server that disconnects the session, a callback that connects, a late ack. */
  lemma CarelessRunExists()
    ensures var run := [CallConnect(Dialed), PumpBegins, Established, Frame(Ack), Frame(DisconnectPacket),
                        CallConnect(Dialed), Frame(Ack)];
            Valid(run, 5) && !ReallyConnected(After(run, 5).value)
  {
    hide After;
    SessionEnds();
    var a, d := Socket(Open, true), Socket(Dialing, false);
    var r5 := [CallConnect(Dialed), PumpBegins, Established, Frame(Ack), Frame(DisconnectPacket)];
    OneMore(r5, CallConnect(Dialed), 5);
    assert [a] + [d] == [a, d] && [a, d][0 := a] == [a, d];
    var r6 := r5 + [CallConnect(Dialed)];
    assert After(r6, 5) == Some(Conn(Connecting, [a, d], Some(1), Some(0), 0));
    OneMore(r6, Frame(Ack), 5);
    assert r6 + [Frame(Ack)] == [CallConnect(Dialed), PumpBegins, Established, Frame(Ack), Frame(DisconnectPacket),
                                 CallConnect(Dialed), Frame(Ack)];
  }

  lemma SessionEnds()
    ensures After([CallConnect(Dialed), PumpBegins, Established, Frame(Ack), Frame(DisconnectPacket)], 5) ==
            Some(Conn(Disconnected, [Socket(Open, true)], Some(0), Some(0), 0))
  {
    hide After;
    var d, o, a := Socket(Dialing, false), Socket(Open, false), Socket(Open, true);
    StartsInitial(5);
    var r0: seq<Event> := [];
    OneMore(r0, CallConnect(Dialed), 5);
    assert INITIAL.sockets + [d] == [d];
    var r1 := r0 + [CallConnect(Dialed)];
    OneMore(r1, PumpBegins, 5);
    var r2 := r1 + [PumpBegins];
    OneMore(r2, Established, 5);
    assert [d][0 := o] == [o];
    var r3 := r2 + [Established];
    OneMore(r3, Frame(Ack), 5);
    assert [o][0 := a] == [a];
    var r4 := r3 + [Frame(Ack)];
    OneMore(r4, Frame(DisconnectPacket), 5);
    assert r4 + [Frame(DisconnectPacket)] ==
           [CallConnect(Dialed), PumpBegins, Established, Frame(Ack), Frame(DisconnectPacket)];
  }

  lemma StartsInitial(max: int)
    ensures After([], max) == Some(INITIAL)
  {
  }

  lemma OneMore(run: seq<Event>, e: Event, max: int)
    requires Valid(run, max) && Enabled(After(run, max).value, e)
    ensures After(run + [e], max) == Some(Step(After(run, max).value, e, max))
  {
    assert (run + [e])[..|run|] == run;
  }

  // ---------------------------------------------------------------- how steps end

  /** A close while attempts are left dials again, at once: a new websocket, nothing else in between. */
  lemma CloseDialsAgain(c: Conn, max: int)
    requires InRange(c) && Enabled(c, CloseEvent(Dialed)) && c.attempts < max
    ensures var d := Step(c, CloseEvent(Dialed), max);
            d.state == Connecting && d.attempts == c.attempts + 1 && d.current == Some(|c.sockets|) &&
            |d.sockets| == |c.sockets| + 1 && d.sockets[|c.sockets|] == Socket(Dialing, false) &&
            d.sockets[c.pumped.value].phase == Closed
  {
  }

  /** A reconnect that fails ends in the error state; the websocket it did not come to is gone only if it
      failed at the websocket itself. */
  lemma FailedReconnectIsError(c: Conn, outcome: Outcome, max: int)
    requires InRange(c) && Enabled(c, CloseEvent(outcome)) && c.attempts < max && outcome != Dialed
    ensures var d := Step(c, CloseEvent(outcome), max);
            d.state == Error && d.attempts == c.attempts + 1 && |d.sockets| == |c.sockets| &&
            d.current == if outcome == MintFails || outcome == NoWorker then c.current else None
  {
  }

  /** With no attempts left a close is final: disconnected, no new websocket, for as long as nobody
      connects. */
  lemma {:induction false} NoAttemptsLeftIsFinal(c: Conn, outcome: Outcome, run: seq<Event>, max: int)
    requires InRange(c) && Enabled(c, CloseEvent(outcome)) && c.attempts >= max
    requires Follows(Step(c, CloseEvent(outcome), max), run, max)
    requires forall k :: 0 <= k < |run| ==> !run[k].CallConnect?
    requires c.current == c.pumped
    ensures var d := End(Step(c, CloseEvent(outcome), max), run, max);
            d.state == Disconnected && |d.sockets| == |c.sockets|
  {
    StaysDown(Step(c, CloseEvent(outcome), max), run, max);
  }

  /** Nothing is left that could bring the client up: its websocket, and the one being pumped, are dead. */
  predicate Down(c: Conn) {
    InRange(c) && c.state.Disconnected? &&
    (c.current.Some? ==> c.sockets[c.current.value].phase.Closed?) &&
    (c.pumped.Some? ==> PumpedPhase(c).Closed?)
  }

  lemma {:induction false} StaysDown(c: Conn, run: seq<Event>, max: int)
    requires Down(c) && Follows(c, run, max) && forall k :: 0 <= k < |run| ==> !run[k].CallConnect?
    ensures Down(End(c, run, max)) && |End(c, run, max).sockets| == |c.sockets|
    decreases |run|
  {
    if run != [] {
      assert Down(Step(c, run[0], max));
      StaysDown(Step(c, run[0], max), run[1..], max);
    }
  }

  // ---------------------------------------------------------------- a dial that fails

  /** The websocket failed before it was established, and the client does not know. */
  predicate StuckDialing(c: Conn) {
    InRange(c) && c.state.Connecting? && c.current.Some? && c.sockets[c.current.value].phase.Failed? &&
    (c.pumped.Some? ==> c.pumped == c.current)
  }

  /** A run that gets there: a connect, a pump, and the error callback. */
  lemma DialErrorSticks(max: int)
    ensures var run := [CallConnect(Dialed), PumpBegins, DialError];
            Valid(run, max) && StuckDialing(After(run, max).value)
  {
    hide After;
    var d, f := Socket(Dialing, false), Socket(Failed, false);
    var r0: seq<Event> := [];
    StartsInitial(max);
    OneMore(r0, CallConnect(Dialed), max);
    assert INITIAL.sockets + [d] == [d];
    var r1 := r0 + [CallConnect(Dialed)];
    OneMore(r1, PumpBegins, max);
    var r2 := r1 + [PumpBegins];
    OneMore(r2, DialError, max);
    assert [d][0 := f] == [f];
    assert r2 + [DialError] == [CallConnect(Dialed), PumpBegins, DialError];
  }

  /** And on every careful run a failed dial gets there. */
  lemma DialErrorAlwaysSticks(run: seq<Event>, max: int)
    requires Valid(run, max) && Careful(run, max) && Enabled(After(run, max).value, DialError)
    ensures StuckDialing(Step(After(run, max).value, DialError, max))
  {
    AlwaysSafe(run, max);
    hide After;
  }

  /** From then on nothing but `oddsockets_disconnect` helps: whatever else happens, for as long as it
      does not come, the state stays CONNECTING and every connect is refused. */
  lemma {:induction false} OnlyDisconnectHelps(c: Conn, run: seq<Event>, max: int)
    requires StuckDialing(c) && Follows(c, run, max)
    requires forall k :: 0 <= k < |run| ==> !run[k].CallDisconnect?
    ensures StuckDialing(End(c, run, max)) && Refuses(End(c, run, max))
    decreases |run|
  {
    if run != [] {
      var c' := Step(c, run[0], max);
      assert StuckDialing(c');
      OnlyDisconnectHelps(c', run[1..], max);
    }
  }

  /** A disconnect does: it can be called once the pump is over, and the next connect dials anew. */
  lemma DisconnectHelps(c: Conn, max: int)
    requires StuckDialing(c) && c.pumped.None?
    ensures Follows(c, [CallDisconnect, CallConnect(Dialed)], max) &&
            var e := End(c, [CallDisconnect, CallConnect(Dialed)], max);
            e.state.Connecting? && e.current == Some(|c.sockets|) && e.sockets[|c.sockets|] == Socket(Dialing, false)
  {
    var run := [CallDisconnect, CallConnect(Dialed)];
    assert run[1..] == [CallConnect(Dialed)] && run[1..][1..] == [];
  }

  // ---------------------------------------------------------------- reconnects

  /** The reconnect counter stays between 0 and the configured attempts. */
  lemma {:induction false} CounterInBounds(run: seq<Event>, max: int)
    requires Valid(run, max)
    ensures 0 <= After(run, max).value.attempts <= (if max > 0 then max else 0)
    decreases |run|
  {
    if run != [] { CounterInBounds(run[..|run| - 1], max); }
  }

  const MAX_DELAY_MS := 30000

  function Pow2(k: nat): (r: nat)
    ensures r >= 1
  {
    if k == 0 then 1 else 2 * Pow2(k - 1)
  }

  /** The wait before the k-th automatic connect since the last ack, k >= 1. */
  function Delay(base: nat, k: nat): nat
    requires k >= 1
  {
    var d := base * Pow2(k - 1);
    if d > MAX_DELAY_MS then MAX_DELAY_MS else d
  }

  newtype int32 = x: int | -0x8000_0000 <= x < 0x8000_0000

  /** A configuration whose longest delay, before it is capped, is a 32-bit number. */
  ghost predicate Computable(reconnectDelayMs: int32, max: int32) {
    reconnectDelayMs >= 0 &&
    (max > 0 ==> reconnectDelayMs as int * Pow2(max as int - 1) < 0x8000_0000 && Pow2(max as int - 1) < 0x8000_0000)
  }

  /** The same in the 32-bit arithmetic of the source; nothing overflows when base*2^(n-1) fits, n being
      the configured attempts. */
  method Backoff(reconnectDelayMs: int32, attempts: int32, ghost max: int32) returns (delay: int32, microseconds: int32)
    requires 1 <= attempts <= max && Computable(reconnectDelayMs, max)
    ensures delay as int == Delay(reconnectDelayMs as int, attempts as int)
    ensures microseconds as int == 1000 * delay as int
  {
    hide Pow2;
    Pow2Grows(attempts as int - 1, max as int - 1);
    MulMonotone(reconnectDelayMs as int, Pow2(attempts as int - 1), Pow2(max as int - 1));
    var shifted: int32 := Pow2(attempts as int - 1) as int32;
    delay := reconnectDelayMs * shifted;
    if delay > 30000 { delay := 30000; }
    microseconds := delay * 1000;
  }

  lemma MulMonotone(a: nat, b: nat, c: nat)
    requires b <= c
    ensures a * b <= a * c
  {
  }

  lemma {:induction false} Pow2Grows(i: nat, j: nat)
    requires i <= j
    ensures Pow2(i) <= Pow2(j)
    decreases j
  {
    if i < j { Pow2Grows(i, j - 1); }
  }

  /** Each wait doubles the one before, from the configured delay on, up to 30 s. */
  lemma DelaysDouble(base: nat, k: nat)
    requires k >= 1
    ensures Delay(base, 1) == if base > 30_000 then 30_000 else base
    ensures Delay(base, k + 1) == if 2 * Delay(base, k) > 30_000 then 30_000 else 2 * Delay(base, k)
  {
    assert Pow2(0) == 1;
    assert Pow2(k) == 2 * Pow2(k - 1);
    assert base * Pow2(k) == 2 * (base * Pow2(k - 1));
  }

  lemma DelaysNeverDecrease(base: nat, j: nat, k: nat)
    requires 1 <= j <= k
    ensures Delay(base, j) <= Delay(base, k) <= MAX_DELAY_MS
  {
    Pow2Grows(j - 1, k - 1);
    MulMonotone(base, Pow2(j - 1), Pow2(k - 1));
  }

  /** The waits along a run from some state: one per automatic connect. */
  function Waits(c: Conn, run: seq<Event>, base: nat, max: int): seq<nat>
    requires Follows(c, run, max) && c.attempts >= 0
    decreases |run|
  {
    if run == [] then []
    else
      var c' := Step(c, run[0], max);
      (if run[0].CloseEvent? && Reconnects(c, max) then [Delay(base, c.attempts + 1)] else []) + Waits(c', run[1..], base, max)
  }

  function Sum(s: seq<nat>): nat { if s == [] then 0 else s[0] + Sum(s[1..]) }

  /** Between two acks, the k-th automatic connect waits `Delay(base, k)`, and there are at most as many
      as attempts are configured. */
  lemma {:induction false} WaitsBetweenAcks(c: Conn, run: seq<Event>, base: nat, max: int)
    requires Follows(c, run, max) && 0 <= c.attempts <= (if max > 0 then max else 0)
    requires forall k :: 0 <= k < |run| ==> run[k] != Frame(Ack)
    ensures var w := Waits(c, run, base, max);
            c.attempts + |w| <= (if max > 0 then max else 0) &&
            forall k :: 0 <= k < |w| ==> w[k] == Delay(base, c.attempts + k + 1)
    decreases |run|
  {
    if run != [] {
      var c' := Step(c, run[0], max);
      CountsReconnects(c, run[0], max);
      hide Step, Delay, Enabled;
      WaitsBetweenAcks(c', run[1..], base, max);
    }
  }

  lemma CountsReconnects(c: Conn, e: Event, max: int)
    requires InRange(c) && Enabled(c, e) && e != Frame(Ack)
    ensures Step(c, e, max).attempts == if e.CloseEvent? && Reconnects(c, max) then c.attempts + 1 else c.attempts
  {
  }

  /** After an ack, all the waiting before the next one sums to at most base*(2^n - 1). */
  lemma TotalWaitBounded(c: Conn, run: seq<Event>, base: nat, max: nat)
    requires Follows(c, run, max) && c.attempts == 0
    requires forall k :: 0 <= k < |run| ==> run[k] != Frame(Ack)
    ensures Sum(Waits(c, run, base, max)) <= base * (Pow2(max) - 1)
  {
    WaitsBetweenAcks(c, run, base, max);
    var w := Waits(c, run, base, max);
    SumOfDelays(w, base, 0);
    Pow2Grows(|w|, max);
    MulMonotone(base, Pow2(|w|) - 1, Pow2(max) - 1);
  }

  lemma {:induction false} SumOfDelays(w: seq<nat>, base: nat, from: nat)
    requires forall k :: 0 <= k < |w| ==> w[k] == Delay(base, from + k + 1)
    ensures Sum(w) <= base * (Pow2(from + |w|) - Pow2(from))
    decreases |w|
  {
    if w == [] {
      assert base * (Pow2(from) - Pow2(from)) == 0;
    } else {
      forall k | 0 <= k < |w[1..]| ensures w[1..][k] == Delay(base, from + 1 + k + 1) {
        assert w[1..][k] == w[k + 1];
      }
      SumOfDelays(w[1..], base, from + 1);
      Telescope(base, Pow2(from), Pow2(from + |w|));
    }
  }

  lemma Telescope(base: int, p: int, q: int)
    ensures base * (q - 2 * p) + base * p == base * (q - p)
  {
  }
}
