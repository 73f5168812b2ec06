/** The client object whose methods run the connection: each keeps its fields in step with the state
    machine of module Connection. */
module ClientObject {
  import opened CStrings
  import opened Connection
  import EventFrame

  const SUCCESS := 0
  const ERROR_INVALID_PARAMETER := -1
  const ERROR_INVALID_API_KEY := -2
  const ERROR_CONNECTION_FAILED := -3
  const ERROR_MEMORY_ALLOCATION := -5
  const ERROR_NOT_CONNECTED := -8
  const ERROR_ALREADY_CONNECTED := -9
  const ERROR_WEBSOCKET_ERROR := -12

  /** A websocket_client: its `connected` flag is `phase.Open?`; `queued` are the frames handed to its
      send queue so far (module SendQueue is that queue). */
  class Websocket {
    var phase: Phase
    var queued: seq<string>
    ghost var acked: bool

    constructor ()
      ensures phase == Dialing && !acked && queued == []
    {
      phase := Dialing;
      queued := [];
      acked := false;
    }

    /** `memory` says whether the node and its copy of the frame can be allocated. */
    method Send(frame: string, memory: bool) returns (result: int)
      modifies this`queued
      ensures result == if phase.Open? && memory then 0 else -1
      ensures queued == if result == 0 then old(queued) + [frame] else old(queued)
    {
      if !phase.Open? { return -1; }
      if !memory { return -1; }
      queued := queued + [frame];
      return 0;
    }
  }

  /** `send_socketio_connect` with an API key. */
  function ConnectPacket(userId: string, apiKey: string): string {
    "40{\"apiKey\":\"" + apiKey + "\",\"userId\":\"" + userId + "\"}"
  }

  class Client {
    const apiKey: string
    const userId: string
    const maxAttempts: int32
    const reconnectDelayMs: int32
    var state: State
    var websocket: Websocket?
    var reconnectAttempts: int32
    ghost var made: seq<Websocket>        // every websocket ever created
    ghost var current: Option<nat>        // which of them `websocket` is
    ghost var pumped: Option<nat>         // which of them is inside its service call

    ghost predicate Valid()
      reads this
    {
      (forall i, j :: 0 <= i < j < |made| ==> made[i] != made[j]) &&
      (current.Some? ==> current.value < |made| && websocket == made[current.value]) &&
      (current.None? ==> websocket == null) &&
      (pumped.Some? ==> pumped.value < |made|) &&
      0 <= reconnectAttempts && Computable(reconnectDelayMs, maxAttempts)
    }

    ghost function Sockets(): (r: seq<Socket>)
      reads this, made
      ensures |r| == |made| && forall i :: 0 <= i < |r| ==> r[i] == Socket(made[i].phase, made[i].acked)
    {
      seq(|made|, i requires 0 <= i < |made| reads this, made => Socket(made[i].phase, made[i].acked))
    }

    ghost function Abs(): (c: Conn)
      requires Valid()
      reads this, made
      ensures InRange(c)
    {
      Conn(state, Sockets(), current, pumped, reconnectAttempts as int)
    }

    constructor (apiKey: string, userId: string, maxAttempts: int32, reconnectDelayMs: int32)
      requires Computable(reconnectDelayMs, maxAttempts)
      ensures Valid() && Abs() == INITIAL && made == []
      ensures this.apiKey == apiKey && this.userId == userId
      ensures this.maxAttempts == maxAttempts && this.reconnectDelayMs == reconnectDelayMs
    {
      this.apiKey, this.userId := apiKey, userId;
      this.maxAttempts, this.reconnectDelayMs := maxAttempts, reconnectDelayMs;
      state, websocket, reconnectAttempts := Disconnected, null, 0;
      made, current, pumped := [], None, None;
    }

    /** `oddsockets_connect`; `outcome` is how far the provider, the manager and libwebsockets let it get,
        `workerError` what the worker assignment returns if it fails. */
    method Connect(outcome: Outcome, workerError: int) returns (result: int)
      requires Valid()
      modifies this`state, this`websocket, this`made, this`current
      ensures Valid() && Abs() == AfterConnect(old(Abs()), outcome)
      ensures result == if Refuses(old(Abs())) then ERROR_ALREADY_CONNECTED else ConnectResult(outcome, workerError)
      // in the words of the fields
      ensures old(state).Connected? || old(state).Connecting? ==>
                result == ERROR_ALREADY_CONNECTED && state == old(state) && websocket == old(websocket)
      ensures !(old(state).Connected? || old(state).Connecting?) && outcome.Dialed? ==>
                result == SUCCESS && state.Connecting? && websocket != null && fresh(websocket) &&
                websocket.phase.Dialing? && websocket.queued == []
      ensures !(old(state).Connected? || old(state).Connecting?) && !outcome.Dialed? ==> state.Error?
      ensures state.Error? ==> websocket == null || websocket == old(websocket)
      ensures old(made) <= made && fresh(made[|old(made)|..]) && forall ws <- made[|old(made)|..] :: ws.queued == []
    {
      if state.Connected? || state.Connecting? { return ERROR_ALREADY_CONNECTED; }
      state := Connecting;
      if outcome.MintFails? {
        state := Error;
        return ERROR_INVALID_API_KEY;
      }
      if outcome.NoWorker? {
        state := Error;
        return workerError;
      }
      if outcome.NoWebsocket? {
        websocket, current := null, None;
        state := Error;
        return ERROR_CONNECTION_FAILED;
      }
      if outcome.DialFails? {
        websocket, current := null, None;
        state := Error;
        return ERROR_CONNECTION_FAILED;
      }
      Attach();
      return SUCCESS;
    }

    /** A new websocket takes the place of the old one. */
    method Attach()
      requires Valid()
      modifies this`websocket, this`made, this`current
      ensures Valid()
      ensures |made| == |old(made)| + 1 && old(made) == made[..|old(made)|] && fresh(made[|old(made)|])
      ensures made[|old(made)|].queued == []
      ensures var c := old(Abs());
              Abs() == c.(sockets := c.sockets + [Socket(Dialing, false)], current := Some(|c.sockets|))
    {
      var ws := new Websocket();
      ghost var before := Sockets();
      websocket, current, made := ws, Some(|made|), made + [ws];
      assert Sockets() == before + [Socket(Dialing, false)];
    }

    /** `oddsockets_disconnect`, outside a pump. */
    method Disconnect()
      requires Valid() && pumped.None?
      modifies this`state, this`websocket, this`current, made
      ensures Valid() && Abs() == Step(old(Abs()), CallDisconnect, maxAttempts as int)
      ensures state.Disconnected? && websocket == null
      ensures old(websocket) != null ==> old(websocket).phase.Closed?
    {
      if websocket != null {
        websocket.phase := Closed;
        websocket, current := null, None;
      }
      state := Disconnected;
    }

    /** `oddsockets_process_events` enters the service call of the client's websocket, if there is one. */
    method BeginPump() returns (serviced: bool)
      requires Valid() && pumped.None?
      modifies this`pumped
      ensures Valid() && serviced == (websocket != null) && (serviced ==> pumped == current)
      ensures Abs() == if serviced then Step(old(Abs()), PumpBegins, maxAttempts as int) else old(Abs())
    {
      if websocket == null { return false; }
      pumped := current;
      return true;
    }

    /** And comes back from it. */
    method EndPump()
      requires Valid() && pumped.Some?
      modifies this`pumped
      ensures Valid() && pumped.None? && Abs() == Step(old(Abs()), PumpEnds, maxAttempts as int)
    {
      pumped := None;
    }

    /** The CONNECTION_ERROR callback: the websocket is dead, and the client's state stays as it is. */
    method OnConnectionError(ws: Websocket)
      requires Valid() && Enabled(Abs(), DialError) && ws == made[pumped.value]
      modifies ws`phase
      ensures Valid() && Abs() == Step(old(Abs()), DialError, maxAttempts as int)
      ensures ws.phase.Failed?
    {
      ws.phase := Failed;
    }

    /** `on_websocket_message`, called by the pumped websocket; module Receive goes on with event packets.
        `memory` says whether a reply can be queued. */
    method OnMessage(message: string, memory: bool) returns (ghost reply: Option<string>)
      requires Valid() && Enabled(Abs(), Frame(Classify(message)))
      modifies this`state, this`reconnectAttempts, made`acked, made`queued
      ensures Valid() && made == old(made) && Abs() == Step(old(Abs()), Frame(Classify(message)), maxAttempts as int)
      // the packet table, on the text itself
      ensures "40" <= message ==> state.Connected? && reconnectAttempts == 0 && made[pumped.value].acked
      ensures "41" <= message ==> state.Disconnected? && reconnectAttempts == old(reconnectAttempts)
      ensures !("40" <= message) && !("41" <= message) ==>
                state == old(state) && reconnectAttempts == old(reconnectAttempts)
      ensures reply == if "0" <= message then Some(ConnectPacket(userId, apiKey))
                       else if "2" <= message then Some("3") else None
      ensures websocket == old(websocket)
      ensures websocket != null ==>
                websocket.queued == if reply.Some? && websocket.phase.Open? && memory
                                    then old(websocket.queued) + [reply.value] else old(websocket.queued)
      ensures forall ws <- made :: ws != websocket ==> ws.queued == old(ws.queued)
    {
      reply := None;
      if |message| == 0 { return; }
      if message[0] == '0' {
        var packet := ConnectPacket(userId, apiKey);
        reply := Some(packet);
        if websocket != null { var sent := websocket.Send(packet, memory); }
      } else if message[0] == '2' {
        reply := Some("3");
        if websocket != null { var sent := websocket.Send("3", memory); }
      } else if message[0] == '4' && |message| > 1 {
        if message[1] == '0' {
          state := Connected;
          made[pumped.value].acked := true;
          reconnectAttempts := 0;
        } else if message[1] == '1' {
          state := Disconnected;
        }
      }
    }

    method OnEstablished(ws: Websocket)
      requires Valid() && Enabled(Abs(), Established) && ws == made[pumped.value]
      modifies ws`phase
      ensures Valid() && Abs() == Step(old(Abs()), Established, maxAttempts as int)
      ensures ws.phase.Open?
    {
      ws.phase := Open;
    }

    /** The CLOSED callback and `on_websocket_disconnected`: close, count, wait, and connect again. */
    method OnDisconnected(ws: Websocket, outcome: Outcome, workerError: int) returns (waited: Option<int32>)
      requires Valid() && Enabled(Abs(), CloseEvent(outcome)) && ws == made[pumped.value]
      modifies this`state, this`websocket, this`made, this`current, this`reconnectAttempts, ws
      ensures Valid() && Abs() == Step(old(Abs()), CloseEvent(outcome), maxAttempts as int)
      ensures Waits(waited, old(Abs()))
      // with attempts left it dials again; otherwise the close is final
      ensures ws.phase.Closed?
      ensures old(reconnectAttempts) < maxAttempts ==>
                reconnectAttempts == old(reconnectAttempts) + 1 &&
                if outcome.Dialed?
                then state.Connecting? && websocket != null && fresh(websocket) && websocket.phase.Dialing?
                else state.Error?
      ensures old(reconnectAttempts) >= maxAttempts ==>
                state.Disconnected? && websocket == old(websocket) && reconnectAttempts == old(reconnectAttempts)
    {
      MarkClosed(ws);
      waited := CountAttempt();
      if waited.Some? {
        var result := Connect(outcome, workerError);
      }
    }

    /** The wait in microseconds that a close in state `c` begins with. */
    ghost predicate Waits(waited: Option<int32>, c: Conn)
      requires reconnectDelayMs >= 0 && c.attempts >= 0
    {
      waited.Some? == Reconnects(c, maxAttempts as int) &&
      (waited.Some? ==> waited.value as int == 1000 * Delay(reconnectDelayMs as int, c.attempts + 1))
    }

    /** Disconnected; and if attempts are left, one more is counted and its wait computed, in 32 bits. */
    method CountAttempt() returns (waited: Option<int32>)
      requires Valid()
      modifies this`state, this`reconnectAttempts
      ensures Valid()
      ensures var d := old(Abs()).(state := State.Disconnected);
              Abs() == if Reconnects(d, maxAttempts as int) then d.(state := Reconnecting, attempts := d.attempts + 1)
                       else d
      ensures Waits(waited, old(Abs()))
    {
      state := Disconnected;
      if reconnectAttempts >= maxAttempts { return None; }
      state := Reconnecting;
      reconnectAttempts := reconnectAttempts + 1;
      var delay, microseconds := Backoff(reconnectDelayMs, reconnectAttempts, maxAttempts);
      return Some(microseconds);
    }

    method MarkClosed(ws: Websocket)
      requires Valid() && pumped.Some? && ws == made[pumped.value]
      modifies ws
      ensures Valid()
      ensures Abs() == WithPumped(old(Abs()), old(Abs()).sockets[pumped.value].(phase := Closed))
    {
      ws.phase := Closed;
    }

    /** `oddsockets_emit` and the channel calls, as far as the connection is concerned. The frame and the
        queue's copy of it need memory. */
    method Emit(event: string, payload: Option<string>, frameMemory: bool, queueMemory: bool) returns (result: int)
      requires Valid()
      modifies if websocket == null then {} else {websocket}
      ensures Valid() && Abs() == old(Abs())
      ensures result == if event == "" then ERROR_INVALID_PARAMETER
                        else if !state.Connected? || websocket == null then ERROR_NOT_CONNECTED
                        else if !frameMemory then ERROR_MEMORY_ALLOCATION
                        else if !websocket.phase.Open? || !queueMemory then ERROR_WEBSOCKET_ERROR
                        else SUCCESS
      ensures QueuesOn(Abs(), CallEmit).Some? <==> state.Connected? && websocket != null && websocket.phase.Open?
      ensures websocket != null ==>
                websocket.queued == if result == SUCCESS then old(websocket.queued) + [EventFrame.Frame(event, payload)]
                                    else old(websocket.queued)
    {
      if event == "" { return ERROR_INVALID_PARAMETER; }
      if !state.Connected? { return ERROR_NOT_CONNECTED; }
      if websocket == null { return ERROR_NOT_CONNECTED; }
      if !frameMemory { return ERROR_MEMORY_ALLOCATION; }
      var frame := EventFrame.BuildFrame(event, payload);
      var sent := websocket.Send(frame, queueMemory);
      return if sent == 0 then SUCCESS else ERROR_WEBSOCKET_ERROR;
    }

    /** A whole handshake: connect, then one pump that brings the connection, an OPEN and an ack. The
        client is connected, and the CONNECT packet is all that is queued. */
    method Handshake(open: string, ack: string)
      requires Valid() && pumped.None? && !Refuses(Abs())
      requires "0" <= open && "40" <= ack
      modifies this`state, this`websocket, this`made, this`current, this`pumped, this`reconnectAttempts, made
      ensures Valid() && state.Connected? && pumped.None? && reconnectAttempts == 0
      ensures websocket != null && fresh(websocket) && websocket.phase.Open?
      ensures websocket.queued == [ConnectPacket(userId, apiKey)]
    {
      var result := Connect(Dialed, 0);
      assert current == Some(|old(made)|) && websocket in made[|old(made)|..];
      FirstPump(open, ack);
    }

    method FirstPump(open: string, ack: string)
      requires Valid() && pumped.None? && websocket != null && websocket.phase.Dialing? && websocket.queued == []
      requires "0" <= open && "40" <= ack
      modifies this`state, this`pumped, this`reconnectAttempts, made
      ensures Valid() && state.Connected? && pumped.None? && reconnectAttempts == 0
      ensures websocket.phase.Open? && websocket.queued == [ConnectPacket(userId, apiKey)]
    {
      Establish(open);
      ghost var reply := OnMessage(ack, true);
      assert Abs().state.Connected? && Abs().attempts == 0;
      hide Step;
      EndPump();
    }

    method Establish(open: string)
      requires Valid() && pumped.None? && websocket != null && websocket.phase.Dialing? && websocket.queued == []
      requires "0" <= open
      modifies this`state, this`pumped, this`reconnectAttempts, made
      ensures Valid() && pumped.Some? && PumpedPhase(Abs()).Open? && pumped == current
      ensures websocket.phase.Open? && websocket.queued == [ConnectPacket(userId, apiKey)]
    {
      var serviced := BeginPump();
      OnEstablished(websocket);
      assert PumpedPhase(Abs()).Open?;
      ghost var reply := OnMessage(open, true);
    }
  }

  /** The result code of a connect that is not refused. */
  function ConnectResult(outcome: Outcome, workerError: int): int {
    match outcome
    case MintFails => ERROR_INVALID_API_KEY
    case NoWorker => workerError
    case NoWebsocket => ERROR_CONNECTION_FAILED
    case DialFails => ERROR_CONNECTION_FAILED
    case Dialed => SUCCESS
  }
}
