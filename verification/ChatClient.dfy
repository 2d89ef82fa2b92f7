/** The client's session state machine (packages/sdk-chat/src/client.ts). */
module ChatClient {
  import opened Prelude
  import opened Wire

  datatype ConnectionState = Disconnected | Connecting | Identifying | Resuming | Connected | Reconnecting

  /**
   * The fields that decide what the client asks for and believes. `handled` records the
   * numbered events passed to the application in the current session.
   */
  datatype Client = Client(
    state: ConnectionState,
    sessionId: Option<nat>,
    lastSeq: nat,
    intentionalClose: bool,
    handled: seq<Body>
  )

  const FreshClient := Client(Disconnected, None, 0, false, [])

  function HandleBody(c: Client, body: Body): Client {
    match body
    case Ready(sessionId) => c.(sessionId := Some(sessionId), state := Connected)
    case Resumed => c.(state := Connected)
    case Published(_) => c
  }

  /** The client after one frame. */
  function HandleFrame(c: Client, frame: GatewayEvent): Client {
    if c.intentionalClose then c
    else
      match frame
      case Hello => c.(state := if c.sessionId.Some? then Resuming else Identifying)
      case Dispatch(None, body) => HandleBody(c, body)
      case Dispatch(Some(s), body) => HandleBody(c.(lastSeq := s, handled := c.handled + [body]), body)
      case InvalidSession(resumable) =>
        if resumable then c else c.(sessionId := None, lastSeq := 0, handled := [])
      case HeartbeatAck => c
      case Reconnect => c
  }

  /** What the client sends in answer to a frame. */
  function Answer(c: Client, frame: GatewayEvent): Option<Command> {
    if c.intentionalClose || !frame.Hello? then None
    else if c.sessionId.Some? then Some(Resume(c.sessionId.value, c.lastSeq))
    else Some(Identify)
  }

  function Opened(c: Client): Client {
    c.(state := if c.sessionId.Some? then Resuming else Connecting, intentionalClose := false)
  }

  function ConnectionLost(c: Client): Client {
    c.(state := Reconnecting)
  }

  function Closed(c: Client): Client {
    c.(state := Disconnected, sessionId := None, lastSeq := 0, intentionalClose := true, handled := [])
  }

  // ── Reconnect delay ──

  const BASE_DELAY := 1000
  const MAX_DELAY := 30_000

  lemma FractionOf(f: real, x: real)
    requires 0.0 <= f < 1.0 && 0.0 <= x
    ensures 0.0 <= f * x <= x
  {
  }

  /** A point between 0 and `spread`; `random` is the value drawn from [0, 1). */
  function Jitter(random: real, spread: real): (point: real)
    requires 0.0 <= random < 1.0
    ensures point == random * spread
    ensures 0.0 <= spread ==> 0.0 <= point <= spread
  {
    assert 0.0 <= spread ==> 0.0 <= random * spread <= spread by {
      if 0.0 <= spread {
        FractionOf(random, spread);
      }
    }
    random * spread
  }

  /** Decorrelated jitter: 1 s plus the drawn part of what three times the last delay has above it, capped at 30 s. */
  function NextDelay(prev: int, random: real): (delay: int)
    requires 0.0 <= random < 1.0
    ensures 1000 <= prev ==> 1000 <= delay <= 30_000 && delay <= 3 * prev
    ensures var drawn := 1000.0 + random * (3 * prev - 1000) as real;
            if drawn < 30_000.0 then delay as real <= drawn < (delay + 1) as real else delay == 30_000
  {
    var spread := prev * 3 - BASE_DELAY;
    var jittered := BASE_DELAY + Jitter(random, spread as real).Floor;
    if jittered > MAX_DELAY then MAX_DELAY else jittered
  }

  // ── The object ──

  class ChatClient {
    var state: ConnectionState
    var sessionId: Option<nat>
    var lastSeq: nat
    var intentionalClose: bool
    var reconnectDelay: int
    var reconnectAttempts: nat
    /** Whether a WebSocket is held, and the commands sent on it so far. */
    var hasSocket: bool
    var sent: seq<Command>
    ghost var handled: seq<Body>

    ghost function View(): Client
      reads this
    {
      Client(state, sessionId, lastSeq, intentionalClose, handled)
    }

    /** Delays stay in range, and a client closed on purpose holds no socket. */
    ghost predicate Valid()
      reads this
    {
      && BASE_DELAY <= reconnectDelay <= MAX_DELAY
      && (intentionalClose ==> !hasSocket)
    }

    constructor ()
      ensures Valid() && View() == FreshClient && sent == [] && !hasSocket
    {
      state, sessionId, lastSeq, intentionalClose := Disconnected, None, 0, false;
      reconnectDelay, reconnectAttempts := 1000, 0;
      hasSocket, sent, handled := false, [], [];
    }

    method OpenWebSocket()
      requires Valid() && !intentionalClose
      modifies this
      ensures Valid() && hasSocket && sent == []
      ensures View() == Opened(old(View()))
      ensures reconnectDelay == old(reconnectDelay) && reconnectAttempts == old(reconnectAttempts)
    {
      state := if sessionId.Some? then Resuming else Connecting;
      hasSocket, sent := true, [];
    }

    method Connect()
      requires Valid()
      modifies this
      ensures Valid() && hasSocket
      ensures View() == if old(hasSocket) then old(View()) else Opened(old(View()))
      ensures sessionId == old(sessionId) && lastSeq == old(lastSeq) && handled == old(handled)
      ensures !old(hasSocket) ==>
                !intentionalClose && sent == [] && state == if sessionId.Some? then Resuming else Connecting
    {
      if hasSocket {
        return;
      }
      intentionalClose := false;
      OpenWebSocket();
    }

    method Disconnect()
      requires Valid()
      modifies this
      ensures Valid() && !hasSocket
      ensures View() == Closed(old(View()))
      ensures sessionId == None && lastSeq == 0 && handled == [] && intentionalClose && state == Disconnected
      ensures reconnectDelay == old(reconnectDelay) && reconnectAttempts == old(reconnectAttempts)
    {
      intentionalClose := true;
      sessionId, lastSeq := None, 0;
      handled := [];
      hasSocket := false;
      state := Disconnected;
    }

    /** `onclose`: only an unintended close schedules a reconnect. */
    method OnClose(random: real)
      requires Valid() && 0.0 <= random < 1.0
      modifies this
      ensures Valid() && !hasSocket
      ensures View() == if old(intentionalClose) then old(View()).(state := Disconnected)
              else ConnectionLost(old(View()))
      ensures sessionId == old(sessionId) && lastSeq == old(lastSeq) && handled == old(handled)
      ensures state == if intentionalClose then Disconnected else Reconnecting
      ensures !intentionalClose ==> reconnectDelay == NextDelay(old(reconnectDelay), random)
      ensures !intentionalClose ==> reconnectAttempts == old(reconnectAttempts) + 1
    {
      hasSocket := false;
      if intentionalClose {
        state := Disconnected;
      } else {
        state := Reconnecting;
        reconnectAttempts := reconnectAttempts + 1;
        reconnectDelay := NextDelay(reconnectDelay, random);
      }
    }

    method SendFrame(command: Command)
      modifies this`sent
      ensures sent == if hasSocket then old(sent) + [command] else old(sent)
    {
      if hasSocket {
        sent := sent + [command];
      }
    }

    method HandleHello()
      requires Valid() && !intentionalClose && hasSocket
      modifies this
      ensures Valid() && hasSocket
      ensures View() == HandleFrame(old(View()), Hello)
      ensures sent == old(sent) + [Answer(old(View()), Hello).value]
      ensures reconnectDelay == old(reconnectDelay) && reconnectAttempts == old(reconnectAttempts)
    {
      if sessionId.Some? {
        state := Resuming;
        SendFrame(Resume(sessionId.value, lastSeq));
      } else {
        state := Identifying;
        SendFrame(Identify);
      }
    }

    method HandleDispatch(body: Body)
      requires Valid() && !intentionalClose && hasSocket
      modifies this
      ensures Valid() && hasSocket && sent == old(sent)
      ensures View() == HandleBody(old(View()), body)
      ensures if body.Published?
              then reconnectDelay == old(reconnectDelay) && reconnectAttempts == old(reconnectAttempts)
              else reconnectDelay == 1000 && reconnectAttempts == 0
    {
      match body {
        case Ready(id) =>
          sessionId := Some(id);
          reconnectAttempts, reconnectDelay := 0, 1000;
          state := Connected;
        case Resumed =>
          reconnectAttempts, reconnectDelay := 0, 1000;
          state := Connected;
        case Published(_) =>
      }
    }

    /** `handleFrame`. */
    method OnMessage(frame: GatewayEvent)
      requires Valid() && (hasSocket || intentionalClose)
      modifies this
      ensures Valid()
      ensures View() == HandleFrame(old(View()), frame)
      ensures sent == match Answer(old(View()), frame)
                      case None => old(sent)
                      case Some(command) => old(sent) + [command]
      ensures intentionalClose == old(intentionalClose) && (intentionalClose ==> View() == old(View()))
      ensures !intentionalClose ==>
                match frame
                case Hello =>
                  && sessionId == old(sessionId) && lastSeq == old(lastSeq) && handled == old(handled)
                  && state == (if sessionId.Some? then Resuming else Identifying)
                  && sent == old(sent) + [if sessionId.Some? then Resume(sessionId.value, lastSeq) else Identify]
                case Dispatch(s, body) =>
                  && lastSeq == (if s.Some? then s.value else old(lastSeq))
                  && handled == old(handled) + (if s.Some? then [body] else [])
                  && sessionId == (if body.Ready? then Some(body.sessionId) else old(sessionId))
                  && state == (if body.Published? then old(state) else Connected)
                case InvalidSession(resumable) =>
                  && state == old(state)
                  && if resumable then sessionId == old(sessionId) && lastSeq == old(lastSeq) && handled == old(handled)
                     else sessionId == None && lastSeq == 0 && handled == []
                case _ => View() == old(View())
      ensures if !intentionalClose && frame.Dispatch? && !frame.body.Published?
              then reconnectDelay == 1000 && reconnectAttempts == 0
              else reconnectDelay == old(reconnectDelay) && reconnectAttempts == old(reconnectAttempts)
    {
      if intentionalClose {
        return;
      }
      match frame {
        case Hello =>
          HandleHello();
        case Dispatch(s, body) =>
          if s.Some? {
            lastSeq := s.value;
            handled := handled + [body];
          }
          HandleDispatch(body);
        case InvalidSession(resumable) =>
          if !resumable {
            sessionId, lastSeq := None, 0;
            handled := [];
          }
        case HeartbeatAck =>
        case Reconnect =>
      }
    }
  }
}
