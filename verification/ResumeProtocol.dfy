/**
 * The gateway's session protocol as a state machine: one client, any number of
 * connections it has opened over time, and the server's sessions
 * (services/chat/src/gateway.rs, services/chat/src/session.rs,
 * packages/sdk-chat/src/client.ts).
 *
 * The transport may lose any suffix of what is in flight at any moment, connection loops
 * may outlive the client's socket, the reaper runs whenever it likes, and time passes.
 */
module ResumeProtocol {
  import opened Prelude
  import opened Wire
  import opened ReplayBuffer
  import opened ChatClient

  // ── State ──

  /** A server-side connection: waiting for a command, running a session loop, or over. */
  datatype Phase =
    | Handshake
    | Attached(sessionId: nat, seqNo: nat)
    | Finished

  /**
   * `wire` is the FIFO of frames on their way to the client; once `up` is false, frames
   * are lost. `command` is what the client has sent.
   */
  datatype Conn = Conn(phase: Phase, wire: seq<GatewayEvent>, up: bool, command: Option<Command>)

  /** History variables of a session: all events dispatched in it, and its last disconnect. */
  datatype Record = Record(history: History, droppedAt: Option<nat>)

  /**
   * Session ids index `heap` and `records`; `store` holds the ids the server can still
   * look up. A loop keeps its handle on a session that has left the store.
   */
  datatype Raw = Raw(
    now: nat,
    heap: seq<Session>,
    store: set<nat>,
    records: seq<Record>,
    conns: seq<Conn>,
    client: Client,
    socket: Option<nat>
  )

  predicate Shaped(s: Raw) {
    && |s.heap| == |s.records|
    && (forall sid :: sid in s.store ==> sid < |s.heap|)
    && (forall c {:trigger s.conns[c]} :: 0 <= c < |s.conns| && s.conns[c].phase.Attached? ==>
         s.conns[c].phase.sessionId < |s.heap|)
    && (s.socket.Some? ==> s.socket.value < |s.conns|)
  }

  const Init := Raw(0, [], {}, [], [], FreshClient, None)

  type State = s: Raw | Shaped(s) witness Init

  // ── Steps ──

  datatype Action =
    | Open                                                          // the client opens a WebSocket
    | Deliver                                                       // the client handles the next frame
    | Authenticate(conn: nat, tokenValid: bool, sent: Option<nat>)  // the server handles the command
    | AuthTimeout(conn: nat)                                        // no usable command in time
    | Publish(conn: nat, payload: Bytes, length: nat)               // the loop dispatches an event
    | AckHeartbeat(conn: nat)
    | Cut(conn: nat, kept: nat)                                     // transport failure
    | LoopEnds(conn: nat)                                           // close, read error or missed heartbeat
    | SocketClosed                                                  // the client notices the loss
    | Disconnect                                                    // the application disconnects
    | Advance(ms: nat)
    | Reap

  predicate Enabled(s: State, a: Action) {
    match a
    case Open => s.socket == None
    case Deliver => s.socket.Some? && s.conns[s.socket.value].wire != []
    case Authenticate(c, _, _) => c < |s.conns| && s.conns[c].phase.Handshake? && s.conns[c].command.Some?
    case AuthTimeout(c) => c < |s.conns| && s.conns[c].phase.Handshake?
    case Publish(c, _, _) => c < |s.conns| && s.conns[c].phase.Attached?
    case AckHeartbeat(c) => c < |s.conns| && s.conns[c].phase.Attached?
    case Cut(c, _) => c < |s.conns|
    case LoopEnds(c) => c < |s.conns| && s.conns[c].phase.Attached?
    case SocketClosed => s.socket.Some?
    case Disconnect => true
    case Advance(_) => true
    case Reap => true
  }

  function Send(conn: Conn, frames: seq<GatewayEvent>): Conn {
    if conn.up then conn.(wire := conn.wire + frames) else conn
  }

  function Events(data: seq<Json>): seq<GatewayEvent> {
    if data == [] then [] else [data[0].event] + Events(data[1..])
  }

  function Taken<T>(s: seq<T>, n: nat): seq<T> {
    if n <= |s| then s[..n] else s
  }

  function OpenStep(s: State): State
    requires s.socket == None
  {
    s.(conns := s.conns + [Conn(Handshake, [Hello], true, None)],
       client := Opened(s.client),
       socket := Some(|s.conns|))
  }

  function DeliverStep(s: State): State
    requires Enabled(s, Deliver)
  {
    var c := s.socket.value;
    var conn := s.conns[c];
    var answer := Answer(s.client, conn.wire[0]);
    s.(conns := s.conns[c := conn.(wire := conn.wire[1..], command := if answer.Some? then answer else conn.command)],
       client := HandleFrame(s.client, conn.wire[0]))
  }

  /** What RESUME yields: the replayed events, or None for INVALID_SESSION. */
  function ResumeReply(s: State, sid: nat, k: nat): Option<seq<Json>> {
    if sid in s.store then Replay(s.heap[sid], k) else None
  }

  function Refused(conn: Conn): Conn {
    Send(conn, [InvalidSession(false)]).(phase := Finished)
  }

  /**
   * The handshake's outcome on the connection. `sent` is None when the session loop is
   * reached, and otherwise the number of frames queued before the connection failed.
   */
  function Accepted(conn: Conn, frames: seq<GatewayEvent>, sid: nat, seqNo: nat, sent: Option<nat>): Conn {
    match sent
    case None => Send(conn, frames).(phase := Attached(sid, seqNo))
    case Some(n) => Send(conn, Taken(frames, n)).(phase := Finished, up := false)
  }

  function IdentifyStep(s: State, c: nat, tokenValid: bool, sent: Option<nat>): State
    requires c < |s.conns|
  {
    if !tokenValid then s.(conns := s.conns[c := Refused(s.conns[c])])
    else
      var sid := |s.heap|;
      s.(heap := s.heap + [NewSession],
         store := s.store + {sid},
         records := s.records + [Record([], None)],
         conns := s.conns[c := Accepted(s.conns[c], [Dispatch(None, Ready(sid))], sid, 0, sent)])
  }

  function ResumeStep(s: State, c: nat, sid: nat, k: nat, sent: Option<nat>): State
    requires c < |s.conns|
  {
    match ResumeReply(s, sid, k)
    case None => s.(conns := s.conns[c := Refused(s.conns[c])])
    case Some(replay) =>
      var frames := Events(replay) + [Dispatch(None, Resumed)];
      s.(heap := s.heap[sid := s.heap[sid].(disconnectedAt := None)],
         conns := s.conns[c := Accepted(s.conns[c], frames, sid, s.heap[sid].lastSeq, sent)])
  }

  function PublishStep(s: State, c: nat, payload: Bytes, length: nat): State
    requires c < |s.conns| && s.conns[c].phase.Attached?
  {
    var Attached(sid, n) := s.conns[c].phase;
    var event := Dispatch(Some(n + 1), Published(payload));
    var data := Json(event, length);
    s.(heap := s.heap[sid := Pushed(s.heap[sid], n + 1, data)],
       records := s.records[sid := s.records[sid].(history := s.records[sid].history + [BufferedEvent(n + 1, data)])],
       conns := s.conns[c := Send(s.conns[c], [event]).(phase := Attached(sid, n + 1))])
  }

  function LoopEndStep(s: State, c: nat): State
    requires c < |s.conns| && s.conns[c].phase.Attached?
  {
    var sid := s.conns[c].phase.sessionId;
    s.(heap := s.heap[sid := s.heap[sid].(disconnectedAt := Some(s.now))],
       records := s.records[sid := s.records[sid].(droppedAt := Some(s.now))],
       conns := s.conns[c := s.conns[c].(phase := Finished)])
  }

  function Step(s: State, a: Action): State
    requires Enabled(s, a)
  {
    match a
    case Open => OpenStep(s)
    case Deliver => DeliverStep(s)
    case Authenticate(c, tokenValid, sent) =>
      (match s.conns[c].command.value
       case Identify => IdentifyStep(s, c, tokenValid, sent)
       case Resume(sid, k) => ResumeStep(s, c, sid, k, sent))
    case AuthTimeout(c) => s.(conns := s.conns[c := Refused(s.conns[c])])
    case Publish(c, payload, length) => PublishStep(s, c, payload, length)
    case AckHeartbeat(c) => s.(conns := s.conns[c := Send(s.conns[c], [HeartbeatAck])])
    case Cut(c, kept) => s.(conns := s.conns[c := s.conns[c].(wire := Taken(s.conns[c].wire, kept), up := false)])
    case LoopEnds(c) => LoopEndStep(s, c)
    case SocketClosed => s.(socket := None, client := ConnectionLost(s.client))
    case Disconnect => s.(socket := None, client := Closed(s.client))
    case Advance(ms) => s.(now := s.now + ms)
    case Reap => s.(store := set sid | sid in s.store && !Expired(s.heap[sid], s.now))
  }

  // ── Runs ──

  /** A RESUME that starts a second loop on a session whose earlier loop still runs. */
  predicate Overlaps(s: State, a: Action)
    requires Enabled(s, a)
  {
    && a.Authenticate?
    && a.sent == None
    && s.conns[a.conn].command.value.Resume?
    && var Resume(sid, k) := s.conns[a.conn].command.value;
    && ResumeReply(s, sid, k).Some?
    && exists c :: 0 <= c < |s.conns| && s.conns[c].phase.Attached? && s.conns[c].phase.sessionId == sid
  }

  /** Every action is possible in turn, and no RESUME overlaps a running loop. */
  predicate ExclusiveRun(s: State, run: seq<Action>)
    decreases run
  {
    run == [] || (Enabled(s, run[0]) && !Overlaps(s, run[0]) && ExclusiveRun(Step(s, run[0]), run[1..]))
  }

  function Exec(s: State, run: seq<Action>): State
    requires ExclusiveRun(s, run)
    decreases run
  {
    if run == [] then s else Exec(Step(s, run[0]), run[1..])
  }

  // ── Guarantees ──

  function Bodies(history: History): seq<Body> {
    if history == [] then []
    else (if history[0].data.event.Dispatch? then [history[0].data.event.body] else []) + Bodies(history[1..])
  }

  /**
   * Exactly once and in order: what the application got in the current session is
   * events 1, 2, ..., lastSeq of that session, each once.
   */
  ghost predicate ExactlyOnceInOrder(s: State) {
    match s.client.sessionId
    case None => s.client.lastSeq == 0 && s.client.handled == []
    case Some(sid) =>
      && sid < |s.records|
      && s.client.lastSeq <= |s.records[sid].history|
      && s.client.handled == Bodies(s.records[sid].history[..s.client.lastSeq])
  }
}
