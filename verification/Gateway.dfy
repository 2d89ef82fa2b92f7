/** The connection handler of services/chat/src/gateway.rs, on the mutable session objects. */
module Gateway {
  import opened Prelude
  import opened Wire
  import opened ReplayBuffer
  import opened ResumeProtocol
  import opened SessionStore

  const HEARTBEAT_TIMEOUT_MS: nat := 45_000

  /** The channel into the writer task, which takes `room` more frames before it dies. */
  class Outbox {
    var sent: seq<GatewayEvent>
    var room: nat

    constructor (room: nat)
      ensures sent == [] && this.room == room
    {
      sent := [];
      this.room := room;
    }

    method Send(frame: GatewayEvent) returns (ok: bool)
      modifies this
      ensures ok <==> old(room) > 0
      ensures sent == old(sent) + Taken([frame], old(room))
      ensures room == if ok then old(room) - 1 else 0
    {
      ok := room > 0;
      if ok {
        sent := sent + [frame];
        room := room - 1;
      }
    }
  }

  /** Room left in the writer's queue after offering it `frames`. */
  function Left(room: nat, frames: seq<GatewayEvent>): nat {
    if |frames| <= room then room - |frames| else 0
  }

  lemma TakenAppend(a: seq<GatewayEvent>, b: seq<GatewayEvent>, room: nat)
    ensures Taken(a + b, room) == Taken(a, room) + Taken(b, Left(room, a))
  {
  }

  // ── Handshake ──

  method HandleIdentify(store: Store, sessionId: nat, tokenValid: bool, out: Outbox)
    returns (started: Option<SessionInner>)
    requires sessionId !in store.sessions
    modifies store, out
    ensures !tokenValid ==> started == None && store.sessions == old(store.sessions)
    ensures !tokenValid ==> out.sent == old(out.sent) + Taken([InvalidSession(false)], old(out.room))
    ensures tokenValid ==> out.sent == old(out.sent) + Taken([Dispatch(None, Ready(sessionId))], old(out.room))
    ensures tokenValid ==> sessionId in store.sessions && fresh(store.sessions[sessionId])
    ensures tokenValid ==> store.sessions == old(store.sessions)[sessionId := store.sessions[sessionId]]
    ensures tokenValid ==> store.sessions[sessionId].Valid() && store.sessions[sessionId].View() == NewSession
    ensures tokenValid ==> started == if old(out.room) > 0 then Some(store.sessions[sessionId]) else None
  {
    if !tokenValid {
      var _ := out.Send(InvalidSession(false));
      return None;
    }
    var session := store.Create(sessionId);
    var ok := out.Send(Dispatch(None, Ready(sessionId)));
    if !ok {
      return None;
    }
    return Some(session);
  }

  /** The number the new loop starts from, or None when the loop is not reached. */
  method HandleResume(store: Store, sessionId: nat, seqNo: nat, out: Outbox) returns (initialSeq: Option<nat>)
    requires sessionId in store.sessions ==> store.sessions[sessionId].Valid()
    modifies out, (if sessionId in store.sessions then {store.sessions[sessionId]} else {})
    ensures var known := sessionId in store.sessions;
            known ==>
              && store.sessions[sessionId].Valid()
              && store.sessions[sessionId].history == old(store.sessions[sessionId].history)
    ensures var reply := old(if sessionId in store.sessions then Replay(store.sessions[sessionId].View(), seqNo)
                             else None);
            match reply
            case None =>
              && initialSeq == None
              && out.sent == old(out.sent) + Taken([InvalidSession(false)], old(out.room))
              && (sessionId in store.sessions ==>
                   store.sessions[sessionId].View() == old(store.sessions[sessionId].View()))
            case Some(replay) =>
              var frames := Events(replay) + [Dispatch(None, Resumed)];
              && out.sent == old(out.sent) + Taken(frames, old(out.room))
              && store.sessions[sessionId].View() == old(store.sessions[sessionId].View()).(disconnectedAt := None)
              && initialSeq == if |frames| <= old(out.room) then Some(old(store.sessions[sessionId].lastSeq)) else None
  {
    var found := store.Get(sessionId);
    if found == None {
      var _ := out.Send(InvalidSession(false));
      return None;
    }
    var session := found.value;
    var reply := session.ReplayFrom(seqNo);
    if reply == None {
      var _ := out.Send(InvalidSession(false));
      return None;
    }
    session.MarkConnected();
    var lastSeq := session.lastSeq;
    TakenAppend(Events(reply.value), [Dispatch(None, Resumed)], out.room);
    var ok := SendReplay(out, reply.value);
    if !ok {
      return None;
    }
    ok := out.Send(Dispatch(None, Resumed));
    if !ok {
      return None;
    }
    return Some(lastSeq);
  }

  /** Sends the replayed events until the writer stops taking them. */
  method SendReplay(out: Outbox, replay: seq<Json>) returns (ok: bool)
    modifies out
    ensures ok <==> |Events(replay)| <= old(out.room)
    ensures out.sent == old(out.sent) + Taken(Events(replay), old(out.room))
    ensures out.room == Left(old(out.room), Events(replay))
  {
    EventsSize(replay);
    var i := 0;
    while i < |replay|
      invariant 0 <= i <= |replay|
      invariant i <= old(out.room) && out.room == old(out.room) - i
      invariant out.sent == old(out.sent) + Events(replay)[..i]
    {
      EventsAt(replay, i);
      assert Events(replay)[..i + 1] == Events(replay)[..i] + [replay[i].event];
      ok := out.Send(replay[i].event);
      if !ok {
        return;
      }
      i := i + 1;
    }
    ok := true;
  }

  lemma {:induction false} EventsSize(data: seq<Json>)
    ensures |Events(data)| == |data|
  {
    if data != [] {
      EventsSize(data[1..]);
    }
  }

  lemma {:induction false} EventsAt(data: seq<Json>, i: nat)
    requires i < |data|
    ensures i < |Events(data)| && Events(data)[i] == data[i].event
  {
    EventsSize(data);
    if i > 0 {
      EventsAt(data[1..], i - 1);
    }
  }

  // ── Session loop ──

  /** What `select!` yields: a published event, a client frame, or a timer tick. */
  datatype Input =
    | Nats(payload: Bytes, length: nat)
    | Heartbeat(at: nat)
    | OtherFrame
    | Closed
    | Tick(at: nat)

  function NumberedEvent(payload: Bytes, seqNo: nat): GatewayEvent {
    Dispatch(Some(seqNo), Published(payload))
  }

  /** The events a loop starting after `seqNo` buffers for these inputs. */
  function Buffered(inputs: seq<Input>, seqNo: nat): History {
    if inputs == [] then []
    else if inputs[0].Nats? then
      [BufferedEvent(seqNo + 1, Json(NumberedEvent(inputs[0].payload, seqNo + 1), inputs[0].length))]
        + Buffered(inputs[1..], seqNo + 1)
    else Buffered(inputs[1..], seqNo)
  }

  /** The frames it offers to the writer. */
  function Offered(inputs: seq<Input>, seqNo: nat): seq<GatewayEvent> {
    if inputs == [] then []
    else if inputs[0].Nats? then [NumberedEvent(inputs[0].payload, seqNo + 1)] + Offered(inputs[1..], seqNo + 1)
    else if inputs[0].Heartbeat? then [HeartbeatAck] + Offered(inputs[1..], seqNo)
    else Offered(inputs[1..], seqNo)
  }

  lemma {:induction false} SnocInput(inputs: seq<Input>, input: Input, seqNo: nat)
    ensures var last := seqNo + |Buffered(inputs, seqNo)|;
            && Buffered(inputs + [input], seqNo) == Buffered(inputs, seqNo) + Buffered([input], last)
            && Offered(inputs + [input], seqNo) == Offered(inputs, seqNo) + Offered([input], last)
  {
    if inputs == [] {
      assert inputs + [input] == [input];
    } else {
      assert (inputs + [input])[1..] == inputs[1..] + [input];
      SnocInput(inputs[1..], input, if inputs[0].Nats? then seqNo + 1 else seqNo);
    }
  }

  /** A loop that starts where the session stands continues the numbering 1, 2, 3, ... */
  lemma {:induction false} BufferedContinues(history: History, inputs: seq<Input>)
    requires Numbered(history)
    ensures Numbered(history + Buffered(inputs, |history|))
    decreases |inputs|
  {
    if inputs == [] {
      assert history + Buffered(inputs, |history|) == history;
    } else if inputs[0].Nats? {
      var n := |history| + 1;
      var e := BufferedEvent(n, Json(NumberedEvent(inputs[0].payload, n), inputs[0].length));
      BufferedContinues(history + [e], inputs[1..]);
      assert history + Buffered(inputs, |history|) == history + [e] + Buffered(inputs[1..], n);
    } else {
      BufferedContinues(history, inputs[1..]);
    }
  }

  /** When the client last sent a heartbeat. */
  function LastBeat(inputs: seq<Input>, startedAt: nat): nat {
    if inputs == [] then startedAt
    else
      var last := inputs[|inputs| - 1];
      if last.Heartbeat? then last.at else LastBeat(inputs[..|inputs| - 1], startedAt)
  }

  /** The loop gives up at input i: closed, silent for too long, or the writer is gone. */
  ghost predicate StopsAt(inputs: seq<Input>, i: nat, initialSeq: nat, startedAt: nat, room: nat)
    requires i < |inputs|
  {
    match inputs[i]
    case Closed => true
    case Tick(at) => at - LastBeat(inputs[..i], startedAt) > HEARTBEAT_TIMEOUT_MS
    case Nats(_, _) => |Offered(inputs[..i + 1], initialSeq)| > room
    case _ => false
  }

  /** Heartbeats arrive in the order of their times, and after the loop has started. */
  ghost predicate BeatsInOrder(inputs: seq<Input>, startedAt: nat) {
    && (forall j {:trigger inputs[j]} :: 0 <= j < |inputs| && inputs[j].Heartbeat? ==> startedAt <= inputs[j].at)
    && (forall j, k {:trigger inputs[j], inputs[k]} ::
          0 <= j < k < |inputs| && inputs[j].Heartbeat? && inputs[k].Heartbeat? ==> inputs[j].at <= inputs[k].at)
  }

  lemma {:induction false} LastBeatIsLatest(inputs: seq<Input>, startedAt: nat)
    requires BeatsInOrder(inputs, startedAt)
    ensures startedAt <= LastBeat(inputs, startedAt)
    ensures forall j :: 0 <= j < |inputs| && inputs[j].Heartbeat? ==> inputs[j].at <= LastBeat(inputs, startedAt)
    ensures LastBeat(inputs, startedAt) == startedAt
         || exists j :: 0 <= j < |inputs| && inputs[j].Heartbeat? && inputs[j].at == LastBeat(inputs, startedAt)
  {
    if inputs != [] {
      var front := inputs[..|inputs| - 1];
      assert forall j :: 0 <= j < |front| ==> front[j] == inputs[j];
      LastBeatIsLatest(front, startedAt);
      forall j | 0 <= j < |inputs| && inputs[j].Heartbeat? ensures inputs[j].at <= LastBeat(inputs, startedAt) {
        if j < |front| {
          assert front[j].Heartbeat?;
        }
      }
    }
  }

  /**
   * What ends a loop: a close; a published event that the writer no longer takes; or a tick
   * more than 45 s after the loop's start and after every heartbeat so far.
   */
  lemma LoopStopsIff(inputs: seq<Input>, i: nat, initialSeq: nat, startedAt: nat, room: nat)
    requires i < |inputs| && BeatsInOrder(inputs, startedAt)
    ensures StopsAt(inputs, i, initialSeq, startedAt, room)
       <==> match inputs[i]
            case Closed => true
            case Nats(_, _) => |Offered(inputs[..i + 1], initialSeq)| > room
            case Tick(at) =>
              && at > startedAt + 45_000
              && forall j :: 0 <= j < i && inputs[j].Heartbeat? ==> at > inputs[j].at + 45_000
            case _ => false
  {
    assert forall j :: 0 <= j < i ==> inputs[..i][j] == inputs[j];
    LastBeatIsLatest(inputs[..i], startedAt);
  }

  /** Buffer first, then send: an event the writer no longer takes can still be replayed. */
  method DispatchEvent(session: SessionInner, out: Outbox, payload: Bytes, length: nat, seqNo: nat) returns (ok: bool)
    requires session.Valid()
    modifies session, out
    ensures session.Valid()
    ensures session.history == old(session.history)
            + [BufferedEvent(seqNo, Json(NumberedEvent(payload, seqNo), length))]
    ensures session.View() == Pushed(old(session.View()), seqNo, Json(NumberedEvent(payload, seqNo), length))
    ensures out.sent == old(out.sent) + Taken([NumberedEvent(payload, seqNo)], old(out.room))
    ensures ok <==> old(out.room) > 0
    ensures out.room == if ok then old(out.room) - 1 else 0
  {
    var event := NumberedEvent(payload, seqNo);
    session.Push(seqNo, Json(event, length));
    ok := out.Send(event);
  }

  /** One turn of the loop after sequence number `seqNo`. */
  method HandleInput(session: SessionInner, out: Outbox, input: Input, seqNo: nat, lastHeartbeat: nat)
    returns (running: bool, beat: nat)
    requires session.Valid()
    modifies session, out
    ensures session.Valid()
    ensures session.history == old(session.history) + Buffered([input], seqNo)
    ensures |Buffered([input], seqNo)| == if input.Nats? then 1 else 0
    ensures out.sent == old(out.sent) + Taken(Offered([input], seqNo), old(out.room))
    ensures out.room == Left(old(out.room), Offered([input], seqNo))
    ensures !running <==> match input
                          case Closed => true
                          case Tick(at) => at - lastHeartbeat > 45_000
                          case Nats(_, _) => old(out.room) == 0
                          case _ => false
    ensures beat == if input.Heartbeat? then input.at else lastHeartbeat
  {
    OneInput(input, seqNo);
    running, beat := true, lastHeartbeat;
    match input {
      case Nats(payload, length) =>
        running := DispatchEvent(session, out, payload, length, seqNo + 1);
      case Heartbeat(at) =>
        beat := at;
        var _ := out.Send(HeartbeatAck);
      case OtherFrame =>
      case Closed =>
        running := false;
      case Tick(at) =>
        running := at - lastHeartbeat <= HEARTBEAT_TIMEOUT_MS;
    }
  }

  /**
   * Buffers every published event under the next number and offers it to the writer, in
   * order; the session is marked disconnected however the loop ends. Running out of
   * inputs is a read error on the socket. Without a subscription there is no loop, and
   * the session is left as it is, not marked disconnected.
   */
  method RunSession(session: SessionInner, out: Outbox, initialSeq: nat, inputs: seq<Input>,
                    startedAt: nat, endedAt: nat, subscribed: bool)
    returns (consumed: nat)
    requires session.Valid()
    modifies session, out
    ensures consumed <= |inputs| && session.Valid()
    ensures !subscribed ==>
              && consumed == 0 && session.history == old(session.history) && session.View() == old(session.View())
              && out.sent == old(out.sent)
    ensures subscribed ==> session.disconnectedAt == Some(endedAt)
    ensures subscribed ==> session.history == old(session.history) + Buffered(inputs[..consumed], initialSeq)
    ensures subscribed ==> out.sent == old(out.sent) + Taken(Offered(inputs[..consumed], initialSeq), old(out.room))
    ensures subscribed ==> forall i :: 0 <= i < consumed - 1 ==>
            !StopsAt(inputs, i, initialSeq, startedAt, old(out.room))
    ensures subscribed && consumed < |inputs| ==>
              consumed > 0 && StopsAt(inputs, consumed - 1, initialSeq, startedAt, old(out.room))
  {
    if !subscribed {
      return 0;
    }
    var seqNo, lastHeartbeat := initialSeq, startedAt;
    ghost var history0, sent0, room0 := session.history, out.sent, out.room;
    ghost var buffered: History, offered: seq<GatewayEvent> := [], [];
    consumed := 0;
    var running := true;
    while running && consumed < |inputs|
      invariant session.Valid()
      invariant LoopState(inputs, consumed, initialSeq, startedAt, room0,
                          running, seqNo, lastHeartbeat, buffered, offered)
      invariant Effect(session.history, out.sent, out.room, history0, sent0, room0, buffered, offered)
    {
      var input := inputs[consumed];
      ghost var more, frames := Buffered([input], seqNo), Offered([input], seqNo);
      EffectGrows(session.history, out.sent, out.room, history0, sent0, room0, buffered, offered, more, frames);
      ghost var beat := lastHeartbeat;
      running, lastHeartbeat := HandleInput(session, out, input, seqNo, lastHeartbeat);
      LoopTurn(inputs, consumed, initialSeq, startedAt, room0, running, seqNo, beat, buffered, offered);
      buffered, offered := buffered + more, offered + frames;
      seqNo := seqNo + if input.Nats? then 1 else 0;
      consumed := consumed + 1;
    }
    session.MarkDisconnected(endedAt);
  }

  /** The loop's variables after `n` inputs. */
  ghost predicate LoopState(inputs: seq<Input>, n: nat, initialSeq: nat, startedAt: nat, room: nat,
                            running: bool, seqNo: nat, beat: nat, buffered: History, offered: seq<GatewayEvent>)
  {
    && n <= |inputs|
    && buffered == Buffered(inputs[..n], initialSeq) && offered == Offered(inputs[..n], initialSeq)
    && seqNo == initialSeq + |buffered| && beat == LastBeat(inputs[..n], startedAt)
    && RanUntil(inputs, n, running, initialSeq, startedAt, room)
  }

  lemma LoopTurn(inputs: seq<Input>, n: nat, initialSeq: nat, startedAt: nat, room: nat,
                 running: bool, seqNo: nat, beat: nat, buffered: History, offered: seq<GatewayEvent>)
    requires n < |inputs| && LoopState(inputs, n, initialSeq, startedAt, room, true, seqNo, beat, buffered, offered)
    requires !running <==> match inputs[n]
                           case Closed => true
                           case Tick(at) => at - beat > HEARTBEAT_TIMEOUT_MS
                           case Nats(_, _) => Left(room, offered) == 0
                           case _ => false
    ensures LoopState(inputs, n + 1, initialSeq, startedAt, room, running,
                      seqNo + if inputs[n].Nats? then 1 else 0,
                      if inputs[n].Heartbeat? then inputs[n].at else beat,
                      buffered + Buffered([inputs[n]], seqNo), offered + Offered([inputs[n]], seqNo))
  {
    OneMore(inputs, n, initialSeq);
    OneInput(inputs[n], seqNo);
    StopsNow(inputs, n, initialSeq, startedAt, room);
  }

  /** What the loop has done to the session and the writer since it started. */
  ghost predicate Effect(history: History, sent: seq<GatewayEvent>, room: nat,
                         history0: History, sent0: seq<GatewayEvent>, room0: nat,
                         buffered: History, offered: seq<GatewayEvent>)
  {
    history == history0 + buffered && sent == sent0 + Taken(offered, room0) && room == Left(room0, offered)
  }

  lemma EffectGrows(history: History, sent: seq<GatewayEvent>, room: nat,
                    history0: History, sent0: seq<GatewayEvent>, room0: nat,
                    buffered: History, offered: seq<GatewayEvent>, more: History, frames: seq<GatewayEvent>)
    requires Effect(history, sent, room, history0, sent0, room0, buffered, offered)
    ensures Effect(history + more, sent + Taken(frames, room), Left(room, frames),
                   history0, sent0, room0, buffered + more, offered + frames)
  {
    TakenAppend(offered, frames, room0);
    assert history0 + buffered + more == history0 + (buffered + more);
  }

  lemma OneMore(inputs: seq<Input>, n: nat, seqNo: nat)
    requires n < |inputs|
    ensures var last := seqNo + |Buffered(inputs[..n], seqNo)|;
            && Buffered(inputs[..n + 1], seqNo) == Buffered(inputs[..n], seqNo) + Buffered([inputs[n]], last)
            && Offered(inputs[..n + 1], seqNo) == Offered(inputs[..n], seqNo) + Offered([inputs[n]], last)
  {
    SnocInput(inputs[..n], inputs[n], seqNo);
    assert inputs[..n] + [inputs[n]] == inputs[..n + 1];
  }

  /** The first `n` inputs were consumed, and only the last of them can have stopped the loop. */
  ghost predicate RanUntil(inputs: seq<Input>, n: nat, running: bool, initialSeq: nat, startedAt: nat, room: nat)
    requires n <= |inputs|
  {
    && (forall i :: 0 <= i < n - 1 ==> !StopsAt(inputs, i, initialSeq, startedAt, room))
    && (running ==> n > 0 ==> !StopsAt(inputs, n - 1, initialSeq, startedAt, room))
    && (!running ==> n > 0 && StopsAt(inputs, n - 1, initialSeq, startedAt, room))
  }

  /** The loop's own test for stopping, from the running state alone. */
  lemma StopsNow(inputs: seq<Input>, n: nat, initialSeq: nat, startedAt: nat, room: nat)
    requires n < |inputs|
    ensures var beat := LastBeat(inputs[..n], startedAt);
            && LastBeat(inputs[..n + 1], startedAt) == (if inputs[n].Heartbeat? then inputs[n].at else beat)
            && (StopsAt(inputs, n, initialSeq, startedAt, room)
                <==> match inputs[n]
                     case Closed => true
                     case Tick(at) => at - beat > HEARTBEAT_TIMEOUT_MS
                     case Nats(_, _) => Left(room, Offered(inputs[..n], initialSeq)) == 0
                     case _ => false)
  {
    OneMore(inputs, n, initialSeq);
    OneInput(inputs[n], initialSeq + |Buffered(inputs[..n], initialSeq)|);
    assert inputs[..n + 1][..n] == inputs[..n];
  }

  lemma OneInput(input: Input, seqNo: nat)
    ensures Offered([input], seqNo)
         == match input
            case Nats(payload, _) => [NumberedEvent(payload, seqNo + 1)]
            case Heartbeat(_) => [HeartbeatAck]
            case _ => []
    ensures Buffered([input], seqNo)
         == if input.Nats? then [BufferedEvent(seqNo + 1, Json(NumberedEvent(input.payload, seqNo + 1), input.length))]
           else []
  {
    assert [input][1..] == [];
  }
}
