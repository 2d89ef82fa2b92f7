/** Safety of the session protocol over every run. */
module ResumeSafety {
  import opened Prelude
  import opened Wire
  import opened ReplayBuffer
  import opened ChatClient
  import opened ResumeProtocol

  // ── Server invariant ──

  /** Event i of a session carries sequence number i + 1, inside and outside its JSON. */
  ghost predicate WellNumbered(history: History) {
    forall i {:trigger history[i]} :: 0 <= i < |history| ==>
      && history[i].seqNo == i + 1
      && history[i].data.event.Dispatch?
      && history[i].data.event.s == Some(i + 1)
      && history[i].data.event.body.Published?
  }

  ghost predicate SessionOk(session: Session, record: Record, inStore: bool, now: nat) {
    && WellNumbered(record.history)
    && session == BufferOf(record.history, session.disconnectedAt)
    && (session.disconnectedAt.Some? ==> session.disconnectedAt == record.droppedAt)
    && (!inStore ==> session.disconnectedAt.Some? && Expired(session, now))
  }

  ghost predicate LoopOk(phase: Phase, heap: seq<Session>, records: seq<Record>) {
    phase.Attached? ==>
      && phase.sessionId < |heap| == |records|
      && phase.seqNo == |records[phase.sessionId].history|
      && heap[phase.sessionId].disconnectedAt == None
  }

  ghost predicate OneLoopPerSession(conns: seq<Conn>) {
    forall c, d {:trigger conns[c], conns[d]} ::
      0 <= c < d < |conns| && conns[c].phase.Attached? && conns[d].phase.Attached? ==>
      conns[c].phase.sessionId != conns[d].phase.sessionId
  }

  ghost predicate SessionsOk(s: State) {
    forall sid {:trigger s.heap[sid]} :: 0 <= sid < |s.heap| ==>
      SessionOk(s.heap[sid], s.records[sid], sid in s.store, s.now)
  }

  ghost predicate LoopsOk(s: State) {
    && (forall c {:trigger s.conns[c]} :: 0 <= c < |s.conns| ==> LoopOk(s.conns[c].phase, s.heap, s.records))
    && OneLoopPerSession(s.conns)
  }

  // ── What is in flight ──

  /** The client's idea of where it is: its session and the last number seen in it. */
  datatype Mark = Mark(sid: Option<nat>, k: nat)

  function MarkOf(c: Client): Mark {
    Mark(c.sessionId, c.lastSeq)
  }

  ghost predicate Understood(frame: GatewayEvent, m: Mark, records: seq<Record>) {
    match frame
    case InvalidSession(resumable) => !resumable
    case Dispatch(Some(n), body) =>
      && m.sid.Some? && m.sid.value < |records|
      && n == m.k + 1 && n <= |records[m.sid.value].history|
      && records[m.sid.value].history[m.k].data.event == frame
      && body.Published?
    case Dispatch(None, body) =>
      body.Resumed? || (body.Ready? && m == Mark(None, 0) && body.sessionId < |records|)
    case _ => true
  }

  function Next(frame: GatewayEvent, m: Mark): Mark {
    match frame
    case InvalidSession(_) => Mark(None, 0)
    case Dispatch(Some(n), _) => Mark(m.sid, n)
    case Dispatch(None, body) => if body.Ready? then Mark(Some(body.sessionId), m.k) else m
    case _ => m
  }

  /** A client at `m` will understand every frame of `wire` in turn. */
  ghost predicate Explains(wire: seq<GatewayEvent>, m: Mark, records: seq<Record>)
    decreases wire
  {
    wire == [] || (Understood(wire[0], m, records) && Explains(wire[1..], Next(wire[0], m), records))
  }

  /** Where the client will be once it has handled all of `wire`. */
  function After(wire: seq<GatewayEvent>, m: Mark): Mark
    decreases wire
  {
    if wire == [] then m else After(wire[1..], Next(wire[0], m))
  }

  ghost predicate SocketOk(conn: Conn, client: Client, records: seq<Record>) {
    && !client.intentionalClose
    && Explains(conn.wire, MarkOf(client), records)
    && match conn.phase
       case Handshake =>
         && (conn.wire == [] || (conn.wire == [Hello] && conn.command == None))
         && (conn.command == Some(Identify) ==> client.sessionId == None)
         && (conn.command.Some? && conn.command.value.Resume? ==>
               MarkOf(client) == Mark(Some(conn.command.value.sessionId), conn.command.value.seqNo))
       case Attached(sid, n) => conn.up ==> After(conn.wire, MarkOf(client)) == Mark(Some(sid), n)
       case Finished => true
  }

  ghost predicate WireOk(s: State) {
    s.socket.Some? ==> SocketOk(s.conns[s.socket.value], s.client, s.records)
  }

  ghost predicate Inv(s: State) {
    SessionsOk(s) && LoopsOk(s) && ExactlyOnceInOrder(s) && WireOk(s)
  }

  // ── Frames in flight: growing history, appending, cutting ──

  ghost predicate Grows(before: seq<Record>, after: seq<Record>) {
    && |before| <= |after|
    && forall i {:trigger after[i]} :: 0 <= i < |before| ==> before[i].history <= after[i].history
  }

  lemma {:induction false} ExplainsGrow(wire: seq<GatewayEvent>, m: Mark, records: seq<Record>, more: seq<Record>)
    requires Explains(wire, m, records) && Grows(records, more)
    ensures Explains(wire, m, more)
    decreases wire
  {
    if wire != [] {
      ExplainsGrow(wire[1..], Next(wire[0], m), records, more);
      if wire[0].Dispatch? && wire[0].s.Some? {
        assert records[m.sid.value].history <= more[m.sid.value].history;
      }
    }
  }

  lemma {:induction false} ExplainsTaken(wire: seq<GatewayEvent>, m: Mark, records: seq<Record>, n: nat)
    requires Explains(wire, m, records)
    ensures Explains(Taken(wire, n), m, records)
    decreases wire
  {
    if |wire| <= n {
      assert Taken(wire, n) == wire;
    } else if 0 < n {
      assert wire[..n][1..] == wire[1..][..n - 1];
      ExplainsTaken(wire[1..], Next(wire[0], m), records, n - 1);
    }
  }

  lemma {:induction false} ExplainsAppend(wire: seq<GatewayEvent>, more: seq<GatewayEvent>, m: Mark,
                                          records: seq<Record>)
    requires Explains(wire, m, records) && Explains(more, After(wire, m), records)
    ensures Explains(wire + more, m, records)
    decreases wire
  {
    if wire == [] {
      assert wire + more == more;
    } else {
      assert (wire + more)[1..] == wire[1..] + more;
      ExplainsAppend(wire[1..], more, Next(wire[0], m), records);
    }
  }

  lemma {:induction false} AfterAppend(wire: seq<GatewayEvent>, more: seq<GatewayEvent>, m: Mark)
    ensures After(wire + more, m) == After(more, After(wire, m))
    decreases wire
  {
    if wire == [] {
      assert wire + more == more;
    } else {
      assert (wire + more)[1..] == wire[1..] + more;
      AfterAppend(wire[1..], more, Next(wire[0], m));
    }
  }

  /** A replay of everything after k, followed by RESUMED, brings the client up to date. */
  lemma {:induction false} ReplayExplained(sid: nat, k: nat, records: seq<Record>)
    requires sid < |records| && k <= |records[sid].history| && WellNumbered(records[sid].history)
    ensures var frames := Events(DataOf(records[sid].history[k..])) + [Dispatch(None, Resumed)];
            && Explains(frames, Mark(Some(sid), k), records)
            && After(frames, Mark(Some(sid), k)) == Mark(Some(sid), |records[sid].history|)
    decreases |records[sid].history| - k
  {
    var history := records[sid].history;
    var frames := Events(DataOf(history[k..])) + [Dispatch(None, Resumed)];
    if k < |history| {
      assert history[k..][1..] == history[k + 1..];
      ReplayExplained(sid, k + 1, records);
      assert frames[0] == history[k].data.event;
      assert frames[1..] == Events(DataOf(history[k + 1..])) + [Dispatch(None, Resumed)];
    }
  }

  /** Sending frames the client will understand keeps its connection in order. */
  lemma SendExplained(conn: Conn, frames: seq<GatewayEvent>, m: Mark, records: seq<Record>)
    requires Explains(conn.wire, m, records)
    requires conn.up ==> Explains(frames, After(conn.wire, m), records)
    ensures Explains(Send(conn, frames).wire, m, records)
    ensures conn.up ==> After(Send(conn, frames).wire, m) == After(frames, After(conn.wire, m))
  {
    if conn.up {
      ExplainsAppend(conn.wire, frames, m, records);
      AfterAppend(conn.wire, frames, m);
    }
  }

  // ── Each step keeps the invariant ──

  lemma {:induction false} BodiesAppend(a: History, b: History)
    ensures Bodies(a + b) == Bodies(a) + Bodies(b)
  {
    if a == [] {
      assert a + b == b;
    } else {
      assert (a + b)[0] == a[0] && (a + b)[1..] == a[1..] + b;
      BodiesAppend(a[1..], b);
      var head := if a[0].data.event.Dispatch? then [a[0].data.event.body] else [];
      assert head + (Bodies(a[1..]) + Bodies(b)) == head + Bodies(a[1..]) + Bodies(b);
    }
  }

  /** Handling an understood frame moves the client's mark and extends what it handled. */
  lemma HandleUnderstood(s: State, frame: GatewayEvent)
    requires Inv(s) && Understood(frame, MarkOf(s.client), s.records) && !s.client.intentionalClose
    ensures MarkOf(HandleFrame(s.client, frame)) == Next(frame, MarkOf(s.client))
    ensures ExactlyOnceInOrder(s.(client := HandleFrame(s.client, frame)))
  {
    if frame.Dispatch? && frame.s.Some? {
      var k := s.client.lastSeq;
      var history := s.records[s.client.sessionId.value].history;
      BodiesAppend(history[..k], [history[k]]);
      assert history[..k] + [history[k]] == history[..k + 1];
    }
  }

  lemma DeliverKeepsInv(s: State)
    requires Inv(s) && Enabled(s, Deliver)
    ensures Inv(Step(s, Deliver))
  {
    var c := s.socket.value;
    HandleUnderstood(s, s.conns[c].wire[0]);
    var t := DeliverStep(s);
    assert t.conns[c].phase == s.conns[c].phase;
    assert LoopsOk(t);
  }

  lemma OpenKeepsInv(s: State)
    requires Inv(s) && Enabled(s, Open)
    ensures Inv(Step(s, Open))
  {
    var t := OpenStep(s);
    assert LoopsOk(t);
    assert Explains([Hello], MarkOf(t.client), t.records);
  }

  lemma PushKeepsSession(session: Session, record: Record, inStore: bool, now: nat, data: Json)
    requires SessionOk(session, record, inStore, now)
    requires data.event.Dispatch? && data.event.s == Some(|record.history| + 1) && data.event.body.Published?
    ensures var n := |record.history| + 1;
            SessionOk(Pushed(session, n, data), record.(history := record.history + [BufferedEvent(n, data)]),
                      inStore, now)
  {
    PushFollowsHistory(record.history, session.disconnectedAt, |record.history| + 1, data);
  }

  lemma PublishKeepsSessions(s: State, c: nat, payload: Bytes, length: nat)
    requires SessionsOk(s) && LoopsOk(s) && Enabled(s, Publish(c, payload, length))
    ensures SessionsOk(PublishStep(s, c, payload, length))
    ensures Grows(s.records, PublishStep(s, c, payload, length).records)
  {
    var t := PublishStep(s, c, payload, length);
    var Attached(sid, n) := s.conns[c].phase;
    assert LoopOk(s.conns[c].phase, s.heap, s.records);
    var data := Json(Dispatch(Some(n + 1), Published(payload)), length);
    PushKeepsSession(s.heap[sid], s.records[sid], sid in s.store, s.now, data);
    forall i {:trigger t.heap[i]} | 0 <= i < |t.heap|
      ensures SessionOk(t.heap[i], t.records[i], i in t.store, t.now)
    {
      if i != sid {
        assert t.heap[i] == s.heap[i] && t.records[i] == s.records[i];
      }
    }
  }

  lemma PublishKeepsLoops(s: State, c: nat, payload: Bytes, length: nat)
    requires LoopsOk(s) && Enabled(s, Publish(c, payload, length))
    ensures LoopsOk(PublishStep(s, c, payload, length))
  {
    var t := PublishStep(s, c, payload, length);
    assert LoopOk(s.conns[c].phase, s.heap, s.records);
    forall d {:trigger t.conns[d]} | 0 <= d < |t.conns|
      ensures LoopOk(t.conns[d].phase, t.heap, t.records)
    {
      assert LoopOk(s.conns[d].phase, s.heap, s.records);
    }
  }

  lemma ClientKept(s: State, t: State)
    requires ExactlyOnceInOrder(s) && Grows(s.records, t.records) && t.client == s.client
    ensures ExactlyOnceInOrder(t)
  {
    if s.client.sessionId.Some? {
      var sid, k := s.client.sessionId.value, s.client.lastSeq;
      assert s.records[sid].history <= t.records[sid].history;
      assert s.records[sid].history[..k] == t.records[sid].history[..k];
    }
  }

  lemma PublishKeepsInv(s: State, c: nat, payload: Bytes, length: nat)
    requires Inv(s) && Enabled(s, Publish(c, payload, length))
    ensures Inv(Step(s, Publish(c, payload, length)))
  {
    PublishKeepsSessions(s, c, payload, length);
    PublishKeepsLoops(s, c, payload, length);
    var t := PublishStep(s, c, payload, length);
    ClientKept(s, t);
    if s.socket.Some? {
      var conn, m := s.conns[s.socket.value], MarkOf(s.client);
      ExplainsGrow(conn.wire, m, s.records, t.records);
      if s.socket.value == c {
        var Attached(sid, n) := conn.phase;
        var event := Dispatch(Some(n + 1), Published(payload));
        assert t.records[sid].history[n].data.event == event;
        assert Understood(event, Mark(Some(sid), n), t.records);
        SendExplained(conn, [event], m, t.records);
      }
    }
  }

  /** Steps that only touch one connection's wire or end it. */
  lemma ConnKeepsLoops(s: State, c: nat, conn: Conn)
    requires LoopsOk(s) && c < |s.conns|
    requires conn.phase == s.conns[c].phase || conn.phase.Finished?
    ensures LoopsOk(s.(conns := s.conns[c := conn]))
  {
    var t := s.(conns := s.conns[c := conn]);
    assert LoopOk(s.conns[c].phase, s.heap, s.records);
  }

  lemma RefusalKeepsInv(s: State, c: nat)
    requires Inv(s) && c < |s.conns| && s.conns[c].phase.Handshake?
    ensures Inv(s.(conns := s.conns[c := Refused(s.conns[c])]))
  {
    ConnKeepsLoops(s, c, Refused(s.conns[c]));
    if s.socket == Some(c) {
      var m := After(s.conns[c].wire, MarkOf(s.client));
      assert Explains([InvalidSession(false)], m, s.records);
      SendExplained(s.conns[c], [InvalidSession(false)], MarkOf(s.client), s.records);
    }
  }

  lemma AckHeartbeatKeepsInv(s: State, c: nat)
    requires Inv(s) && Enabled(s, AckHeartbeat(c))
    ensures Inv(Step(s, AckHeartbeat(c)))
  {
    ConnKeepsLoops(s, c, Send(s.conns[c], [HeartbeatAck]));
    if s.socket == Some(c) {
      var m := After(s.conns[c].wire, MarkOf(s.client));
      assert Explains([HeartbeatAck], m, s.records);
      SendExplained(s.conns[c], [HeartbeatAck], MarkOf(s.client), s.records);
    }
  }

  lemma CutKeepsInv(s: State, c: nat, kept: nat)
    requires Inv(s) && Enabled(s, Cut(c, kept))
    ensures Inv(Step(s, Cut(c, kept)))
  {
    ConnKeepsLoops(s, c, s.conns[c].(wire := Taken(s.conns[c].wire, kept), up := false));
    if s.socket == Some(c) {
      ExplainsTaken(s.conns[c].wire, MarkOf(s.client), s.records, kept);
    }
  }

  lemma LoopEndsKeepsInv(s: State, c: nat)
    requires Inv(s) && Enabled(s, LoopEnds(c))
    ensures Inv(Step(s, LoopEnds(c)))
  {
    var t := LoopEndStep(s, c);
    var sid := s.conns[c].phase.sessionId;
    assert LoopOk(s.conns[c].phase, s.heap, s.records);
    assert SessionOk(s.heap[sid], s.records[sid], sid in s.store, s.now);
    forall d {:trigger t.conns[d]} | 0 <= d < |t.conns| ensures LoopOk(t.conns[d].phase, t.heap, t.records) {
      assert LoopOk(s.conns[d].phase, s.heap, s.records);
    }
    assert LoopsOk(t);
    assert SessionsOk(t);
    ClientKept(s, t);
    if s.socket.Some? {
      ExplainsGrow(s.conns[s.socket.value].wire, MarkOf(s.client), s.records, t.records);
    }
  }

  lemma IdentifyKeepsInv(s: State, c: nat, sent: Option<nat>)
    requires Inv(s) && c < |s.conns| && s.conns[c].phase.Handshake? && s.conns[c].command == Some(Identify)
    ensures Inv(IdentifyStep(s, c, true, sent))
  {
    var t := IdentifyStep(s, c, true, sent);
    var sid, ready := |s.heap|, Dispatch(None, Ready(|s.heap|));
    assert t.heap[sid] == BufferOf([], None);
    assert SessionsOk(t);
    forall d {:trigger t.conns[d]} | 0 <= d < |t.conns| ensures LoopOk(t.conns[d].phase, t.heap, t.records) {
      assert LoopOk(s.conns[d].phase, s.heap, s.records);
    }
    assert LoopsOk(t);
    ClientKept(s, t);
    if s.socket.Some? {
      var conn, m := s.conns[s.socket.value], MarkOf(s.client);
      ExplainsGrow(conn.wire, m, s.records, t.records);
      if s.socket.value == c {
        assert conn.wire == [];
        assert Explains([ready], m, t.records);
        AcceptedExplained(conn, [ready], m, t.records, sid, 0, sent);
      }
    }
  }

  lemma AcceptedExplained(conn: Conn, frames: seq<GatewayEvent>, m: Mark, records: seq<Record>, sid: nat, seqNo: nat,
                          sent: Option<nat>)
    requires conn.wire == [] && Explains(frames, m, records)
    ensures Explains(Accepted(conn, frames, sid, seqNo, sent).wire, m, records)
    ensures conn.up && sent == None ==> After(Accepted(conn, frames, sid, seqNo, sent).wire, m) == After(frames, m)
  {
    if sent.Some? {
      ExplainsTaken(frames, m, records, sent.value);
      SendExplained(conn, Taken(frames, sent.value), m, records);
    } else {
      SendExplained(conn, frames, m, records);
    }
  }

  /**
   * A RESUME is refused exactly when its session was reaped or events after k no longer
   * fit the caps; otherwise the reply is precisely events k+1, k+2, ..., last.
   */
  lemma ResumeReplyIsExact(s: State, sid: nat, k: nat)
    requires Inv(s) && sid < |s.heap| && k <= |s.records[sid].history|
    ensures ResumeReply(s, sid, k)
         == if sid in s.store && Fits(s.records[sid].history[k..])
            then Some(DataOf(s.records[sid].history[k..]))
            else None
  {
    assert SessionOk(s.heap[sid], s.records[sid], sid in s.store, s.now);
    ReplayIfFits(s.records[sid].history, s.heap[sid].disconnectedAt, k);
  }

  lemma ResumeKeepsLoops(s: State, c: nat, sid: nat, k: nat, sent: Option<nat>)
    requires Inv(s) && Enabled(s, Authenticate(c, true, sent)) && s.conns[c].command == Some(Resume(sid, k))
    requires ResumeReply(s, sid, k).Some? && !Overlaps(s, Authenticate(c, true, sent))
    ensures LoopsOk(ResumeStep(s, c, sid, k, sent)) && SessionsOk(ResumeStep(s, c, sid, k, sent))
  {
    var t := ResumeStep(s, c, sid, k, sent);
    assert SessionOk(s.heap[sid], s.records[sid], sid in s.store, s.now);
    assert LastSeq(s.records[sid].history) == |s.records[sid].history|;
    forall i {:trigger t.heap[i]} | 0 <= i < |t.heap| ensures SessionOk(t.heap[i], t.records[i], i in t.store, t.now) {
      assert SessionOk(s.heap[i], s.records[i], i in s.store, s.now);
    }
    forall d {:trigger t.conns[d]} | 0 <= d < |t.conns| ensures LoopOk(t.conns[d].phase, t.heap, t.records) {
      assert LoopOk(s.conns[d].phase, s.heap, s.records);
    }
  }

  lemma ResumeKeepsInv(s: State, c: nat, sid: nat, k: nat, sent: Option<nat>)
    requires Inv(s) && Enabled(s, Authenticate(c, true, sent)) && s.conns[c].command == Some(Resume(sid, k))
    requires ResumeReply(s, sid, k).Some? && !Overlaps(s, Authenticate(c, true, sent))
    ensures Inv(ResumeStep(s, c, sid, k, sent))
  {
    ResumeKeepsLoops(s, c, sid, k, sent);
    var t := ResumeStep(s, c, sid, k, sent);
    if s.socket == Some(c) {
      ResumeReplyIsExact(s, sid, k);
      ReplayExplained(sid, k, s.records);
      var frames := Events(DataOf(s.records[sid].history[k..])) + [Dispatch(None, Resumed)];
      assert SessionOk(s.heap[sid], s.records[sid], sid in s.store, s.now);
      AcceptedExplained(s.conns[c], frames, MarkOf(s.client), s.records, sid, s.heap[sid].lastSeq, sent);
    }
  }

  lemma ReapKeepsInv(s: State)
    requires Inv(s)
    ensures Inv(Step(s, Reap))
  {
    var t := Step(s, Reap);
    forall i {:trigger t.heap[i]} | 0 <= i < |t.heap| ensures SessionOk(t.heap[i], t.records[i], i in t.store, t.now) {
      assert SessionOk(s.heap[i], s.records[i], i in s.store, s.now);
    }
  }

  lemma AdvanceKeepsInv(s: State, ms: nat)
    requires Inv(s)
    ensures Inv(Step(s, Advance(ms)))
  {
    var t := Step(s, Advance(ms));
    forall i {:trigger t.heap[i]} | 0 <= i < |t.heap| ensures SessionOk(t.heap[i], t.records[i], i in t.store, t.now) {
      assert SessionOk(s.heap[i], s.records[i], i in s.store, s.now);
    }
  }

  lemma StepKeepsInv(s: State, a: Action)
    requires Inv(s) && Enabled(s, a) && !Overlaps(s, a)
    ensures Inv(Step(s, a))
  {
    match a
    case Open => OpenKeepsInv(s);
    case Deliver => DeliverKeepsInv(s);
    case Authenticate(c, tokenValid, sent) =>
      var command := s.conns[c].command.value;
      if command == Identify {
        if tokenValid { IdentifyKeepsInv(s, c, sent); } else { RefusalKeepsInv(s, c); }
      } else if ResumeReply(s, command.sessionId, command.seqNo) == None {
        RefusalKeepsInv(s, c);
      } else {
        ResumeKeepsInv(s, c, command.sessionId, command.seqNo, sent);
      }
    case AuthTimeout(c) => RefusalKeepsInv(s, c);
    case Publish(c, payload, length) => PublishKeepsInv(s, c, payload, length);
    case AckHeartbeat(c) => AckHeartbeatKeepsInv(s, c);
    case Cut(c, kept) => CutKeepsInv(s, c, kept);
    case LoopEnds(c) => LoopEndsKeepsInv(s, c);
    case SocketClosed =>
    case Disconnect =>
    case Advance(ms) => AdvanceKeepsInv(s, ms);
    case Reap => ReapKeepsInv(s);
  }

  lemma {:induction false} RunKeepsInv(s: State, run: seq<Action>)
    requires Inv(s) && ExclusiveRun(s, run)
    ensures Inv(Exec(s, run))
    decreases run
  {
    if run != [] {
      StepKeepsInv(s, run[0]);
      RunKeepsInv(Step(s, run[0]), run[1..]);
    }
  }

  // ── Main results ──

  /**
   * Over every run without overlapping loops, whatever is lost, reordered between
   * connections, resumed, refused or reaped, the client has handled exactly events
   * 1..lastSeq of its current session, in order, each once.
   */
  lemma DeliveredExactlyOnceInOrder(run: seq<Action>)
    requires ExclusiveRun(Init, run)
    ensures ExactlyOnceInOrder(Exec(Init, run))
  {
    RunKeepsInv(Init, run);
  }

  /** Nothing is missing once the client has read an intact, attached connection dry. */
  lemma CaughtUpMeansComplete(run: seq<Action>, c: nat)
    requires ExclusiveRun(Init, run)
    requires var s := Exec(Init, run);
             s.socket == Some(c) && s.conns[c].phase.Attached? && s.conns[c].up && s.conns[c].wire == []
    ensures var s := Exec(Init, run);
            var sid := s.conns[c].phase.sessionId;
            && s.client.sessionId == Some(sid)
            && s.client.lastSeq == |s.records[sid].history|
            && s.client.handled == Bodies(s.records[sid].history)
  {
    RunKeepsInv(Init, run);
    var s := Exec(Init, run);
    var sid := s.conns[c].phase.sessionId;
    assert LoopOk(s.conns[c].phase, s.heap, s.records);
    assert s.records[sid].history[..|s.records[sid].history|] == s.records[sid].history;
  }

  /**
   * A client that comes back less than 300 s after its loop ended is refused only if what
   * it missed is more than 512 events or 2 MiB, whatever reaper passes ran in between. One whose
   * session never saw a clean end of loop is not reaped at all.
   */
  lemma EarlyResumeIsNotRefused(run: seq<Action>, c: nat, sid: nat, k: nat)
    requires ExclusiveRun(Init, run)
    requires var s := Exec(Init, run);
             s.socket == Some(c) && s.conns[c].phase.Handshake? && s.conns[c].command == Some(Resume(sid, k))
    ensures var s := Exec(Init, run);
            && sid < |s.records| && k <= |s.records[sid].history|
            && var record := s.records[sid];
               record.droppedAt == None || s.now - record.droppedAt.value < 300_000 ==>
                 && (ResumeReply(s, sid, k).Some?
                     <==> |record.history| - k <= 512 && TotalBytes(record.history[k..]) <= 2_097_152)
                 && (ResumeReply(s, sid, k).Some? ==> ResumeReply(s, sid, k).value == DataOf(record.history[k..]))
  {
    RunKeepsInv(Init, run);
    var s := Exec(Init, run);
    assert SessionOk(s.heap[sid], s.records[sid], sid in s.store, s.now);
    ResumeReplyIsExact(s, sid, k);
  }

  // ── Sessions that are never reaped ──

  /** A stored session that no loop serves and that was never marked disconnected. */
  ghost predicate Orphan(s: State, sid: nat) {
    Loopless(s, sid) && s.heap[sid].disconnectedAt == None
  }

  ghost predicate Loopless(s: State, sid: nat) {
    && sid in s.store
    && forall c {:trigger s.conns[c]} :: 0 <= c < |s.conns| && s.conns[c].phase.Attached? ==>
       s.conns[c].phase.sessionId != sid
  }

  predicate AsksFor(s: State, a: Action, sid: nat)
    requires Enabled(s, a)
  {
    && a.Authenticate?
    && var command := s.conns[a.conn].command.value;
       command.Resume? && command.sessionId == sid
  }

  /** The run contains no RESUME of this session. */
  predicate NeverAskedFor(s: State, run: seq<Action>, sid: nat)
    requires ExclusiveRun(s, run)
    decreases run
  {
    run == [] || (!AsksFor(s, run[0], sid) && NeverAskedFor(Step(s, run[0]), run[1..], sid))
  }

  /** A handshake that fails after the session was created leaves an orphan. */
  lemma FailedIdentifyLeavesOrphan(s: State, c: nat, sent: nat)
    requires Inv(s) && Enabled(s, Authenticate(c, true, Some(sent))) && s.conns[c].command == Some(Identify)
    ensures Orphan(Step(s, Authenticate(c, true, Some(sent))), |s.heap|)
  {
    forall d {:trigger s.conns[d]} | 0 <= d < |s.conns| && s.conns[d].phase.Attached?
      ensures s.conns[d].phase.sessionId != |s.heap|
    {
      assert LoopOk(s.conns[d].phase, s.heap, s.records);
    }
  }

  /** So does one that fails after a session was taken up again. */
  lemma FailedResumeLeavesOrphan(s: State, c: nat, sid: nat, k: nat, sent: nat)
    requires Enabled(s, Authenticate(c, true, Some(sent))) && s.conns[c].command == Some(Resume(sid, k))
    requires ResumeReply(s, sid, k).Some? && Loopless(s, sid)
    ensures Orphan(Step(s, Authenticate(c, true, Some(sent))), sid)
  {
  }

  lemma StepKeepsOrphan(s: State, a: Action, sid: nat)
    requires Orphan(s, sid) && Enabled(s, a) && !AsksFor(s, a, sid)
    ensures Orphan(Step(s, a), sid)
  {
  }

  lemma {:induction false} OrphanStays(s: State, run: seq<Action>, sid: nat)
    requires Orphan(s, sid) && ExclusiveRun(s, run) && NeverAskedFor(s, run, sid)
    ensures Orphan(Exec(s, run), sid)
    decreases run
  {
    if run != [] {
      StepKeepsOrphan(s, run[0], sid);
      OrphanStays(Step(s, run[0]), run[1..], sid);
    }
  }

  /**
   * A session without a loop, if nobody resumes it, is kept for ever if and only if it was
   * not marked disconnected: the reaper then never takes it.
   */
  lemma LooplessIsKeptIff(s: State, sid: nat)
    requires Loopless(s, sid)
    ensures (forall run :: ExclusiveRun(s, run) && NeverAskedFor(s, run, sid) ==> sid in Exec(s, run).store)
       <==> s.heap[sid].disconnectedAt == None
  {
    if s.heap[sid].disconnectedAt == None {
      forall run | ExclusiveRun(s, run) && NeverAskedFor(s, run, sid) ensures sid in Exec(s, run).store {
        OrphanStays(s, run, sid);
      }
    } else {
      ReapedInTime(s, sid);
    }
  }

  lemma ReapedInTime(s: State, sid: nat)
    requires Loopless(s, sid) && s.heap[sid].disconnectedAt.Some?
    ensures exists run :: ExclusiveRun(s, run) && NeverAskedFor(s, run, sid) && sid !in Exec(s, run).store
  {
    var wait := Advance(s.heap[sid].disconnectedAt.value + SESSION_TTL);
    var t := Step(s, wait);
    assert Expired(t.heap[sid], t.now);
    assert sid !in Step(t, Reap).store;
    var run := [wait, Reap];
    assert run[1..] == [Reap] && [Reap][1..] == [];
    assert ExclusiveRun(Step(t, Reap), []);
    assert ExclusiveRun(t, [Reap]) && NeverAskedFor(t, [Reap], sid);
    assert ExclusiveRun(s, run) && NeverAskedFor(s, run, sid);
    assert Exec(s, run) == Exec(t, [Reap]) == Exec(Step(t, Reap), []);
  }
}
