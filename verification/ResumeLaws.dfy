/**
 * What the session protocol means for its two ends over whole runs: what a client forgets
 * and what it never forgets, and how long the server keeps a session
 * (packages/sdk-chat/src/client.ts, services/chat/src/session.rs, services/chat/src/gateway.rs).
 */
module ResumeLaws {
  import opened Prelude
  import opened Wire
  import opened ReplayBuffer
  import opened ChatClient
  import opened ResumeProtocol
  import opened ResumeSafety
  import opened ResumeOverlap

  // ── A client that has been disconnected on purpose ──

  /** The commands that the client sends in a run. */
  function Sent(s: State, run: seq<Action>): seq<Command>
    requires ExclusiveRun(s, run)
    decreases run
  {
    if run == [] then []
    else
      var answer := if run[0].Deliver? then Answer(s.client, s.conns[s.socket.value].wire[0]) else None;
      (if answer.Some? then [answer.value] else []) + Sent(Step(s, run[0]), run[1..])
  }

  /** The client handles no READY in the run. */
  predicate NoReady(s: State, run: seq<Action>)
    requires ExclusiveRun(s, run)
    decreases run
  {
    run == [] ||
    (&& (run[0].Deliver? ==>
           var frame := s.conns[s.socket.value].wire[0];
           !(frame.Dispatch? && frame.body.Ready?))
     && NoReady(Step(s, run[0]), run[1..]))
  }

  lemma {:induction false} WithoutSessionOnlyIdentifies(s: State, run: seq<Action>)
    requires s.client.sessionId == None && ExclusiveRun(s, run) && NoReady(s, run)
    ensures Exec(s, run).client.sessionId == None
    ensures forall c :: c in Sent(s, run) ==> c == Identify
    decreases run
  {
    if run != [] {
      WithoutSessionOnlyIdentifies(Step(s, run[0]), run[1..]);
    }
  }

  /**
   * From any reachable state: after a Disconnect the client has forgotten its session, and
   * until it handles the next READY it knows none, has handled nothing, and the only
   * command it ever sends is Identify.
   */
  lemma DisconnectForgets(history: seq<Action>, run: seq<Action>)
    requires ExclusiveRun(Init, history)
    requires var s := Step(Exec(Init, history), Disconnect);
             ExclusiveRun(s, run) && NoReady(s, run)
    ensures var s := Step(Exec(Init, history), Disconnect);
            && s.client.sessionId == None && s.client.lastSeq == 0 && s.client.handled == [] && s.socket == None
            && (forall c :: c in Sent(s, run) ==> c == Identify)
            && var t := Exec(s, run);
               t.client.sessionId == None && t.client.lastSeq == 0 && t.client.handled == []
  {
    RunKeepsInv(Init, history);
    StepKeepsInv(Exec(Init, history), Disconnect);
    RunKeepsInv(Step(Exec(Init, history), Disconnect), run);
    WithoutSessionOnlyIdentifies(Step(Exec(Init, history), Disconnect), run);
  }

  // ── A client that keeps its session ──

  /** The client is in this session before and after every step. */
  predicate StaysIn(s: State, run: seq<Action>, sid: nat)
    requires ExclusiveRun(s, run)
    decreases run
  {
    s.client.sessionId == Some(sid) && (run == [] || StaysIn(Step(s, run[0]), run[1..], sid))
  }

  lemma StepForgetsNothing(s: State, a: Action, sid: nat)
    requires Inv(s) && Enabled(s, a) && s.client.sessionId == Step(s, a).client.sessionId == Some(sid)
    ensures s.client.handled <= Step(s, a).client.handled && s.client.lastSeq <= Step(s, a).client.lastSeq
  {
  }

  lemma {:induction false} RunForgetsNothing(s: State, run: seq<Action>, sid: nat)
    requires Inv(s) && ExclusiveRun(s, run) && StaysIn(s, run, sid)
    ensures s.client.handled <= Exec(s, run).client.handled && s.client.lastSeq <= Exec(s, run).client.lastSeq
    decreases run
  {
    if run != [] {
      StepKeepsInv(s, run[0]);
      StepForgetsNothing(s, run[0], sid);
      RunForgetsNothing(Step(s, run[0]), run[1..], sid);
    }
  }

  /**
   * As long as the client stays in one session, through lost connections and resumes, what
   * it has handled and the number it has reached only grow.
   */
  lemma SameSessionForgetsNothing(history: seq<Action>, run: seq<Action>, sid: nat)
    requires ExclusiveRun(Init, history)
    requires ExclusiveRun(Exec(Init, history), run) && StaysIn(Exec(Init, history), run, sid)
    ensures var s, t := Exec(Init, history), Exec(Exec(Init, history), run);
            s.client.handled <= t.client.handled && s.client.lastSeq <= t.client.lastSeq
  {
    RunKeepsInv(Init, history);
    RunForgetsNothing(Exec(Init, history), run, sid);
  }

  // ── A RESUME that is refused ──

  /**
   * A live client whose RESUME is refused is told so by the one frame on its way, and then
   * starts over without a session.
   */
  lemma RefusedClientStartsOver(history: seq<Action>, c: nat, sid: nat, k: nat, sent: Option<nat>)
    requires ExclusiveRun(Init, history)
    requires var s := Exec(Init, history);
             && s.socket == Some(c) && s.conns[c].up && Enabled(s, Authenticate(c, true, sent))
             && s.conns[c].command == Some(Resume(sid, k)) && ResumeReply(s, sid, k) == None
    ensures var t := Step(Exec(Init, history), Authenticate(c, true, sent));
            && t.conns[c].wire == [InvalidSession(false)] && t.conns[c].phase == Finished
            && Enabled(t, Deliver)
            && var u := Step(t, Deliver);
               u.client.sessionId == None && u.client.lastSeq == 0 && u.client.handled == []
  {
    RunKeepsInv(Init, history);
    var s := Exec(Init, history);
    assert SocketOk(s.conns[c], s.client, s.records);
    assert [] + [InvalidSession(false)] == [InvalidSession(false)];
  }

  /**
   * A live client that gives no usable command in time is told so, and starts over once it
   * has read that.
   */
  lemma TimedOutClientStartsOver(history: seq<Action>, c: nat)
    requires ExclusiveRun(Init, history)
    requires var s := Exec(Init, history);
             s.socket == Some(c) && s.conns[c].up && Enabled(s, AuthTimeout(c))
    ensures var t := Step(Exec(Init, history), AuthTimeout(c));
            var reading := Deliveries(|t.conns[c].wire|);
            && ExclusiveRun(t, reading)
            && var u := Exec(t, reading);
               u.client.sessionId == None && u.client.lastSeq == 0 && u.client.handled == []
  {
    RunKeepsInv(Init, history);
    var s := Exec(Init, history);
    var t, hello, refusal := Step(s, AuthTimeout(c)), [Hello], [InvalidSession(false)];
    assert SocketOk(s.conns[c], s.client, s.records);
    var wire := t.conns[c].wire;
    assert wire == s.conns[c].wire + refusal;
    DeliveriesHandleAll(t, |wire|);
    assert wire[..|wire|] == wire;
    HandleAllAppend(s.client, s.conns[c].wire, refusal);
    var before := HandleAll(s.client, s.conns[c].wire);
    assert hello[1..] == [] && refusal[1..] == [];
    assert HandleAll(before, refusal) == HandleAll(HandleFrame(before, InvalidSession(false)), []);
  }

  /** A heartbeat is answered on a live connection, and the answer changes nothing else for the client. */
  lemma HeartbeatIsAnswered(s: State, c: nat)
    requires Enabled(s, AckHeartbeat(c)) && s.conns[c].up
    ensures var t := Step(s, AckHeartbeat(c));
            && t.conns[c].wire == s.conns[c].wire + [HeartbeatAck] && t.client == s.client
            && HandleFrame(s.client, HeartbeatAck) == s.client
  {
  }

  lemma {:induction false} EventsAt(data: seq<Json>, i: nat)
    requires i < |data|
    ensures |Events(data)| == |data| && Events(data)[i] == data[i].event
  {
    if i > 0 {
      EventsAt(data[1..], i - 1);
    } else if |data| > 1 {
      EventsAt(data[1..], 0);
    }
  }

  /**
   * A live connection that fails after `sent` frames of the answer to a RESUME has got the
   * first `sent` of the replayed events in order and nothing else, and it has no loop.
   */
  lemma FailedReplayIsAPrefix(s: State, c: nat, sid: nat, k: nat, sent: nat, i: nat)
    requires Enabled(s, Authenticate(c, true, Some(sent))) && s.conns[c].up
    requires s.conns[c].command == Some(Resume(sid, k))
    requires var replay := ResumeReply(s, sid, k);
             replay.Some? && sent <= |replay.value| && i < sent
    ensures var t := Step(s, Authenticate(c, true, Some(sent)));
            var before := |s.conns[c].wire|;
            && |t.conns[c].wire| == before + sent && t.conns[c].wire[..before] == s.conns[c].wire
            && t.conns[c].wire[before + i] == ResumeReply(s, sid, k).value[i].event
            && t.conns[c].phase == Finished && !t.conns[c].up
  {
    EventsAt(ResumeReply(s, sid, k).value, i);
  }

  // ── How long the server keeps a session ──

  /** A reaper pass takes exactly the sessions that were disconnected 300 s ago or longer. */
  lemma ReapIsExact(s: State, sid: nat)
    requires sid < |s.heap|
    ensures sid in Step(s, Reap).store
       <==> sid in s.store && (s.heap[sid].disconnectedAt == None || s.now - s.heap[sid].disconnectedAt.value < 300_000)
  {
  }

  /** No loop serves the session, and it was marked disconnected at time t. */
  ghost predicate Dropped(s: State, sid: nat, t: nat) {
    && sid < |s.heap| && s.heap[sid].disconnectedAt == Some(t)
    && forall c {:trigger s.conns[c]} :: 0 <= c < |s.conns| && s.conns[c].phase.Attached? ==>
         s.conns[c].phase.sessionId != sid
  }

  lemma LoopEndDrops(s: State, c: nat)
    requires Inv(s) && Enabled(s, LoopEnds(c))
    ensures Dropped(Step(s, LoopEnds(c)), s.conns[c].phase.sessionId, s.now)
  {
    var sid := s.conns[c].phase.sessionId;
    forall d {:trigger s.conns[d]} | 0 <= d < |s.conns| && d != c && s.conns[d].phase.Attached?
      ensures s.conns[d].phase.sessionId != sid
    {
      assert OneLoopPerSession(s.conns);
    }
  }

  lemma StepKeepsDropped(s: State, a: Action, sid: nat, t: nat)
    requires Dropped(s, sid, t) && Enabled(s, a) && !AsksFor(s, a, sid)
    ensures Dropped(Step(s, a), sid, t) && s.now <= Step(s, a).now
  {
  }

  lemma {:induction false} StaysDropped(s: State, run: seq<Action>, sid: nat, t: nat)
    requires Dropped(s, sid, t) && ExclusiveRun(s, run) && NeverAskedFor(s, run, sid)
    ensures Dropped(Exec(s, run), sid, t)
    decreases run
  {
    if run != [] {
      StepKeepsDropped(s, run[0], sid, t);
      StaysDropped(Step(s, run[0]), run[1..], sid, t);
    }
  }

  lemma {:induction false} GoneStaysGone(s: State, run: seq<Action>, sid: nat)
    requires sid < |s.heap| && sid !in s.store && ExclusiveRun(s, run)
    ensures sid < |Exec(s, run).heap| && sid !in Exec(s, run).store
    decreases run
  {
    if run != [] {
      GoneStaysGone(Step(s, run[0]), run[1..], sid);
    }
  }

  /**
   * From any reachable state: a session whose loop ends and which nobody resumes for 300 s
   * is gone after the next reaper pass, and every RESUME of it is refused for good.
   */
  lemma LateResumeIsRefused(history: seq<Action>, c: nat, waiting: seq<Action>, later: seq<Action>, k: nat)
    requires ExclusiveRun(Init, history) && Enabled(Exec(Init, history), LoopEnds(c))
    requires var s := Exec(Init, history);
             var t := Step(s, LoopEnds(c));
             && ExclusiveRun(t, waiting) && NeverAskedFor(t, waiting, s.conns[c].phase.sessionId)
             && Exec(t, waiting).now - s.now >= 300_000
             && ExclusiveRun(Step(Exec(t, waiting), Reap), later)
    ensures var s := Exec(Init, history);
            var u := Exec(Step(Exec(Step(s, LoopEnds(c)), waiting), Reap), later);
            s.conns[c].phase.sessionId !in u.store && ResumeReply(u, s.conns[c].phase.sessionId, k) == None
  {
    RunKeepsInv(Init, history);
    var s := Exec(Init, history);
    var t, sid := Step(s, LoopEnds(c)), s.conns[c].phase.sessionId;
    LoopEndDrops(s, c);
    StaysDropped(t, waiting, sid, s.now);
    ReapIsExact(Exec(t, waiting), sid);
    GoneStaysGone(Step(Exec(t, waiting), Reap), later, sid);
  }
}
