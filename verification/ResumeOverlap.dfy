/**
 * Nothing in the gateway stops a RESUME from starting a second loop on a session whose
 * earlier loop has not noticed that its client is gone. This module shows that the
 * absence of such an overlap is exactly what the delivery guarantee rests on.
 */
module ResumeOverlap {
  import opened Prelude
  import opened Wire
  import opened ReplayBuffer
  import opened ChatClient
  import opened ResumeProtocol
  import opened ResumeSafety

  /** The client reads n frames in a row. */
  function Deliveries(n: nat): seq<Action> {
    if n == 0 then [] else [Deliver] + Deliveries(n - 1)
  }

  function HandleAll(c: Client, frames: seq<GatewayEvent>): Client
    decreases frames
  {
    if frames == [] then c else HandleAll(HandleFrame(c, frames[0]), frames[1..])
  }

  lemma {:induction false} DeliveriesHandleAll(s: State, n: nat)
    requires s.socket.Some? && n <= |s.conns[s.socket.value].wire|
    ensures ExclusiveRun(s, Deliveries(n))
    ensures Exec(s, Deliveries(n)).client == HandleAll(s.client, s.conns[s.socket.value].wire[..n])
    ensures Exec(s, Deliveries(n)).records == s.records
    decreases n
  {
    if n > 0 {
      var wire := s.conns[s.socket.value].wire;
      var t := Step(s, Deliver);
      DeliveriesHandleAll(t, n - 1);
      assert Deliveries(n)[1..] == Deliveries(n - 1);
      assert wire[1..][..n - 1] == wire[..n][1..];
    }
  }

  lemma {:induction false} HandleAllAppend(c: Client, a: seq<GatewayEvent>, b: seq<GatewayEvent>)
    ensures HandleAll(c, a + b) == HandleAll(HandleAll(c, a), b)
    decreases a
  {
    if a == [] {
      assert a + b == b;
    } else {
      assert (a + b)[1..] == a[1..] + b;
      HandleAllAppend(HandleFrame(c, a[0]), a[1..], b);
    }
  }

  /** Handling a replay appends its bodies and ends on its last number. */
  lemma {:induction false} HandleReplay(c: Client, history: History, k: nat)
    requires !c.intentionalClose && WellNumbered(history) && c.lastSeq == k <= |history|
    ensures HandleAll(c, Events(DataOf(history[k..])))
         == c.(lastSeq := |history|, handled := c.handled + Bodies(history[k..]))
    decreases |history| - k
  {
    if k < |history| {
      assert history[k..][1..] == history[k + 1..];
      var body := history[k].data.event.body;
      var next := c.(lastSeq := k + 1, handled := c.handled + [body]);
      HandleReplay(next, history, k + 1);
      HandleOneMore(c, history[k].data, DataOf(history[k + 1..]), k + 1);
      assert c.handled + ([body] + Bodies(history[k + 1..])) == next.handled + Bodies(history[k + 1..]);
    }
  }

  lemma HandleOneMore(c: Client, data: Json, rest: seq<Json>, n: nat)
    requires !c.intentionalClose && data.event.Dispatch? && data.event.s == Some(n) && data.event.body.Published?
    ensures HandleAll(c, Events([data] + rest))
            == HandleAll(c.(lastSeq := n, handled := c.handled + [data.event.body]), Events(rest))
  {
    var frames := Events([data] + rest);
    assert ([data] + rest)[1..] == rest;
    assert frames[0] == data.event && frames[1..] == Events(rest);
  }

  const STALE: Bytes := []
  const LIVE: Bytes := [1]

  /** A live client's RESUME is about to be accepted while loop `stale` runs its session. */
  ghost predicate AboutToOverlap(s: State, c: nat, stale: nat, sid: nat, k: nat) {
    && Inv(s) && s.socket == Some(c) && Enabled(s, Authenticate(c, true, None))
    && s.conns[c].up && s.conns[c].command == Some(Resume(sid, k)) && ResumeReply(s, sid, k).Some?
    && stale < |s.conns| && s.conns[stale].phase.Attached? && s.conns[stale].phase.sessionId == sid
  }

  function ReplayFrames(history: History, k: nat): seq<GatewayEvent>
    requires k <= |history|
  {
    Events(DataOf(history[k..])) + [Dispatch(None, Resumed)]
  }

  lemma OverlapAttachesTwice(s: State, c: nat, stale: nat, sid: nat, k: nat)
    requires AboutToOverlap(s, c, stale, sid, k)
    ensures var t := Step(s, Authenticate(c, true, None));
            var history := s.records[sid].history;
            && k <= |history| && WellNumbered(history)
            && t.conns[c].phase == t.conns[stale].phase == Attached(sid, |history|)
            && t.conns[c].up && t.conns[c].wire == ReplayFrames(history, k)
            && t.records == s.records && t.client == s.client && t.socket == s.socket
            && t.client.sessionId == Some(sid) && t.client.lastSeq == k
  {
    assert SessionOk(s.heap[sid], s.records[sid], sid in s.store, s.now);
    assert LoopOk(s.conns[stale].phase, s.heap, s.records);
    ResumeReplyIsExact(s, sid, k);
  }

  /** Both loops dispatch; the client will only ever see what the new one sends. */
  lemma BothDispatch(s: State, c: nat, stale: nat, sid: nat, n: nat)
    requires c < |s.conns| && stale < |s.conns| && c != stale && s.conns[c].up
    requires s.conns[c].phase == s.conns[stale].phase == Attached(sid, n)
    ensures Enabled(s, Publish(stale, STALE, 0)) && Enabled(Step(s, Publish(stale, STALE, 0)), Publish(c, LIVE, 0))
    ensures var t := Step(Step(s, Publish(stale, STALE, 0)), Publish(c, LIVE, 0));
            && t.conns[c].wire == s.conns[c].wire + [Dispatch(Some(n + 1), Published(LIVE))]
            && t.client == s.client && t.socket == s.socket && |t.records| == |s.records|
            && |t.records[sid].history| == |s.records[sid].history| + 2
            && t.records[sid].history[..|s.records[sid].history|] == s.records[sid].history
            && t.records[sid].history[|s.records[sid].history|].data.event == Dispatch(Some(n + 1), Published(STALE))
  {
  }

  /** The client reads everything that is on its way, and misses the stale loop's event. */
  lemma ReadsWrongEvent(u: State, c: nat, sid: nat, k: nat, history: History)
    requires u.socket == Some(c) && WellNumbered(history) && k <= |history|
    requires !u.client.intentionalClose && u.client.sessionId == Some(sid) && u.client.lastSeq == k
    requires u.client.handled == Bodies(history[..k])
    requires u.conns[c].wire == ReplayFrames(history, k) + [Dispatch(Some(|history| + 1), Published(LIVE))]
    requires sid < |u.records| && |history| < |u.records[sid].history| && u.records[sid].history[..|history|] == history
    requires u.records[sid].history[|history|].data.event == Dispatch(Some(|history| + 1), Published(STALE))
    ensures ExclusiveRun(u, Deliveries(|u.conns[c].wire|))
    ensures !ExactlyOnceInOrder(Exec(u, Deliveries(|u.conns[c].wire|)))
  {
    var wire := u.conns[c].wire;
    DeliveriesHandleAll(u, |wire|);
    assert wire[..|wire|] == wire;
    ReadingTheWire(u.client, history, sid, k);
    HasWrongEvent(Exec(u, Deliveries(|wire|)), sid, history);
  }

  lemma HasWrongEvent(s: State, sid: nat, history: History)
    requires sid < |s.records| && |history| < |s.records[sid].history| && s.records[sid].history[..|history|] == history
    requires s.records[sid].history[|history|].data.event == Dispatch(Some(|history| + 1), Published(STALE))
    requires s.client.sessionId == Some(sid) && s.client.lastSeq == |history| + 1
    requires s.client.handled == Bodies(history) + [Published(LIVE)]
    ensures !ExactlyOnceInOrder(s)
  {
    StaleEventIsMissing(history, s.records[sid].history, |history|);
    LastDiffers(Bodies(history));
  }

  lemma LastDiffers(before: seq<Body>)
    ensures before + [Published(LIVE)] != before + [Published(STALE)]
  {
    assert |STALE| != |LIVE|;
    assert (before + [Published(LIVE)])[|before|] != (before + [Published(STALE)])[|before|];
  }

  /**
   * The bad run: the old loop dispatches one event, the new loop dispatches another under
   * the same number, and the client reads everything on its connection.
   */
  lemma OverlapLosesAnEvent(s: State, c: nat, stale: nat, sid: nat, k: nat) returns (run: seq<Action>)
    requires AboutToOverlap(s, c, stale, sid, k)
    ensures ExclusiveRun(Step(s, Authenticate(c, true, None)), run)
    ensures !ExactlyOnceInOrder(Exec(Step(s, Authenticate(c, true, None)), run))
  {
    OverlapAttachesTwice(s, c, stale, sid, k);
    var history := s.records[sid].history;
    var t := Step(s, Authenticate(c, true, None));
    BothDispatch(t, c, stale, sid, |history|);
    var stalePublish, livePublish := Publish(stale, STALE, 0), Publish(c, LIVE, 0);
    var u := Step(Step(t, stalePublish), livePublish);
    ReadsWrongEvent(u, c, sid, k, history);
    run := [stalePublish, livePublish] + Deliveries(|u.conns[c].wire|);
    RunOfTwoThen(t, stalePublish, livePublish, Deliveries(|u.conns[c].wire|));
  }

  lemma RunOfTwoThen(s: State, a: Action, b: Action, run: seq<Action>)
    requires Enabled(s, a) && !a.Authenticate? && Enabled(Step(s, a), b) && !b.Authenticate?
    requires ExclusiveRun(Step(Step(s, a), b), run)
    ensures ExclusiveRun(s, [a, b] + run) && Exec(s, [a, b] + run) == Exec(Step(Step(s, a), b), run)
  {
    RunOfOneThen(Step(s, a), b, run);
    RunOfOneThen(s, a, [b] + run);
    assert [a, b] + run == [a] + ([b] + run);
  }

  lemma RunOfOneThen(s: State, a: Action, run: seq<Action>)
    requires Enabled(s, a) && !a.Authenticate? && ExclusiveRun(Step(s, a), run)
    ensures ExclusiveRun(s, [a] + run) && Exec(s, [a] + run) == Exec(Step(s, a), run)
  {
    assert ([a] + run)[0] == a && ([a] + run)[1..] == run;
  }

  lemma ReadingTheWire(client: Client, history: History, sid: nat, k: nat)
    requires !client.intentionalClose && client.sessionId == Some(sid) && client.lastSeq == k <= |history|
    requires WellNumbered(history) && client.handled == Bodies(history[..k])
    ensures var end := HandleAll(client, ReplayFrames(history, k) + [Dispatch(Some(|history| + 1), Published(LIVE))]);
            && end.sessionId == Some(sid) && end.lastSeq == |history| + 1
            && end.handled == Bodies(history) + [Published(LIVE)]
  {
    var replay := Events(DataOf(history[k..]));
    var live := Dispatch(Some(|history| + 1), Published(LIVE));
    var tail := [Dispatch(None, Resumed), live];
    assert ReplayFrames(history, k) + [live] == replay + tail;
    HandleAllAppend(client, replay, tail);
    HandleReplay(client, history, k);
    BodiesAppend(history[..k], history[k..]);
    assert history[..k] + history[k..] == history;
    var caughtUp := HandleAll(client, replay);
    assert HandleAll(caughtUp, tail) == HandleAll(HandleFrame(caughtUp, tail[0]), [live]);
  }

  lemma StaleEventIsMissing(history: History, after: History, n: nat)
    requires n == |history| < |after| && after[..n] == history
    requires after[n].data.event.Dispatch? && after[n].data.event.body == Published(STALE)
    ensures Bodies(after[..n + 1]) == Bodies(history) + [Published(STALE)]
  {
    assert after[..n + 1] == history + [after[n]];
    BodiesAppend(history, [after[n]]);
  }

  /**
   * In any state a run without overlaps can reach, answering a live client's RESUME is safe
   * for every continuation if and only if no other loop is attached to the session.
   */
  lemma ResumeIsSafeIffExclusive(history: seq<Action>, c: nat, sid: nat, k: nat)
    requires ExclusiveRun(Init, history)
    requires var s := Exec(Init, history);
             && s.socket == Some(c) && s.conns[c].up && Enabled(s, Authenticate(c, true, None))
             && s.conns[c].command == Some(Resume(sid, k)) && ResumeReply(s, sid, k).Some?
    ensures var s := Exec(Init, history);
            var resumed := Step(s, Authenticate(c, true, None));
            (forall run :: ExclusiveRun(resumed, run) ==> ExactlyOnceInOrder(Exec(resumed, run)))
            <==> (forall d :: 0 <= d < |s.conns| && s.conns[d].phase.Attached? ==> s.conns[d].phase.sessionId != sid)
  {
    RunKeepsInv(Init, history);
    var s := Exec(Init, history);
    var a := Authenticate(c, true, None);
    var resumed := Step(s, a);
    if d :| 0 <= d < |s.conns| && s.conns[d].phase.Attached? && s.conns[d].phase.sessionId == sid {
      var run := OverlapLosesAnEvent(s, c, d, sid, k);
    } else {
      assert !Overlaps(s, a);
      StepKeepsInv(s, a);
      forall run | ExclusiveRun(resumed, run) ensures ExactlyOnceInOrder(Exec(resumed, run)) {
        RunKeepsInv(resumed, run);
      }
    }
  }

  // ── An overlap can be reached ──

  lemma ExecOneMore(s: State, run: seq<Action>, a: Action)
    requires ExclusiveRun(s, run) && Enabled(Exec(s, run), a) && !Overlaps(Exec(s, run), a)
    ensures ExclusiveRun(s, run + [a]) && Exec(s, run + [a]) == Step(Exec(s, run), a)
    decreases run
  {
    if run == [] {
      assert run + [a] == [a] && [a][1..] == [];
    } else {
      assert (run + [a])[0] == run[0] && (run + [a])[1..] == run[1..] + [a];
      ExecOneMore(Step(s, run[0]), run[1..], a);
    }
  }

  /** The client has its first session, and a loop serves it. */
  ghost predicate FirstSession(s: State) {
    && |s.conns| == 1 && s.conns[0].phase == Attached(0, 0) && s.conns[0].wire == []
    && s.heap == [NewSession] && s.store == {0}
    && s.socket == Some(0) && s.client.sessionId == Some(0) && s.client.lastSeq == 0 && !s.client.intentionalClose
  }

  lemma FirstSessionStarts() returns (run: seq<Action>)
    ensures ExclusiveRun(Init, run) && FirstSession(Exec(Init, run))
  {
    run := [];
    ExecOneMore(Init, run, Open);
    run := run + [Open];
    ExecOneMore(Init, run, Deliver);
    run := run + [Deliver];
    ExecOneMore(Init, run, Authenticate(0, true, None));
    run := run + [Authenticate(0, true, None)];
    ExecOneMore(Init, run, Deliver);
    run := run + [Deliver];
  }

  /** The client loses its socket, reconnects and asks for its session while the old loop still runs. */
  lemma OverlapIsReachable() returns (run: seq<Action>)
    ensures ExclusiveRun(Init, run) && AboutToOverlap(Exec(Init, run), 1, 0, 0, 0)
  {
    run := FirstSessionStarts();
    ExecOneMore(Init, run, SocketClosed);
    run := run + [SocketClosed];
    ExecOneMore(Init, run, Open);
    run := run + [Open];
    ExecOneMore(Init, run, Deliver);
    run := run + [Deliver];
    RunKeepsInv(Init, run);
  }
}
