/**
 * The mutable session objects of services/chat/src/session.rs, proved against the values
 * of module ReplayBuffer.
 */
module SessionStore {
  import opened Prelude
  import opened Wire
  import opened ReplayBuffer

  class SessionInner {
    var events: seq<BufferedEvent>
    var totalBytes: nat
    var lastSeq: nat
    var disconnectedAt: Option<nat>

    /** Everything ever pushed, including what has been evicted. */
    ghost var history: History

    function View(): Session
      reads this
    {
      Session(events, totalBytes, lastSeq, disconnectedAt)
    }

    ghost predicate Valid()
      reads this
    {
      View() == BufferOf(history, disconnectedAt)
    }

    constructor ()
      ensures Valid() && history == [] && View() == NewSession
    {
      events, totalBytes, lastSeq, disconnectedAt := [], 0, 0, None;
      history := [];
    }

    /**
     * Append, then evict from the front while over either cap. The loop also ends when
     * the new event alone exceeds the byte cap: the buffer is then empty.
     */
    method Push(seqNo: nat, data: Json)
      requires Valid()
      modifies this
      ensures Valid()
      ensures history == old(history) + [BufferedEvent(seqNo, data)]
      ensures View() == Pushed(old(View()), seqNo, data)
      ensures disconnectedAt == old(disconnectedAt)
      ensures IsLongestFittingSuffix(events, history)
      ensures totalBytes == TotalBytes(events) && lastSeq == seqNo
    {
      PushFollowsHistory(history, disconnectedAt, seqNo, data);
      ghost var grown := events + [BufferedEvent(seqNo, data)];
      TotalBytesAppend(events, [BufferedEvent(seqNo, data)]);
      events := events + [BufferedEvent(seqNo, data)];
      totalBytes := totalBytes + data.length;
      lastSeq := seqNo;
      history := history + [BufferedEvent(seqNo, data)];

      while |events| > MAX_EVENTS || totalBytes > MAX_BYTES
        invariant totalBytes == TotalBytes(events)
        invariant Evict(events) == Evict(grown)
        invariant lastSeq == seqNo && disconnectedAt == old(disconnectedAt)
        invariant history == old(history) + [BufferedEvent(seqNo, data)]
        decreases |events|
      {
        var oldest := events[0];
        events := events[1..];
        totalBytes := totalBytes - oldest.data.length;
      }
      EvictKeepsLongestSuffix(history);
    }

    function ReplayFrom(afterSeq: nat): Option<seq<Json>>
      reads this
    {
      Replay(View(), afterSeq)
    }

    method MarkDisconnected(now: nat)
      requires Valid()
      modifies this`disconnectedAt
      ensures Valid() && disconnectedAt == Some(now)
    {
      disconnectedAt := Some(now);
    }

    method MarkConnected()
      requires Valid()
      modifies this`disconnectedAt
      ensures Valid() && disconnectedAt == None
    {
      disconnectedAt := None;
    }
  }

  class Store {
    var sessions: map<nat, SessionInner>

    constructor ()
      ensures sessions == map[]
    {
      sessions := map[];
    }

    /** `sessionId` stands for the fresh UUID. */
    method Create(sessionId: nat) returns (session: SessionInner)
      requires sessionId !in sessions
      modifies this
      ensures fresh(session) && session.Valid() && session.View() == NewSession && session.history == []
      ensures sessions == old(sessions)[sessionId := session]
    {
      session := new SessionInner();
      sessions := sessions[sessionId := session];
    }

    function Get(sessionId: nat): Option<SessionInner>
      reads this
    {
      if sessionId in sessions then Some(sessions[sessionId]) else None
    }

    /**
     * Keeps exactly the sessions that are connected or were disconnected less than
     * SESSION_TTL ago, and reports how many went.
     */
    method ReapExpired(now: nat) returns (reaped: nat)
      modifies this
      ensures forall id ::
                id in sessions <==>
                && id in old(sessions)
                && var t := old(sessions[id].disconnectedAt); t.None? || now - t.value < 300_000
      ensures forall id :: id in sessions ==> sessions[id] == old(sessions)[id]
      ensures reaped == |old(sessions)| - |sessions|
    {
      var before := |sessions|;
      var kept := map id | id in sessions && !Expired(sessions[id].View(), now) :: sessions[id];
      assert kept.Keys <= sessions.Keys;
      SubsetSize(kept.Keys, sessions.Keys);
      assert |kept| == |kept.Keys| && |sessions| == |sessions.Keys|;
      sessions := kept;
      reaped := before - |sessions|;
    }
  }

  lemma {:induction false} SubsetSize(small: set<nat>, large: set<nat>)
    requires small <= large
    ensures |small| <= |large|
    decreases small
  {
    if x :| x in small {
      SubsetSize(small - {x}, large - {x});
    }
  }
}
