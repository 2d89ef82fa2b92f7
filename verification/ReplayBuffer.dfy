/**
 * The per-session replay buffer (services/chat/src/session.rs).
 *
 * The buffer is specified against the full history of everything ever pushed: it must
 * always be the longest suffix of that history that respects both caps.
 */
module ReplayBuffer {
  import opened Prelude
  import opened Wire

  const MAX_EVENTS: nat := 512
  const MAX_BYTES: nat := 2 * 1024 * 1024
  const SESSION_TTL: nat := 300_000 // milliseconds

  datatype BufferedEvent = BufferedEvent(seqNo: nat, data: Json)

  type History = seq<BufferedEvent>

  // ── Specification: the longest suffix within the caps ──

  function TotalBytes(events: History): nat {
    if events == [] then 0 else events[0].data.length + TotalBytes(events[1..])
  }

  predicate Fits(events: History) {
    |events| <= MAX_EVENTS && TotalBytes(events) <= MAX_BYTES
  }

  ghost predicate IsLongestFittingSuffix(window: History, history: History) {
    && |window| <= |history|
    && window == history[|history| - |window|..]
    && Fits(window)
    && forall k {:trigger history[k..]} :: 0 <= k < |history| - |window| ==> !Fits(history[k..])
  }

  /** Drop events from the front until the rest fits. */
  function Evict(events: History): History {
    if Fits(events) then events else Evict(events[1..])
  }

  lemma {:induction false} EvictKeepsLongestSuffix(events: History)
    ensures IsLongestFittingSuffix(Evict(events), events)
  {
    if !Fits(events) {
      EvictKeepsLongestSuffix(events[1..]);
      assert forall k {:trigger events[k..]} :: 1 <= k <= |events| ==> events[k..] == events[1..][k - 1..];
    }
  }

  lemma {:induction false} TotalBytesAppend(a: History, b: History)
    ensures TotalBytes(a + b) == TotalBytes(a) + TotalBytes(b)
  {
    if a == [] {
      assert a + b == b;
    } else {
      TotalBytesAppend(a[1..], b);
      assert (a + b)[1..] == a[1..] + b;
    }
  }

  lemma SuffixOfFittingFits(events: History, k: nat)
    requires Fits(events) && k <= |events|
    ensures Fits(events[k..])
  {
    TotalBytesAppend(events[..k], events[k..]);
    assert events[..k] + events[k..] == events;
  }

  /** There is only one longest fitting suffix, so the predicate pins `Evict` down. */
  lemma LongestFittingSuffixIsUnique(v: History, w: History, history: History)
    requires IsLongestFittingSuffix(v, history) && IsLongestFittingSuffix(w, history)
    ensures v == w
  {
    var i, j := |history| - |v|, |history| - |w|;
    assert Fits(history[i..]) && Fits(history[j..]);
  }

  lemma OneMoreDoesNotFit(history: History, e: BufferedEvent, k: nat)
    requires k <= |history| && !Fits(history[k..])
    ensures !Fits((history + [e])[k..])
  {
    TotalBytesAppend(history[k..], [e]);
    assert (history + [e])[k..] == history[k..] + [e];
  }

  lemma LongestSuffixOfSuffix(window: History, history: History, e: BufferedEvent)
    requires IsLongestFittingSuffix(window, Evict(history) + [e])
    ensures IsLongestFittingSuffix(window, history + [e])
  {
    EvictKeepsLongestSuffix(history);
    var kept := Evict(history) + [e];
    var whole := history + [e];
    var j := |whole| - |kept|;
    assert kept == whole[j..];
    assert window == whole[|whole| - |window|..];
    forall k {:trigger whole[k..]} | 0 <= k < |whole| - |window| ensures !Fits(whole[k..]) {
      if k < j {
        OneMoreDoesNotFit(history, e, k);
      } else {
        assert whole[k..] == kept[k - j..];
      }
    }
  }

  /**
   * Evicting event by event loses nothing: trimming what is left of a trimmed history
   * after one more push gives the longest fitting suffix of the whole new history.
   */
  lemma EvictIncrementally(history: History, e: BufferedEvent)
    ensures Evict(Evict(history) + [e]) == Evict(history + [e])
  {
    var window := Evict(Evict(history) + [e]);
    EvictKeepsLongestSuffix(Evict(history) + [e]);
    EvictKeepsLongestSuffix(history + [e]);
    LongestSuffixOfSuffix(window, history, e);
    LongestFittingSuffixIsUnique(window, Evict(history + [e]), history + [e]);
  }

  // ── One session, as a value ──

  datatype Session = Session(events: History, totalBytes: nat, lastSeq: nat, disconnectedAt: Option<nat>)

  const NewSession := Session([], 0, 0, None)

  function LastSeq(history: History): nat {
    if history == [] then 0 else history[|history| - 1].seqNo
  }

  /** The buffer that a given push history must leave behind. */
  function BufferOf(history: History, disconnectedAt: Option<nat>): Session {
    Session(Evict(history), TotalBytes(Evict(history)), LastSeq(history), disconnectedAt)
  }

  function Pushed(s: Session, seqNo: nat, data: Json): Session {
    var events := Evict(s.events + [BufferedEvent(seqNo, data)]);
    s.(events := events, totalBytes := TotalBytes(events), lastSeq := seqNo)
  }

  lemma PushFollowsHistory(history: History, disconnectedAt: Option<nat>, seqNo: nat, data: Json)
    ensures Pushed(BufferOf(history, disconnectedAt), seqNo, data)
         == BufferOf(history + [BufferedEvent(seqNo, data)], disconnectedAt)
  {
    EvictIncrementally(history, BufferedEvent(seqNo, data));
  }

  function DataOf(events: History): seq<Json> {
    if events == [] then [] else [events[0].data] + DataOf(events[1..])
  }

  function DataAfter(events: History, afterSeq: nat): seq<Json> {
    if events == [] then []
    else (if events[0].seqNo > afterSeq then [events[0].data] else []) + DataAfter(events[1..], afterSeq)
  }

  function Replay(s: Session, afterSeq: nat): Option<seq<Json>> {
    if afterSeq > s.lastSeq then Some([])
    else
      var minSeq := if s.events == [] then s.lastSeq + 1 else s.events[0].seqNo;
      if afterSeq + 1 < minSeq then None
      else Some(DataAfter(s.events, afterSeq))
  }

  predicate Expired(s: Session, now: nat) {
    match s.disconnectedAt
    case None => false
    case Some(t) => now - t >= SESSION_TTL
  }

  // ── What a replay contains ──

  /** Sequence numbers as `run_session` hands them out: 1, 2, 3, ... */
  ghost predicate Numbered(history: History) {
    forall i {:trigger history[i]} :: 0 <= i < |history| ==> history[i].seqNo == i + 1
  }

  lemma {:induction false} DataAfterNumbered(events: History, first: nat, afterSeq: nat)
    requires forall i {:trigger events[i]} :: 0 <= i < |events| ==> events[i].seqNo == first + i
    requires first <= afterSeq + 1 <= first + |events|
    ensures DataAfter(events, afterSeq) == DataOf(events[afterSeq + 1 - first..])
    decreases |events|
  {
    if events != [] {
      if first == afterSeq + 1 {
        DataAfterTail(events, afterSeq);
        assert events[0..] == events;
      } else {
        DataAfterNumbered(events[1..], first + 1, afterSeq);
        assert events[1..][afterSeq - first..] == events[afterSeq + 1 - first..];
      }
    }
  }

  lemma {:induction false} DataAfterTail(events: History, afterSeq: nat)
    requires forall i {:trigger events[i]} :: 0 <= i < |events| ==> events[i].seqNo > afterSeq
    ensures DataAfter(events, afterSeq) == DataOf(events)
  {
    if events != [] {
      DataAfterTail(events[1..], afterSeq);
    }
  }

  lemma ReplayIfFits(history: History, disconnectedAt: Option<nat>, k: nat)
    requires Numbered(history)
    ensures Replay(BufferOf(history, disconnectedAt), k)
         == if k > |history| then Some([])
            else if Fits(history[k..]) then Some(DataOf(history[k..]))
            else None
  {
    if k <= |history| {
      var window := Evict(history);
      EvictKeepsLongestSuffix(history);
      var first := WindowNumbers(history);
      if k + 1 < first {
        assert !Fits(history[k..]);
      } else {
        SuffixOfFittingFits(window, k + 1 - first);
        assert window[k + 1 - first..] == history[k..];
        DataAfterNumbered(window, first, k);
      }
    }
  }

  /**
   * `replay_from(k)` for k up to the last sequence number succeeds exactly when there are at
   * most 512 events of at most 2 MiB after k, and then yields precisely events k+1, ..., last.
   */
  lemma ReplayIsExact(history: History, disconnectedAt: Option<nat>, k: nat)
    requires Numbered(history)
    ensures Replay(BufferOf(history, disconnectedAt), k)
         == if k > |history| then Some([])
            else if |history| - k <= 512 && TotalBytes(history[k..]) <= 2_097_152 then Some(DataOf(history[k..]))
            else None
  {
    ReplayIfFits(history, disconnectedAt, k);
  }

  /** The sequence number the buffer starts at (one past the last when it is empty). */
  lemma WindowNumbers(history: History) returns (first: nat)
    requires Numbered(history)
    ensures LastSeq(history) == |history|
    ensures first == |history| - |Evict(history)| + 1
    ensures first == if Evict(history) == [] then LastSeq(history) + 1 else Evict(history)[0].seqNo
    ensures forall i {:trigger Evict(history)[i]} :: 0 <= i < |Evict(history)| ==> Evict(history)[i].seqNo == first + i
  {
    var window := Evict(history);
    EvictKeepsLongestSuffix(history);
    first := |history| - |window| + 1;
    forall i {:trigger window[i]} | 0 <= i < |window| ensures window[i].seqNo == first + i {
      assert window[i] == history[first - 1 + i];
    }
  }
}
