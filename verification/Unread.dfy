/**
 * One channel's unread counter and read marker (frontend/contexts/chat-context.tsx).
 *
 * Handlers compute from two places: the state updater sees the committed row, while
 * `ackUpTo` and the focus effect decide from a ref that a render brings up to date. Both
 * are modelled, with the render (`Commit`) as a step of its own.
 */
module Unread {
  import opened Prelude

  datatype Row = Row(lastRead: nat, unread: nat)

  /** `row` is the committed entry of the channel, `seen` the one the ref still holds. */
  datatype State = State(row: Option<Row>, seen: Option<Row>)

  datatype Event =
    | Own(id: nat)                            // `message.new` by this user
    | Foreign(id: nat, focused: bool)         // `message.new` by somebody else
    | Focus(newest: Option<nat>)              // the channel becomes active; its last listed id
    | History(last: nat)                      // a history page of the active channel arrives
    | Load(id: nat)                           // the server's read marker
    | Merge(foreignCount: nat, limited: bool) // the backfill's count
    | Commit                                  // a render: the ref catches up

  const Empty := State(None, None)

  // ── The handlers ──

  function Later(row: Option<Row>, id: nat): nat {
    if row.Some? && row.value.lastRead > id then row.value.lastRead else id
  }

  function AckUpTo(s: State, id: nat): State {
    if s.seen.Some? && s.seen.value.lastRead >= id && s.seen.value.unread == 0 then s
    else s.(row := Some(Row(Later(s.row, id), 0)))
  }

  function FocusOn(s: State, newest: nat): State {
    if s.seen.None? || s.seen.value.lastRead < newest then AckUpTo(s, newest)
    else if s.seen.value.unread > 0 then s.(row := Some(Row(s.seen.value.lastRead, 0)))
    else s
  }

  function HistoryLoaded(s: State, last: nat): State {
    if s.seen.None? || s.seen.value.lastRead < last then AckUpTo(s, last) else s
  }

  function Reported(e: Event): nat
    requires e.Merge?
  {
    if e.limited && e.foreignCount < 300 then 300 else e.foreignCount
  }

  function Step(s: State, e: Event): State {
    match e
    case Own(id) => s.(row := Some(Row(Later(s.row, id), 0)))
    case Foreign(id, focused) =>
      if focused then AckUpTo(s, id)
      else s.(row := Some(Row(LastRead(s.row), UnreadOf(s.row) + 1)))
    case Focus(newest) => if newest.None? then s else FocusOn(s, newest.value)
    case History(last) => HistoryLoaded(s, last)
    case Load(id) => s.(row := Some(Row(Later(s.row, id), UnreadOf(s.row))))
    case Merge(_, _) =>
      if s.row.None? then s
      else
        var unread := s.row.value.unread;
        s.(row := Some(Row(LastRead(s.row), if unread > Reported(e) then unread else Reported(e))))
    case Commit => s.(seen := s.row)
  }

  /** A channel without a row reads as never read. */
  function LastRead(row: Option<Row>): nat {
    if row.Some? then row.value.lastRead else 0
  }

  function UnreadOf(row: Option<Row>): nat {
    if row.Some? then row.value.unread else 0
  }

  function Exec(s: State, run: seq<Event>): State {
    if run == [] then s else Step(Exec(s, run[..|run| - 1]), run[|run| - 1])
  }

  // ── What the counter and the marker stand for ──

  /** The id an event lets the user read up to. */
  function Mark(e: Event): nat {
    match e
    case Own(id) => id
    case Foreign(id, focused) => if focused then id else 0
    case Focus(newest) => if newest.Some? then newest.value else 0
    case History(last) => last
    case Load(id) => id
    case _ => 0
  }

  ghost predicate IsHighestMark(id: nat, run: seq<Event>) {
    && (id == 0 || exists k :: 0 <= k < |run| && Mark(run[k]) == id)
    && forall k :: 0 <= k < |run| ==> Mark(run[k]) <= id
  }

  /** `ackUpTo` has something to do, judging by the ref. */
  predicate AckCounts(s: State, id: nat) {
    s.seen.None? || s.seen.value.lastRead < id || s.seen.value.unread > 0
  }

  /** The event resets the counter, because the user reads the channel. */
  predicate Reads(s: State, e: Event) {
    match e
    case Own(_) => true
    case Foreign(id, focused) => focused && AckCounts(s, id)
    case Focus(newest) => newest.Some? && AckCounts(s, newest.value)
    case History(last) => s.seen.None? || s.seen.value.lastRead < last
    case _ => false
  }

  /** Event k of the run reads the channel. */
  predicate ReadsAt(run: seq<Event>, k: nat)
    requires k < |run|
  {
    Reads(Exec(Empty, run[..k]), run[k])
  }

  /** Foreign messages received unfocused since the last reset. */
  function Missed(run: seq<Event>): nat {
    if run == [] then 0
    else
      var e := run[|run| - 1];
      if Reads(Exec(Empty, run[..|run| - 1]), e) then 0
      else Missed(run[..|run| - 1]) + if e.Foreign? && !e.focused then 1 else 0
  }

  // ── The read marker ──

  /** A focus that writes back a marker the ref remembers and the state has moved past. */
  predicate StaleFocus(s: State, e: Event) {
    && e.Focus? && e.newest.Some? && s.seen.Some?
    && e.newest.value <= s.seen.value.lastRead < LastRead(s.row)
    && s.seen.value.unread > 0
  }

  predicate NoStaleFocus(run: seq<Event>) {
    run == [] || (NoStaleFocus(run[..|run| - 1]) && !StaleFocus(Exec(Empty, run[..|run| - 1]), run[|run| - 1]))
  }

  /** The ref never runs ahead of the state. */
  predicate RefBehind(s: State) {
    LastRead(s.seen) <= LastRead(s.row) && (s.row.None? ==> s.seen.None?)
  }

  /** A step moves the marker to the larger of itself and the event's id, or is a stale focus. */
  lemma StepRaisesMarker(s: State, e: Event)
    requires RefBehind(s)
    ensures var after := LastRead(Step(s, e).row);
            if StaleFocus(s, e) then after < LastRead(s.row)
            else after == (if Mark(e) > LastRead(s.row) then Mark(e) else LastRead(s.row))
    ensures !StaleFocus(s, e) ==> RefBehind(Step(s, e))
  {
    match e
    case Focus(newest) =>
    case _ =>
  }

  lemma {:induction false} MarkerIsHighestMark(run: seq<Event>)
    requires NoStaleFocus(run)
    ensures RefBehind(Exec(Empty, run))
    ensures IsHighestMark(LastRead(Exec(Empty, run).row), run)
  {
    if run != [] {
      var front, e := run[..|run| - 1], run[|run| - 1];
      MarkerIsHighestMark(front);
      var s := Exec(Empty, front);
      StepRaisesMarker(s, e);
      if LastRead(s.row) >= Mark(e) && LastRead(s.row) > 0 {
        var k :| 0 <= k < |front| && Mark(front[k]) == LastRead(s.row);
        assert Mark(run[k]) == LastRead(s.row);
      }
      forall k | 0 <= k < |run| ensures Mark(run[k]) <= LastRead(Step(s, e).row) {
        if k < |front| {
          assert Mark(front[k]) <= LastRead(s.row);
        }
      }
    }
  }

  ghost predicate MarkerHighestAt(run: seq<Event>, k: nat)
    requires k <= |run|
  {
    IsHighestMark(LastRead(Exec(Empty, run[..k]).row), run[..k])
  }

  /** The marker at every moment of a run is the highest id read so far. */
  ghost predicate MarkerAlwaysHighest(run: seq<Event>) {
    forall k :: 0 <= k <= |run| ==> MarkerHighestAt(run, k)
  }

  lemma FrontHighestAt(run: seq<Event>, k: nat)
    requires run != [] && k < |run|
    ensures MarkerHighestAt(run[..|run| - 1], k) <==> MarkerHighestAt(run, k)
  {
    assert run[..|run| - 1][..k] == run[..k];
  }

  lemma FrontAlwaysHighest(run: seq<Event>)
    requires run != []
    ensures MarkerAlwaysHighest(run) <==> MarkerAlwaysHighest(run[..|run| - 1]) && MarkerHighestAt(run, |run|)
  {
    var front := run[..|run| - 1];
    if MarkerAlwaysHighest(run) {
      forall k: nat | k <= |front| ensures MarkerHighestAt(front, k) {
        FrontHighestAt(run, k);
      }
    }
    if MarkerAlwaysHighest(front) && MarkerHighestAt(run, |run|) {
      forall k: nat | k <= |run| ensures MarkerHighestAt(run, k) {
        if k < |run| {
          FrontHighestAt(run, k);
        }
      }
    }
  }

  /**
   * Whatever the order of acks, messages, focus changes, loads, merges and renders, the
   * marker is always the highest id read so far (so it never decreases) exactly when no
   * focus is stale.
   */
  lemma {:induction false} MarkerIsRightIff(run: seq<Event>)
    ensures MarkerAlwaysHighest(run) <==> NoStaleFocus(run)
  {
    if run == [] {
      assert forall k :: 0 <= k <= |run| ==> run[..k] == [];
    } else {
      var front, e := run[..|run| - 1], run[|run| - 1];
      MarkerIsRightIff(front);
      FrontAlwaysHighest(run);
      assert run[..|run|] == run;
      if NoStaleFocus(front) {
        MarkerIsHighestMark(front);
        var s := Exec(Empty, front);
        if StaleFocus(s, e) {
          StepRaisesMarker(s, e);
          var k :| 0 <= k < |front| && Mark(front[k]) == LastRead(s.row);
          assert Mark(run[k]) == LastRead(s.row);
        } else {
          MarkerIsHighestMark(run);
        }
      }
    }
  }

  lemma ExecSnoc(run: seq<Event>, e: Event)
    ensures Exec(Empty, run + [e]) == Step(Exec(Empty, run), e)
  {
    assert (run + [e])[..|run|] == run;
  }

  /**
   * A stale focus does happen. The user has read up to 3, a backfill then reports one
   * unread message, a message of the user's own from another window moves the marker to 5,
   * and the channel is focused before the next render.
   */
  lemma MarkerCanFallBack()
    ensures var run := [Load(1), Focus(Some(3)), Commit, Merge(1, false), Commit, Own(5)];
            LastRead(Exec(Empty, run).row) == 5 && LastRead(Exec(Empty, run + [Focus(Some(3))]).row) == 3
  {
    var read := [Load(1), Focus(Some(3)), Commit];
    ExecSnoc([], Load(1));
    ExecSnoc([Load(1)], Focus(Some(3)));
    ExecSnoc([Load(1), Focus(Some(3))], Commit);
    assert [] + [Load(1)] == [Load(1)] && [Load(1)] + [Focus(Some(3))] == [Load(1), Focus(Some(3))];
    assert [Load(1), Focus(Some(3))] + [Commit] == read;
    ExecSnoc(read, Merge(1, false));
    ExecSnoc(read + [Merge(1, false)], Commit);
    ExecSnoc(read + [Merge(1, false)] + [Commit], Own(5));
    ExecSnoc(read + [Merge(1, false)] + [Commit] + [Own(5)], Focus(Some(3)));
    assert read + [Merge(1, false)] + [Commit] + [Own(5)]
           == [Load(1), Focus(Some(3)), Commit, Merge(1, false), Commit, Own(5)];
  }

  // ── The counter ──

  /** Renders keep up: every handler runs with the ref equal to the committed row. */
  predicate Prompt(run: seq<Event>) {
    run == [] ||
    (&& Prompt(run[..|run| - 1])
     && (run[|run| - 1] == Commit || Exec(Empty, run[..|run| - 1]).seen == Exec(Empty, run[..|run| - 1]).row))
  }

  /** With prompt renders no focus is stale, so the marker theorem applies unconditionally. */
  lemma {:induction false} PromptIsNeverStale(run: seq<Event>)
    requires Prompt(run)
    ensures NoStaleFocus(run)
  {
    if run != [] {
      PromptIsNeverStale(run[..|run| - 1]);
    }
  }

  /** No message is forgotten, however late the renders and whatever the merges report. */
  lemma {:induction false} UnreadCoversMissed(run: seq<Event>)
    ensures UnreadOf(Exec(Empty, run).row) >= Missed(run)
  {
    if run != [] {
      UnreadCoversMissed(run[..|run| - 1]);
    }
  }

  /** A backfill in the run that reported more than had been missed, with nothing read since. */
  ghost predicate Overstated(run: seq<Event>, k: nat) {
    && k < |run| && run[k].Merge?
    && Exec(Empty, run[..k]).row.Some?
    && Reported(run[k]) > Missed(run[..k])
    && forall i {:trigger ReadsAt(run, i)} :: k < i < |run| ==> !ReadsAt(run, i)
  }

  lemma ReadsInFront(run: seq<Event>, i: nat)
    requires i < |run| - 1
    ensures ReadsAt(run[..|run| - 1], i) <==> ReadsAt(run, i)
  {
    assert run[..|run| - 1][..i] == run[..i];
  }

  /** How the backfills since the last read raise the counter above what was missed. */
  lemma OverstatedLater(run: seq<Event>, k: nat)
    requires run != [] && k < |run| - 1
    ensures Overstated(run, k) <==> Overstated(run[..|run| - 1], k) && !ReadsAt(run, |run| - 1)
  {
    var front, last := run[..|run| - 1], |run| - 1;
    assert front[..k] == run[..k];
    if Overstated(front, k) && !ReadsAt(run, last) {
      forall i: nat | k < i < |run| ensures !ReadsAt(run, i) {
        if i < last {
          ReadsInFront(run, i);
        }
      }
    }
    if Overstated(run, k) {
      forall i: nat | k < i < |front| ensures !ReadsAt(front, i) {
        ReadsInFront(run, i);
      }
    }
  }

  ghost predicate SomeOverstated(run: seq<Event>) {
    exists k: nat :: Overstated(run, k)
  }

  lemma OverstatedNowOrBefore(run: seq<Event>)
    requires run != []
    ensures SomeOverstated(run) <==>
            (SomeOverstated(run[..|run| - 1]) && !ReadsAt(run, |run| - 1)) || Overstated(run, |run| - 1)
  {
    var front := run[..|run| - 1];
    if k: nat :| Overstated(run, k) {
      if k < |run| - 1 {
        OverstatedLater(run, k);
      }
    }
    if k: nat :| Overstated(front, k) {
      OverstatedLater(run, k);
    }
  }

  /**
   * With prompt renders, over every run the counter is exactly the number of missed
   * messages if and only if no backfill since the last read reported more than had been
   * missed when it came; and it is never less.
   */
  lemma {:induction false} UnreadIsMissedIff(run: seq<Event>)
    requires Prompt(run)
    ensures UnreadOf(Exec(Empty, run).row) >= Missed(run)
    ensures UnreadOf(Exec(Empty, run).row) == Missed(run) <==> !SomeOverstated(run)
  {
    if run != [] {
      var front, last := run[..|run| - 1], |run| - 1;
      UnreadIsMissedIff(front);
      OverstatedNowOrBefore(run);
      assert run[..last] == front;
    }
  }

  /** After a limited backfill the counter is the least that covers 300, what was counted and what was found. */
  lemma LimitedBackfillCounts(run: seq<Event>, foreignCount: nat)
    requires Exec(Empty, run).row.Some?
    ensures var before := UnreadOf(Exec(Empty, run).row);
            var after := UnreadOf(Exec(Empty, run + [Merge(foreignCount, true)]).row);
            && after >= 300 && after >= before && after >= foreignCount
            && (after == 300 || after == before || after == foreignCount)
  {
    ExecSnoc(run, Merge(foreignCount, true));
  }

  /** A backfill that is not limited, or finds no row, adds nothing of its own. */
  lemma PlainBackfillCounts(run: seq<Event>, foreignCount: nat, limited: bool)
    requires !limited || Exec(Empty, run).row.None?
    ensures var before := UnreadOf(Exec(Empty, run).row);
            var after := UnreadOf(Exec(Empty, run + [Merge(foreignCount, limited)]).row);
            && after >= before && (after == before || after == foreignCount)
            && (if Exec(Empty, run).row.Some? then after >= foreignCount else after == before)
  {
    ExecSnoc(run, Merge(foreignCount, limited));
  }

  /**
   * The backfill counts past the marker the server sent, even if the messages have been
   * read meanwhile: after everything is read, a late backfill shows them as unread again.
   */
  lemma LateBackfillShowsReadMessages()
    ensures var run := [Load(1), Commit, Focus(Some(3)), Commit, Merge(2, false)];
            && Prompt(run) && Missed(run) == 0 && UnreadOf(Exec(Empty, run).row) == 2
  {
    var a, b := [Load(1)], [Load(1), Commit];
    var c, d := [Load(1), Commit, Focus(Some(3))], [Load(1), Commit, Focus(Some(3)), Commit];
    var run := [Load(1), Commit, Focus(Some(3)), Commit, Merge(2, false)];
    assert a[..0] == [] && b[..1] == a && c[..2] == b && d[..3] == c && run[..4] == d;
    assert Exec(Empty, a) == State(Some(Row(1, 0)), None);
    assert Exec(Empty, b) == State(Some(Row(1, 0)), Some(Row(1, 0)));
    assert Exec(Empty, c) == State(Some(Row(3, 0)), Some(Row(1, 0)));
    assert Exec(Empty, d) == State(Some(Row(3, 0)), Some(Row(3, 0)));
    assert Prompt(a) && Prompt(b) && Prompt(c) && Prompt(d) && Missed(d) == 0;
  }
}
