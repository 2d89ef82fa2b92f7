/**
 * Channels on which the reads of module ChannelReads fall short
 * (services/chat/src/data_service.rs).
 */
module ChannelExamples {
  import opened Prelude
  import opened Snowflake
  import opened ChannelReads

  /** A channel with one partition: ids 1..n, the newest first, all in the bucket of the oldest ids. */
  function SmallChannel(rows: seq<Row>): Channel {
    Channel([BucketFromId(1)], map[BucketFromId(1) := rows])
  }

  lemma SmallIdsShareBucket(id: int)
    requires 1 <= id < 1000
    ensures IsId(id) && BucketFromId(id) == BucketFromId(1)
  {
    assert id / TWO_24 == 0 && 1 / TWO_24 == 0;
  }

  lemma SmallChannelIsValid(rows: seq<Row>)
    requires Descending(rows) && forall r :: r in rows ==> 1 <= r.id < 1000
    ensures Valid(SmallChannel(rows))
    ensures Partitions(SmallChannel(rows), SelectBuckets(SmallChannel(rows), HISTORY_BUCKETS)) == [rows]
    ensures SelectBuckets(SmallChannel(rows), SYNC_BUCKETS) == [BucketFromId(1)]
    ensures Partition(SmallChannel(rows), BucketFromId(1)) == rows
  {
    forall r | r in rows ensures IsId(r.id) && BucketFromId(r.id) == BucketFromId(1) {
      SmallIdsShareBucket(r.id);
    }
    var ch := SmallChannel(rows);
    assert ch.buckets[1..] == [];
  }

  lemma OnePartPage(rows: seq<Row>, limit: nat, before: Option<int>)
    requires limit > 0
    ensures HistoryPage([rows], limit, before) == Taken(Live(Taken(rows, Need(limit, before)), before), limit)
    ensures IdealPage([rows], limit, before) == Taken(Live(rows, before), limit)
  {
    var got := Live(Taken(rows, Need(limit, before)), before);
    assert [rows][1..] == [] && [] + got == got && rows + [] == rows;
    assert Collected([rows], limit, before, []) == Collected([rows][1..], limit, before, [] + got);
    assert Flatten([rows]) == rows + Flatten([rows][1..]);
  }

  /** One soft-deleted row on top is enough to make a page of one come back empty. */
  lemma DeletedRowHidesLiveOne()
    ensures var live, gone := Row(1, false, ""), Row(2, true, "");
            var ch := SmallChannel([gone, live]);
            var parts := Partitions(ch, SelectBuckets(ch, HISTORY_BUCKETS));
            Valid(ch) && HistoryPage(parts, 1, None) == [] && IdealPage(parts, 1, None) == [live]
  {
    var live, gone := Row(1, false, ""), Row(2, true, "");
    var rows := [gone, live];
    SmallChannelIsValid(rows);
    OnePartPage(rows, 1, None);
    LiveOne(gone, [live], None);
    LiveOne(gone, [], None);
    LiveOne(live, [], None);
    assert rows == [gone] + [live] && Taken(rows, 1) == [gone] + [] && [live] + [] == [live];
  }

  lemma AboveOne(r: Row, rest: seq<Row>, cursor: int)
    ensures AtOrAbove([r] + rest, Some(cursor)) == (if r.id >= cursor then 1 else 0) + AtOrAbove(rest, Some(cursor))
  {
    assert ([r] + rest)[1..] == rest;
  }

  lemma ThreeAbove()
    ensures AtOrAbove(Countdown(4), Some(2)) == 3
  {
    var d, c, b, a := Row(1, false, ""), Row(2, false, ""), Row(3, false, ""), Row(4, false, "");
    AboveOne(d, [], 2);
    AboveOne(c, [d] + [], 2);
    AboveOne(b, [c] + ([d] + []), 2);
    AboveOne(a, [b] + ([c] + ([d] + [])), 2);
    assert Countdown(4) == [a] + ([b] + ([c] + ([d] + [])));
  }

  lemma FourRows()
    ensures HistoryPage([Countdown(4)], 1, Some(2)) == []
    ensures IdealPage([Countdown(4)], 1, Some(2)) == [Row(1, false, "")]
  {
    var rows := Countdown(4);
    CountdownRows(4);
    ThreeAbove();
    OnePartPage(rows, 1, Some(2));
    LiveOfTaken(rows, 3, Some(2));
    LiveIsTail(rows, Some(2));
    assert rows[3..] == [Row(1, false, "")];
  }

  /** Four rows, a page of one, and a cursor with three rows at or above it: an empty page. */
  lemma DeepCursorHidesRow()
    ensures var ch := SmallChannel(Countdown(4));
            var parts := Partitions(ch, SelectBuckets(ch, HISTORY_BUCKETS));
            && Valid(ch) && parts == [Countdown(4)] && NothingDeleted(Countdown(4))
            && HistoryPage(parts, 1, Some(2)) == [] && IdealPage(parts, 1, Some(2)) == [Row(1, false, "")]
  {
    CountdownRows(4);
    SmallChannelIsValid(Countdown(4));
    FourRows();
  }

  /** n rows with ids n, n-1, ..., 1. */
  function Countdown(n: nat): seq<Row> {
    seq(n, i requires 0 <= i < n => Row(n - i, false, ""))
  }

  lemma {:induction false} SinceAll(rows: seq<Row>, after: int)
    requires forall i {:trigger rows[i]} :: 0 <= i < |rows| ==> rows[i].id > after
    ensures |Since(rows, after)| == |rows|
  {
    if rows != [] {
      SinceAll(rows[1..], after);
    }
  }

  /** Reading a whole partition past 0 keeps its rows. */
  lemma SinceZero(rows: seq<Row>)
    requires Descending(rows) && NothingDeleted(rows) && forall r :: r in rows ==> r.id > 0
    ensures |Since(rows, 0)| == |rows| && Sorted(Since(rows, 0), true) && NothingDeleted(Since(rows, 0))
  {
    SinceAll(rows, 0);
    SinceInOrder(rows, 0);
  }

  lemma OneLongPart(part: seq<Row>)
    requires |part| == 302 && Sorted(part, true) && NothingDeleted(part)
    ensures Flatten([part]) == part && SyncReply(Caught([part], [])).1
    ensures !FiftyUpTo(part, SyncReply(Caught([part], [])).0, 302)
  {
    assert [part][1..] == [] && part + [] == part;
    assert Flatten([part]) == part + Flatten([part][1..]);
    PartsReportOverflow([part]);
    assert !NothingCutOff([part], 0);
  }

  lemma CountdownRows(n: nat)
    requires n < 1000
    ensures |Countdown(n)| == n && Descending(Countdown(n)) && NothingDeleted(Countdown(n))
    ensures forall r :: r in Countdown(n) ==> 1 <= r.id < 1000
  {
  }

  lemma LongSync(rows: seq<Row>)
    requires |rows| == 302 && Descending(rows) && NothingDeleted(rows) && forall r :: r in rows ==> 1 <= r.id < 1000
    ensures var parts := SyncParts(SmallChannel(rows), 0);
            && |Flatten(parts)| == 302
            && SyncReply(Caught(parts, [])).1
            && !FiftyUpTo(Flatten(parts), SyncReply(Caught(parts, [])).0, 302)
  {
    SmallSync(rows);
    SinceZero(rows);
    OneLongPart(Since(rows, 0));
  }

  /** A user who missed 302 messages of one week gets 50 of them, but not the latest one. */
  lemma LimitedSyncMissesTheLatest()
    ensures var ch := SmallChannel(Countdown(302));
            var parts := SyncParts(ch, 0);
            && Valid(ch) && |Flatten(parts)| == 302
            && SyncReply(Caught(parts, [])).1
            && !FiftyUpTo(Flatten(parts), SyncReply(Caught(parts, [])).0, 302)
  {
    CountdownRows(302);
    SmallChannelIsValid(Countdown(302));
    LongSync(Countdown(302));
  }

  lemma SmallSync(rows: seq<Row>)
    requires Descending(rows) && forall r :: r in rows ==> 1 <= r.id < 1000
    ensures SyncParts(SmallChannel(rows), 0) == [Since(rows, 0)]
  {
    SmallChannelIsValid(rows);
    OneBucketSync(SmallChannel(rows), 0);
  }

  lemma OneBucketSync(ch: Channel, after: int)
    requires |SelectBuckets(ch, SYNC_BUCKETS)| == 1
    ensures SyncParts(ch, after) == [Since(Partition(ch, SelectBuckets(ch, SYNC_BUCKETS)[0]), after)]
  {
    var buckets := SelectBuckets(ch, SYNC_BUCKETS);
    assert buckets[1..] == [];
    var one := Reversed(buckets);
    assert Reversed(buckets[1..]) == [] && one == Reversed(buckets[1..]) + [buckets[0]];
    assert one == [buckets[0]] && one[1..] == [];
    assert SinceParts(ch, one, after) == [Since(Partition(ch, one[0]), after)] + SinceParts(ch, one[1..], after);
  }
}
