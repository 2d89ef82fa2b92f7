/**
 * Which messages a reader gets, in terms of the channel's buckets and partitions alone
 * (services/chat/src/data_service.rs `read_history` and `read_since`).
 */
module ChannelRows {
  import opened Prelude
  import opened ChannelReads
  import opened CatchUp

  /** The rows of the channel's n newest buckets. */
  ghost function RowsOf(ch: Channel, n: nat): set<Row> {
    set i: nat, r |
      i < n && i < |ch.buckets| && ch.buckets[i] in ch.partitions && r in ch.partitions[ch.buckets[i]] :: r
  }

  /** The live ones below the cursor. */
  ghost function LiveBelow(ch: Channel, n: nat, before: Option<int>): set<Row> {
    set r | r in RowsOf(ch, n) && !r.deleted && (before.Some? ==> r.id < before.value)
  }

  /** The live ones past the cursor. */
  ghost function LivePast(ch: Channel, n: nat, after: int): set<Row> {
    set r | r in RowsOf(ch, n) && !r.deleted && r.id > after
  }

  ghost function NewerThan(rows: set<Row>, r: Row): set<Row> {
    set q | q in rows && q.id > r.id
  }

  // ── Lists in order and their members ──

  ghost function Members(rows: seq<Row>): set<Row> {
    set r | r in rows
  }

  lemma {:induction false} CountMembers(rows: seq<Row>, up: bool)
    requires Sorted(rows, up)
    ensures |Members(rows)| == |rows|
    decreases |rows|
  {
    if rows == [] {
      assert Members(rows) == {};
    } else {
      var n := |rows| - 1;
      assert rows[..n] + [rows[n]] == rows;
      SplitSorted(rows[..n], [rows[n]], up);
      CountMembers(rows[..n], up);
      assert rows[n] !in rows[..n];
      assert Members(rows) == Members(rows[..n]) + {rows[n]};
    }
  }

  lemma NewerIffBefore(rows: seq<Row>, k: nat, q: Row)
    requires Descending(rows) && k < |rows|
    ensures q in rows && q.id > rows[k].id <==> q in rows[..k]
  {
    if q in rows && q.id > rows[k].id {
      var j :| 0 <= j < |rows| && rows[j] == q;
      assert rows[..k][j] == q;
    }
    if q in rows[..k] {
      var j :| 0 <= j < k && rows[..k][j] == q;
      assert rows[j] == q;
    }
  }

  /** In a list from the newest on, a row at position k has k newer ones. */
  lemma NewerAreBefore(rows: seq<Row>, k: nat)
    requires Descending(rows) && k < |rows|
    ensures |NewerThan(Members(rows), rows[k])| == k
  {
    assert rows[..k] + rows[k..] == rows;
    SplitSorted(rows[..k], rows[k..], false);
    CountMembers(rows[..k], false);
    forall q ensures q in NewerThan(Members(rows), rows[k]) <==> q in Members(rows[..k]) {
      NewerIffBefore(rows, k, q);
    }
    assert NewerThan(Members(rows), rows[k]) == Members(rows[..k]);
  }

  lemma NewerIffAfter(rows: seq<Row>, k: nat, q: Row)
    requires Sorted(rows, true) && k < |rows|
    ensures q in rows && q.id > rows[k].id <==> q in rows[k + 1..]
  {
    if q in rows && q.id > rows[k].id {
      var j :| 0 <= j < |rows| && rows[j] == q;
      assert rows[k + 1..][j - k - 1] == q;
    }
    if q in rows[k + 1..] {
      var j :| 0 <= j < |rows| - k - 1 && rows[k + 1..][j] == q;
      assert rows[k + 1 + j] == q;
    }
  }

  /** In a list up to the newest, a row at position k has the rest after it. */
  lemma NewerAreAfter(rows: seq<Row>, k: nat)
    requires Sorted(rows, true) && k < |rows|
    ensures |NewerThan(Members(rows), rows[k])| == |rows| - k - 1
  {
    assert rows[..k + 1] + rows[k + 1..] == rows;
    SplitSorted(rows[..k + 1], rows[k + 1..], true);
    CountMembers(rows[k + 1..], true);
    forall q ensures q in NewerThan(Members(rows), rows[k]) <==> q in Members(rows[k + 1..]) {
      NewerIffAfter(rows, k, q);
    }
    assert NewerThan(Members(rows), rows[k]) == Members(rows[k + 1..]);
  }

  /** The first n rows of a list from the newest on are those with fewer than n newer ones. */
  lemma FirstRows(rows: seq<Row>, n: nat, r: Row)
    requires Descending(rows) && r in rows
    ensures r in Taken(rows, n) <==> |NewerThan(Members(rows), r)| < n
  {
    var k :| 0 <= k < |rows| && rows[k] == r;
    NewerAreBefore(rows, k);
    if k < n {
      assert Taken(rows, n)[k] == r;
    } else {
      assert rows[..n] + rows[n..] == rows && rows[n..][k - n] == r;
      SplitSorted(rows[..n], rows[n..], false);
    }
  }

  /** The last n rows of a list up to the newest are those with fewer than n newer ones. */
  lemma LastRows(rows: seq<Row>, n: nat, r: Row)
    requires Sorted(rows, true) && r in rows && n <= |rows|
    ensures r in rows[|rows| - n..] <==> |NewerThan(Members(rows), r)| < n
  {
    var k :| 0 <= k < |rows| && rows[k] == r;
    var start := |rows| - n;
    NewerAreAfter(rows, k);
    if start <= k {
      assert rows[start..][k - start] == r;
    } else {
      assert rows[..start] + rows[start..] == rows && rows[..start][k] == r;
      SplitSorted(rows[..start], rows[start..], true);
    }
  }

  // ── History ──

  lemma BelowMembers(ch: Channel, before: Option<int>)
    requires Valid(ch)
    ensures Descending(Live(Flatten(Partitions(ch, SelectBuckets(ch, HISTORY_BUCKETS))), before))
    ensures Members(Live(Flatten(Partitions(ch, SelectBuckets(ch, HISTORY_BUCKETS))), before))
         == LiveBelow(ch, 10, before)
  {
    var buckets := SelectBuckets(ch, HISTORY_BUCKETS);
    var rows := Flatten(Partitions(ch, buckets));
    BucketOrderIsRowOrder(ch, buckets);
    LiveKeepsOrder(rows, before, false);
    LiveMembers(rows, before);
    forall r ensures r in rows <==> r in RowsOf(ch, 10) {
      InPartitions(ch, buckets, r);
      SelectedRows(ch, buckets, 10, r);
    }
  }

  lemma {:induction false} InPartitions(ch: Channel, buckets: seq<int>, r: Row)
    ensures r in Flatten(Partitions(ch, buckets)) <==> exists b :: b in buckets && r in Partition(ch, b)
  {
    if buckets != [] {
      InPartitions(ch, buckets[1..], r);
      assert buckets == [buckets[0]] + buckets[1..];
    }
  }

  /** Being in one of the first n buckets, both ways. */
  lemma SelectedRows(ch: Channel, buckets: seq<int>, n: nat, r: Row)
    requires buckets == if n <= |ch.buckets| then ch.buckets[..n] else ch.buckets
    ensures (exists b :: b in buckets && r in Partition(ch, b)) <==> r in RowsOf(ch, n)
  {
    if b :| b in buckets && r in Partition(ch, b) {
      var i :| 0 <= i < |buckets| && buckets[i] == b;
      assert ch.buckets[i] == b;
    }
    if r in RowsOf(ch, n) {
      var i: nat :| i < n && i < |ch.buckets| && ch.buckets[i] in ch.partitions && r in ch.partitions[ch.buckets[i]];
      assert buckets[i] in buckets;
      assert r in Partition(ch, buckets[i]);
    }
  }

  /** Everything on a page is a live message of the ten newest buckets below the cursor, newest first. */
  lemma PageRows(ch: Channel, limit: nat, before: Option<int>)
    requires Valid(ch)
    ensures var page := HistoryPage(Partitions(ch, SelectBuckets(ch, HISTORY_BUCKETS)), limit, before);
            Descending(page) && |page| <= limit && forall r :: r in page ==> r in LiveBelow(ch, 10, before)
  {
    HistoryPageShape(ch, limit, before);
    var page := HistoryPage(Partitions(ch, SelectBuckets(ch, HISTORY_BUCKETS)), limit, before);
    forall r | r in page ensures r in LiveBelow(ch, 10, before) {
      SelectedRows(ch, SelectBuckets(ch, HISTORY_BUCKETS), 10, r);
    }
  }

  /**
   * If no query stops short of a live row that is still needed, the messages on a page are
   * exactly the live ones of the ten newest buckets, below the cursor, that have fewer than
   * `limit` newer ones.
   */
  lemma PageIsTheNewest(ch: Channel, limit: nat, before: Option<int>, r: Row)
    requires Valid(ch)
    requires NothingSkipped(Partitions(ch, SelectBuckets(ch, HISTORY_BUCKETS)), limit, before)
    ensures r in HistoryPage(Partitions(ch, SelectBuckets(ch, HISTORY_BUCKETS)), limit, before)
       <==> r in LiveBelow(ch, 10, before) && |NewerThan(LiveBelow(ch, 10, before), r)| < limit
  {
    BelowMembers(ch, before);
    HistoryIsIdealIff(ch, limit, before);
    var live := Live(Flatten(Partitions(ch, SelectBuckets(ch, HISTORY_BUCKETS))), before);
    if r in LiveBelow(ch, 10, before) {
      FirstRows(live, limit, r);
    } else {
      assert forall q :: q in Taken(live, limit) ==> q in live;
    }
  }

  ghost function AboveIn(rows: seq<Row>, before: Option<int>): set<Row> {
    set r | r in rows && before.Some? && r.id >= before.value
  }

  /** The rows of the channel's bucket i that lie at or above the cursor. */
  ghost function Above(ch: Channel, i: nat, before: Option<int>): set<Row>
    requires i < |ch.buckets|
  {
    if ch.buckets[i] in ch.partitions then AboveIn(ch.partitions[ch.buckets[i]], before) else {}
  }

  /** In none of the ten newest buckets have more than 2·limit rows to be passed over to reach the cursor. */
  ghost predicate CursorNearTop(ch: Channel, limit: nat, before: Option<int>) {
    forall i: nat {:trigger ch.buckets[i]} :: i < 10 && i < |ch.buckets| ==> |Above(ch, i, before)| <= 2 * limit
  }

  lemma AboveWithHead(head: Row, rest: seq<Row>, before: Option<int>)
    requires Descending([head] + rest)
    ensures Descending(rest) && head !in rest
    ensures AboveIn([head] + rest, before)
         == AboveIn(rest, before) + if before.Some? && head.id >= before.value then {head} else {}
  {
    SplitSorted([head], rest, false);
    assert head in [head];
    assert forall r :: r in [head] + rest <==> r == head || r in rest;
  }

  lemma AtOrAboveWithHead(head: Row, rest: seq<Row>, before: Option<int>)
    ensures AtOrAbove([head] + rest, before)
         == (if before.Some? && head.id >= before.value then 1 else 0) + AtOrAbove(rest, before)
  {
    assert ([head] + rest)[1..] == rest;
  }

  lemma {:induction false} AboveCount(rows: seq<Row>, before: Option<int>)
    requires Descending(rows)
    ensures |AboveIn(rows, before)| == AtOrAbove(rows, before)
    decreases |rows|
  {
    if rows == [] {
      assert AboveIn(rows, before) == {};
    } else {
      var head, rest := rows[0], rows[1..];
      assert rows == [head] + rest;
      AboveWithHead(head, rest, before);
      AtOrAboveWithHead(head, rest, before);
      AboveCount(rest, before);
    }
  }

  /**
   * Without deletions and with the cursor near the top of its bucket, or none at all, every
   * page is exactly the newest `limit` messages below it.
   */
  lemma PageNearTopIsTheNewest(ch: Channel, limit: nat, before: Option<int>, r: Row)
    requires Valid(ch) && 1 <= limit <= 100 && CursorNearTop(ch, limit, before)
    requires forall q :: q in RowsOf(ch, 10) ==> !q.deleted
    ensures r in HistoryPage(Partitions(ch, SelectBuckets(ch, HISTORY_BUCKETS)), limit, before)
       <==> r in LiveBelow(ch, 10, before) && |NewerThan(LiveBelow(ch, 10, before), r)| < limit
  {
    var buckets := SelectBuckets(ch, HISTORY_BUCKETS);
    var parts := Partitions(ch, buckets);
    BucketOrderIsRowOrder(ch, buckets);
    forall q | q in Flatten(parts) ensures !q.deleted {
      SelectedRows(ch, buckets, 10, q);
    }
    PartitionAt(ch, buckets);
    forall i {:trigger parts[i]} | 0 <= i < |parts| ensures !CursorTooDeep(parts[i], limit, before) {
      assert ch.buckets[i] == buckets[i] && parts[i] == Partition(ch, buckets[i]);
      AboveCount(parts[i], before);
      assert AboveIn(parts[i], before) == Above(ch, i, before);
    }
    HistoryIsIdealIffCursorShallow(ch, limit, before);
    HistoryIsIdealIff(ch, limit, before);
    PageIsTheNewest(ch, limit, before, r);
  }

  lemma {:induction false} PartitionAt(ch: Channel, buckets: seq<int>)
    ensures |Partitions(ch, buckets)| == |buckets|
    ensures forall i {:trigger Partitions(ch, buckets)[i]} :: 0 <= i < |buckets| ==>
              Partitions(ch, buckets)[i] == Partition(ch, buckets[i])
  {
    if buckets != [] {
      PartitionAt(ch, buckets[1..]);
    }
  }

  // ── Catch-up ──

  lemma PastMembers(ch: Channel, after: int)
    requires Valid(ch)
    ensures Sorted(Flatten(SyncParts(ch, after)), true)
    ensures Sorted(Undeleted(Flatten(SyncParts(ch, after))), true)
    ensures Members(Undeleted(Flatten(SyncParts(ch, after)))) == LivePast(ch, 30, after)
  {
    var rows := Flatten(SyncParts(ch, after));
    SyncPartsInOrder(ch, after);
    LiveKeepsOrder(rows, None, true);
    LiveMembers(rows, None);
    forall r ensures r in rows <==> r in RowsOf(ch, 30) && r.id > after {
      SelectedRows(ch, SelectBuckets(ch, SYNC_BUCKETS), 30, r);
    }
  }

  /** Everything in the reply is a live message that was missed. */
  lemma SyncRowsAreMissed(ch: Channel, after: int)
    requires Valid(ch)
    ensures forall r :: r in SyncReply(Caught(SyncParts(ch, after), [])).0 ==> r in LivePast(ch, 30, after)
  {
    SyncReplyShape(ch, after);
    forall r | r in SyncReply(Caught(SyncParts(ch, after), [])).0 ensures r in LivePast(ch, 30, after) {
      SelectedRows(ch, SelectBuckets(ch, SYNC_BUCKETS), 30, r);
    }
  }

  /** A limited reply leaves more than 300 messages missed. */
  lemma LimitedMeansMany(ch: Channel, after: int)
    requires Valid(ch) && SyncReply(Caught(SyncParts(ch, after), [])).1
    ensures |LivePast(ch, 30, after)| > 300
  {
    PastMembers(ch, after);
    CountMembers(Undeleted(Flatten(SyncParts(ch, after))), true);
    CaughtIsPart(SyncParts(ch, after));
  }

  /**
   * A catch-up returns live messages of the thirty newest buckets past the cursor, oldest
   * first: at most 300, or, if it says that it is limited, 50 of more than 300.
   */
  lemma SyncRows(ch: Channel, after: int)
    requires Valid(ch)
    ensures var (messages, limited) := SyncReply(Caught(SyncParts(ch, after), []));
            && Sorted(messages, true) && (forall r :: r in messages ==> r in LivePast(ch, 30, after))
            && if limited then |messages| == 50 && |LivePast(ch, 30, after)| > 300 else |messages| <= 300
  {
    SyncReplyShape(ch, after);
    SyncRowsAreMissed(ch, after);
    if SyncReply(Caught(SyncParts(ch, after), [])).1 {
      LimitedMeansMany(ch, after);
    }
  }

  /** A reply that is not limited is all that was missed, if no bucket has a live row beyond the 301 fetched. */
  lemma UnlimitedSyncIsAll(ch: Channel, after: int, r: Row)
    requires Valid(ch) && !SyncReply(Caught(SyncParts(ch, after), [])).1
    requires NothingBeyondFetch(SyncParts(ch, after))
    ensures r in SyncReply(Caught(SyncParts(ch, after), [])).0 <==> r in LivePast(ch, 30, after)
  {
    UnlimitedSyncIsCompleteIff(ch, after);
    PastMembers(ch, after);
    assert r in Undeleted(Flatten(SyncParts(ch, after))) <==> r in Members(Undeleted(Flatten(SyncParts(ch, after))));
  }

  lemma LastFifty(live: seq<Row>, messages: seq<Row>, r: Row)
    requires Sorted(live, true) && FiftyUpTo(live, messages, |live|)
    ensures r in messages <==> r in live && |NewerThan(Members(live), r)| < 50
  {
    assert live[|live| - 50..|live|] == live[|live| - 50..];
    InSlice(live, |live| - 50, r);
    if r in live {
      LastRows(live, 50, r);
    }
  }

  lemma InSlice(rows: seq<Row>, k: nat, r: Row)
    requires k <= |rows|
    ensures r in rows[k..] ==> r in rows
  {
  }

  /** A limited reply is the missed messages with fewer than 50 newer ones, if none of these is lost. */
  lemma LimitedSyncIsLatest(ch: Channel, after: int, r: Row)
    requires Valid(ch) && SyncReply(Caught(SyncParts(ch, after), [])).1 && LatestNotLost(SyncParts(ch, after))
    ensures r in SyncReply(Caught(SyncParts(ch, after), [])).0
       <==> r in LivePast(ch, 30, after) && |NewerThan(LivePast(ch, 30, after), r)| < 50
  {
    LimitedSyncIsLatestIff(ch, after);
    PastMembers(ch, after);
    LastFifty(Undeleted(Flatten(SyncParts(ch, after))), SyncReply(Caught(SyncParts(ch, after), [])).0, r);
  }
}
