/**
 * Paged reads over weekly partitions (services/chat/src/data_service.rs): history pages
 * and offline catch-up, both assembled bucket by bucket with a limit on every query.
 *
 * The reference is "put everything in order, keep what is wanted, take n"; the lemmas say
 * exactly when the bucket-wise reads agree with it.
 */
module ChannelReads {
  import opened Prelude
  import opened Snowflake

  const SYNC_LIMIT: nat := 300
  const SYNC_LIMITED_RETURN: nat := 50
  const HISTORY_BUCKETS: nat := 10
  const SYNC_BUCKETS: nat := 30

  datatype Row = Row(id: int, deleted: bool, content: string)

  // ── Storage ──

  /**
   * One channel's data: its registered buckets and the rows of each partition, both in
   * clustering order (newest first).
   */
  datatype Channel = Channel(buckets: seq<int>, partitions: map<int, seq<Row>>)

  function Partition(ch: Channel, bucket: int): seq<Row> {
    if bucket in ch.partitions then ch.partitions[bucket] else []
  }

  /** Strictly ordered by id, oldest first when `up`. */
  ghost predicate Sorted(rows: seq<Row>, up: bool) {
    forall i, j {:trigger rows[i], rows[j]} :: 0 <= i < j < |rows| ==>
      if up then rows[i].id < rows[j].id else rows[i].id > rows[j].id
  }

  ghost predicate Descending(rows: seq<Row>) {
    Sorted(rows, false)
  }

  /** Clustering order, and every row stored under the bucket its id belongs to. */
  ghost predicate Valid(ch: Channel) {
    && (forall i, j {:trigger ch.buckets[i], ch.buckets[j]} :: 0 <= i < j < |ch.buckets| ==>
         ch.buckets[i] > ch.buckets[j])
    && (forall b {:trigger Partition(ch, b)} :: Descending(Partition(ch, b)))
    && (forall b, r {:trigger r in Partition(ch, b)} :: r in Partition(ch, b) ==> IsId(r.id) && BucketFromId(r.id) == b)
  }

  function Taken<T>(s: seq<T>, n: nat): seq<T> {
    if n <= |s| then s[..n] else s
  }

  function Dropped<T>(s: seq<T>, n: nat): seq<T> {
    if n <= |s| then s[n..] else []
  }

  /** SELECT bucket ... ORDER BY bucket DESC LIMIT n */
  function SelectBuckets(ch: Channel, n: nat): seq<int> {
    Taken(ch.buckets, n)
  }

  /** SELECT ... WHERE bucket = b ORDER BY message_id DESC LIMIT n */
  function SelectHistory(ch: Channel, bucket: int, n: nat): seq<Row> {
    Taken(Partition(ch, bucket), n)
  }

  function Partitions(ch: Channel, buckets: seq<int>): seq<seq<Row>> {
    if buckets == [] then [] else [Partition(ch, buckets[0])] + Partitions(ch, buckets[1..])
  }

  function Flatten(parts: seq<seq<Row>>): seq<Row> {
    if parts == [] then [] else parts[0] + Flatten(parts[1..])
  }

  /** The bucket is a monotone function of the id, so buckets in order are rows in order. */
  lemma {:induction false} BucketOrderIsRowOrder(ch: Channel, buckets: seq<int>)
    requires Valid(ch)
    requires forall i, j {:trigger buckets[i], buckets[j]} :: 0 <= i < j < |buckets| ==> buckets[i] > buckets[j]
    ensures Descending(Flatten(Partitions(ch, buckets)))
    ensures forall q :: q in Flatten(Partitions(ch, buckets)) ==> exists b :: b in buckets && q in Partition(ch, b)
  {
    if buckets != [] {
      BucketOrderIsRowOrder(ch, buckets[1..]);
      var first, rest := Partition(ch, buckets[0]), Flatten(Partitions(ch, buckets[1..]));
      forall r, q | r in first && q in rest ensures r.id > q.id {
        var c :| c in buckets[1..] && q in Partition(ch, c);
        if r.id <= q.id {
          BucketIsMonotone(r.id, q.id);
        }
      }
      assert buckets[0] in buckets;
    }
  }

  // ── History ──

  predicate Wanted(row: Row, before: Option<int>) {
    (before.Some? ==> row.id < before.value) && !row.deleted
  }

  function Live(rows: seq<Row>, before: Option<int>): seq<Row> {
    if rows == [] then []
    else (if Wanted(rows[0], before) then [rows[0]] else []) + Live(rows[1..], before)
  }

  /** How many rows a bucket is asked for when `missing` are still needed. */
  function Need(missing: nat, before: Option<int>): nat {
    if before.Some? then (if missing * 3 < 300 then missing * 3 else 300)
    else if missing < 100 then missing else 100
  }

  /** What the code gathers from these partitions, before the final truncation. */
  function Collected(parts: seq<seq<Row>>, limit: nat, before: Option<int>, found: seq<Row>): seq<Row>
    decreases |parts|
  {
    if parts == [] || |found| >= limit then found
    else Collected(parts[1..], limit, before, found + Live(Taken(parts[0], Need(limit - |found|, before)), before))
  }

  function HistoryPage(parts: seq<seq<Row>>, limit: nat, before: Option<int>): seq<Row> {
    Taken(Collected(parts, limit, before, []), limit)
  }

  method ReadHistory(ch: Channel, limit: nat, before: Option<int>) returns (messages: seq<Row>)
    requires 1 <= limit <= 100
    ensures messages == HistoryPage(Partitions(ch, SelectBuckets(ch, HISTORY_BUCKETS)), limit, before)
  {
    var buckets := SelectBuckets(ch, HISTORY_BUCKETS);
    messages := [];
    var b := 0;
    assert buckets[0..] == buckets;
    while b < |buckets| && |messages| < limit
      invariant b <= |buckets|
      invariant Gathering(ch, buckets, b, limit, before, messages)
      decreases |buckets| - b
    {
      var baseNeed := limit - |messages|;
      var need := if before.Some? then (if baseNeed * 3 < 300 then baseNeed * 3 else 300)
                  else if baseNeed < 100 then baseNeed else 100;
      var rows := SelectHistory(ch, buckets[b], need);
      NextPartition(ch, buckets, b, limit, before, messages);
      messages := Gather(rows, before, messages);
      b := b + 1;
    }
    GatheredAll(ch, buckets, b, limit, before, messages);
    messages := Taken(messages, limit);
  }

  /** After b buckets, going on with what was found leads to the whole page. */
  ghost predicate Gathering(ch: Channel, buckets: seq<int>, b: nat, limit: nat, before: Option<int>, found: seq<Row>)
    requires b <= |buckets|
  {
    Collected(Partitions(ch, buckets[b..]), limit, before, found)
      == Collected(Partitions(ch, buckets), limit, before, [])
  }

  lemma GatheredAll(ch: Channel, buckets: seq<int>, b: nat, limit: nat, before: Option<int>, found: seq<Row>)
    requires b <= |buckets| && Gathering(ch, buckets, b, limit, before, found)
    requires b == |buckets| || |found| >= limit
    ensures Taken(found, limit) == HistoryPage(Partitions(ch, buckets), limit, before)
  {
    if b == |buckets| {
      assert buckets[b..] == [];
    }
  }

  lemma NextPartition(ch: Channel, buckets: seq<int>, b: nat, limit: nat, before: Option<int>, found: seq<Row>)
    requires b < |buckets| && |found| < limit && Gathering(ch, buckets, b, limit, before, found)
    ensures Gathering(ch, buckets, b + 1, limit, before,
                      found + Live(SelectHistory(ch, buckets[b], Need(limit - |found|, before)), before))
  {
    var parts := Partitions(ch, buckets[b..]);
    assert buckets[b..][1..] == buckets[b + 1..];
    assert parts[0] == Partition(ch, buckets[b]) && parts[1..] == Partitions(ch, buckets[b + 1..]);
  }

  /** The row loop: skip what is at or above the cursor, skip what is deleted. */
  method Gather(rows: seq<Row>, before: Option<int>, found: seq<Row>) returns (messages: seq<Row>)
    ensures messages == found + Live(rows, before)
  {
    messages := found;
    var i := 0;
    assert rows[..0] == [];
    while i < |rows|
      invariant i <= |rows|
      invariant messages == found + Live(rows[..i], before)
    {
      LiveAppend(rows[..i], [rows[i]], before);
      assert rows[..i] + [rows[i]] == rows[..i + 1];
      i := i + 1;
      if before.Some? && rows[i - 1].id >= before.value {
        continue;
      }
      if rows[i - 1].deleted {
        continue;
      }
      messages := messages + [rows[i - 1]];
    }
    assert rows[..|rows|] == rows;
  }

  /** The endpoint clamps whatever limit it is given. */
  method GetHistory(ch: Channel, limit: int, before: Option<int>) returns (messages: seq<Row>)
    ensures var page := if limit < 1 then 1 else if limit > 100 then 100 else limit;
            messages == HistoryPage(Partitions(ch, SelectBuckets(ch, HISTORY_BUCKETS)), page, before)
  {
    var page := if limit < 1 then 1 else if limit > 100 then 100 else limit;
    messages := ReadHistory(ch, page, before);
  }

  // ── Filtering ──

  lemma {:induction false} LiveAppend(a: seq<Row>, b: seq<Row>, before: Option<int>)
    ensures Live(a + b, before) == Live(a, before) + Live(b, before)
  {
    if a == [] {
      assert a + b == b;
    } else {
      assert (a + b)[0] == a[0] && (a + b)[1..] == a[1..] + b;
      LiveAppend(a[1..], b, before);
      var head := if Wanted(a[0], before) then [a[0]] else [];
      assert head + (Live(a[1..], before) + Live(b, before)) == head + Live(a[1..], before) + Live(b, before);
    }
  }

  lemma LiveOne(r: Row, rest: seq<Row>, before: Option<int>)
    ensures Wanted(r, before) ==> Live([r] + rest, before) == [r] + Live(rest, before)
    ensures !Wanted(r, before) ==> Live([r] + rest, before) == Live(rest, before)
  {
    assert ([r] + rest)[0] == r && ([r] + rest)[1..] == rest;
    assert [] + Live(rest, before) == Live(rest, before);
  }

  lemma LiveSplit(rows: seq<Row>, n: nat, before: Option<int>)
    ensures Live(rows, before) == Live(Taken(rows, n), before) + Live(Dropped(rows, n), before)
  {
    assert Taken(rows, n) + Dropped(rows, n) == rows;
    LiveAppend(Taken(rows, n), Dropped(rows, n), before);
  }

  lemma {:induction false} LiveMembers(rows: seq<Row>, before: Option<int>)
    ensures forall r :: r in Live(rows, before) <==> r in rows && Wanted(r, before)
  {
    if rows != [] {
      LiveMembers(rows[1..], before);
      assert forall r :: r in rows <==> r == rows[0] || r in rows[1..];
    }
  }

  lemma {:induction false} LiveKeepsOrder(rows: seq<Row>, before: Option<int>, up: bool)
    requires Sorted(rows, up)
    ensures Sorted(Live(rows, before), up)
  {
    if rows != [] {
      LiveKeepsOrder(rows[1..], before, up);
      LiveMembers(rows[1..], before);
      forall q | q in rows[1..] ensures if up then rows[0].id < q.id else rows[0].id > q.id {
      }
      InOrder([rows[0]], Live(rows[1..], before), up);
    }
  }

  ghost predicate AllBefore(a: seq<Row>, b: seq<Row>, up: bool) {
    forall r, q :: r in a && q in b ==> if up then r.id < q.id else r.id > q.id
  }

  lemma SplitSorted(a: seq<Row>, b: seq<Row>, up: bool)
    requires Sorted(a + b, up)
    ensures Sorted(a, up) && Sorted(b, up) && AllBefore(a, b, up)
  {
    forall i {:trigger a[i]} | 0 <= i < |a| ensures a[i] == (a + b)[i] {
    }
    forall i {:trigger b[i]} | 0 <= i < |b| ensures b[i] == (a + b)[|a| + i] {
    }
  }

  lemma InOrder(a: seq<Row>, b: seq<Row>, up: bool)
    requires Sorted(a, up) && Sorted(b, up) && AllBefore(a, b, up)
    ensures Sorted(a + b, up)
  {
  }

  /** Keeping only some rows of the middle leaves the whole in order. */
  lemma FilterMiddle(found: seq<Row>, part: seq<Row>, n: nat, rest: seq<Row>, before: Option<int>, up: bool)
    requires Sorted(found + (part + rest), up)
    ensures Sorted(found + Live(Taken(part, n), before) + rest, up)
  {
    var kept := Live(Taken(part, n), before);
    SplitSorted(found, part + rest, up);
    SplitSorted(part, rest, up);
    LiveKeepsOrder(Taken(part, n), before, up);
    LiveMembers(Taken(part, n), before);
    assert forall r :: r in kept ==> r in part;
    InOrder(found, kept, up);
    InOrder(found + kept, rest, up);
  }

  /** What is gathered extends `found`, in order, by wanted rows of the partitions. */
  lemma {:induction false} CollectedInOrder(parts: seq<seq<Row>>, limit: nat, before: Option<int>, found: seq<Row>)
    requires Descending(found + Flatten(parts))
    ensures var all := Collected(parts, limit, before, found);
            && Descending(all)
            && found <= all
            && forall i {:trigger all[i]} :: |found| <= i < |all| ==> Wanted(all[i], before) && all[i] in Flatten(parts)
    decreases |parts|
  {
    if parts == [] || |found| >= limit {
      assert found == (found + Flatten(parts))[..|found|];
    } else {
      var n := Need(limit - |found|, before);
      var got := Live(Taken(parts[0], n), before);
      FilterMiddle(found, parts[0], n, Flatten(parts[1..]), before, false);
      CollectedInOrder(parts[1..], limit, before, found + got);
      LiveMembers(Taken(parts[0], n), before);
      var all := Collected(parts, limit, before, found);
      forall i {:trigger all[i]} | |found| <= i < |all| ensures Wanted(all[i], before) && all[i] in Flatten(parts) {
        if i < |found + got| {
          assert all[i] == (found + got)[i] && all[i] in got;
          assert all[i] in parts[0];
        }
      }
    }
  }

  // ── When a page is the ideal page ──

  function IdealPage(parts: seq<seq<Row>>, limit: nat, before: Option<int>): seq<Row> {
    Taken(Live(Flatten(parts), before), limit)
  }

  /** A bucket whose query stopped short of a live row that was still needed. */
  predicate Skips(rows: seq<Row>, missing: nat, before: Option<int>) {
    var n := Need(missing, before);
    |Live(Taken(rows, n), before)| < missing && Live(Dropped(rows, n), before) != []
  }

  function StillMissing(rows: seq<Row>, missing: nat, before: Option<int>): nat {
    var got := |Live(Taken(rows, Need(missing, before)), before)|;
    if got < missing then missing - got else 0
  }

  predicate NothingSkipped(parts: seq<seq<Row>>, missing: nat, before: Option<int>)
    decreases |parts|
  {
    parts == [] || missing == 0 ||
    (!Skips(parts[0], missing, before) && NothingSkipped(parts[1..], StillMissing(parts[0], missing, before), before))
  }

  lemma LiveOfParts(parts: seq<seq<Row>>, n: nat, before: Option<int>)
    requires parts != []
    ensures Live(Flatten(parts), before)
         == Live(Taken(parts[0], n), before) + Live(Dropped(parts[0], n), before) + Live(Flatten(parts[1..]), before)
  {
    LiveAppend(parts[0], Flatten(parts[1..]), before);
    LiveSplit(parts[0], n, before);
  }

  lemma DifferAt(a: seq<Row>, b: seq<Row>, limit: nat, k: nat)
    requires k < limit && k < |b| && (k < |a| ==> a[k] != b[k])
    ensures Taken(a, limit) != Taken(b, limit)
  {
    assert Taken(b, limit)[k] == b[k];
    assert k < |a| ==> Taken(a, limit)[k] == a[k];
  }

  /** After a skip, the next row gathered (if any) is older than every row of the bucket. */
  lemma NextGatheredIsOlder(parts: seq<seq<Row>>, limit: nat, before: Option<int>, found: seq<Row>, n: nat,
                            skipped: Row)
    requires Descending(found + Flatten(parts)) && parts != [] && skipped in parts[0]
    ensures var more := found + Live(Taken(parts[0], n), before);
            var page := Collected(parts[1..], limit, before, more);
            |more| < |page| ==> page[|more|] != skipped
  {
    var more := found + Live(Taken(parts[0], n), before);
    FilterMiddle(found, parts[0], n, Flatten(parts[1..]), before, false);
    CollectedInOrder(parts[1..], limit, before, more);
    var page := Collected(parts[1..], limit, before, more);
    if |more| < |page| {
      EarlierIsNewer(found, parts[0], Flatten(parts[1..]), skipped, page[|more|]);
    }
  }

  /** A skipped row shows: the page has an older row, or none, where it belongs. */
  lemma SkippedRowShows(parts: seq<seq<Row>>, limit: nat, before: Option<int>, found: seq<Row>)
    requires Descending(found + Flatten(parts))
    requires parts != [] && |found| < limit && Skips(parts[0], limit - |found|, before)
    ensures Taken(Collected(parts, limit, before, found), limit) != Taken(found + Live(Flatten(parts), before), limit)
  {
    var n := Need(limit - |found|, before);
    var got, left := Live(Taken(parts[0], n), before), Live(Dropped(parts[0], n), before);
    var ideal, k := found + Live(Flatten(parts), before), |found + got|;
    LiveOfParts(parts, n, before);
    assert ideal[k] == left[0];
    LiveMembers(Dropped(parts[0], n), before);
    assert left[0] in Dropped(parts[0], n);
    NextGatheredIsOlder(parts, limit, before, found, n, left[0]);
    DifferAt(Collected(parts, limit, before, found), ideal, limit, k);
  }

  lemma EarlierIsNewer(found: seq<Row>, part: seq<Row>, rest: seq<Row>, r: Row, q: Row)
    requires Descending(found + (part + rest)) && r in part && q in rest
    ensures r.id > q.id
  {
    var i :| 0 <= i < |part| && part[i] == r;
    var j :| 0 <= j < |rest| && rest[j] == q;
    var whole := found + (part + rest);
    assert whole[|found| + i] == r && whole[|found| + |part| + j] == q;
  }

  lemma TakenOfLong(a: seq<Row>, b: seq<Row>, n: nat)
    requires n <= |a|
    ensures Taken(a + b, n) == a[..n]
  {
  }

  /** When nothing live was left behind, or enough was found, this bucket does no harm. */
  lemma BucketHarmless(parts: seq<seq<Row>>, limit: nat, before: Option<int>, found: seq<Row>)
    requires parts != [] && |found| < limit && !Skips(parts[0], limit - |found|, before)
    ensures var more := found + Live(Taken(parts[0], Need(limit - |found|, before)), before);
            Taken(found + Live(Flatten(parts), before), limit) == Taken(more + Live(Flatten(parts[1..]), before), limit)
  {
    var n := Need(limit - |found|, before);
    var got, left, older := Live(Taken(parts[0], n), before), Live(Dropped(parts[0], n), before),
        Live(Flatten(parts[1..]), before);
    LiveOfParts(parts, n, before);
    LeftOutUnseen(found, got, left, older, limit);
  }

  /** Rows left behind do not show if there are none, or if the page is full without them. */
  lemma LeftOutUnseen(found: seq<Row>, got: seq<Row>, left: seq<Row>, older: seq<Row>, limit: nat)
    requires left == [] || |found + got| >= limit
    ensures Taken(found + (got + left + older), limit) == Taken(found + got + older, limit)
  {
    assert found + (got + left + older) == found + got + (left + older);
    if left == [] {
      assert left + older == older;
    } else {
      TakenOfLong(found + got, left + older, limit);
      TakenOfLong(found + got, older, limit);
    }
  }

  lemma {:induction false} PageIsIdealIffNothingSkipped(parts: seq<seq<Row>>, limit: nat, before: Option<int>,
                                                        found: seq<Row>)
    requires Descending(found + Flatten(parts))
    ensures Taken(Collected(parts, limit, before, found), limit) == Taken(found + Live(Flatten(parts), before), limit)
       <==> NothingSkipped(parts, if |found| < limit then limit - |found| else 0, before)
    decreases |parts|
  {
    if parts == [] {
      assert found + Live(Flatten(parts), before) == found;
    } else if |found| < limit {
      var n := Need(limit - |found|, before);
      if Skips(parts[0], limit - |found|, before) {
        SkippedRowShows(parts, limit, before, found);
      } else {
        FilterMiddle(found, parts[0], n, Flatten(parts[1..]), before, false);
        PageIsIdealIffNothingSkipped(parts[1..], limit, before, found + Live(Taken(parts[0], n), before));
        BucketHarmless(parts, limit, before, found);
      }
    }
  }

  lemma PageIsIdealIff(parts: seq<seq<Row>>, limit: nat, before: Option<int>)
    requires Descending(Flatten(parts))
    ensures HistoryPage(parts, limit, before) == IdealPage(parts, limit, before)
            <==> NothingSkipped(parts, limit, before)
  {
    var none: seq<Row> := [];
    var rows, live := Flatten(parts), Live(Flatten(parts), before);
    assert none + rows == rows;
    assert none + live == live;
    PageIsIdealIffNothingSkipped(parts, limit, before, none);
  }

  // ── Main results on history ──

  /** Whatever is deleted or skipped: a page is newest first, live, below the cursor and not too long. */
  lemma HistoryPageShape(ch: Channel, limit: nat, before: Option<int>)
    requires Valid(ch)
    ensures var page := HistoryPage(Partitions(ch, SelectBuckets(ch, HISTORY_BUCKETS)), limit, before);
            && |page| <= limit
            && Descending(page)
            && (forall r :: r in page ==>
                 Wanted(r, before) && exists b :: b in SelectBuckets(ch, HISTORY_BUCKETS) && r in Partition(ch, b))
  {
    var buckets := SelectBuckets(ch, HISTORY_BUCKETS);
    BucketOrderIsRowOrder(ch, buckets);
    assert [] + Flatten(Partitions(ch, buckets)) == Flatten(Partitions(ch, buckets));
    CollectedInOrder(Partitions(ch, buckets), limit, before, []);
  }

  /** For every channel, cursor and limit, deleted rows included. */
  lemma HistoryIsIdealIff(ch: Channel, limit: nat, before: Option<int>)
    requires Valid(ch)
    ensures var parts := Partitions(ch, SelectBuckets(ch, HISTORY_BUCKETS));
            HistoryPage(parts, limit, before) == IdealPage(parts, limit, before)
            <==> NothingSkipped(parts, limit, before)
  {
    BucketOrderIsRowOrder(ch, SelectBuckets(ch, HISTORY_BUCKETS));
    PageIsIdealIff(Partitions(ch, SelectBuckets(ch, HISTORY_BUCKETS)), limit, before);
  }

  // ── Without deleted rows: the condition in plain numbers ──

  ghost predicate NothingDeleted(rows: seq<Row>) {
    forall r :: r in rows ==> !r.deleted
  }

  function AtOrAbove(rows: seq<Row>, before: Option<int>): nat {
    if rows == [] then 0
    else (if before.Some? && rows[0].id >= before.value then 1 else 0) + AtOrAbove(rows[1..], before)
  }

  /**
   * The cursor sits too deep in this bucket: the over-fetch of three pages is used up by
   * more than two pages of rows at or above the cursor, and rows below it are left.
   */
  predicate CursorTooDeep(rows: seq<Row>, limit: nat, before: Option<int>) {
    2 * limit < AtOrAbove(rows, before) < |rows| && 3 * limit < |rows|
  }

  ghost predicate NoneTooDeep(parts: seq<seq<Row>>, limit: nat, before: Option<int>) {
    forall i {:trigger parts[i]} :: 0 <= i < |parts| ==> !CursorTooDeep(parts[i], limit, before)
  }

  ghost predicate AllBelow(rows: seq<Row>, before: Option<int>) {
    before.Some? ==> forall r :: r in rows ==> r.id < before.value
  }

  lemma {:induction false} NoneAbove(rows: seq<Row>, before: Option<int>)
    requires AllBelow(rows, before)
    ensures AtOrAbove(rows, before) == 0
  {
    if rows != [] {
      assert rows[0] in rows;
      NoneAbove(rows[1..], before);
    }
  }

  /** Newest first, rows at or above the cursor come first and the wanted rows after them. */
  lemma {:induction false} LiveIsTail(rows: seq<Row>, before: Option<int>)
    requires Descending(rows) && NothingDeleted(rows)
    ensures AtOrAbove(rows, before) <= |rows| && Live(rows, before) == rows[AtOrAbove(rows, before)..]
  {
    if rows != [] {
      assert rows[0] in rows;
      LiveIsTail(rows[1..], before);
      if before.None? || rows[0].id < before.value {
        NoneAbove(rows[1..], before);
      }
    }
  }

  lemma {:induction false} AtOrAboveOfTaken(rows: seq<Row>, n: nat, before: Option<int>)
    requires Descending(rows)
    ensures AtOrAbove(Taken(rows, n), before) == if AtOrAbove(rows, before) <= n then AtOrAbove(rows, before) else n
    decreases |rows|
  {
    if n == 0 || rows == [] {
      assert Taken(rows, n) == [];
    } else {
      assert Taken(rows, n)[0] == rows[0] && Taken(rows, n)[1..] == Taken(rows[1..], n - 1);
      AtOrAboveOfTaken(rows[1..], n - 1, before);
      if before.None? || rows[0].id < before.value {
        NoneAbove(rows[1..], before);
      }
    }
  }

  /** What a query for n rows gets, and whether it leaves wanted rows behind, in numbers. */
  lemma LiveOfTaken(rows: seq<Row>, n: nat, before: Option<int>)
    requires Descending(rows) && NothingDeleted(rows)
    ensures var above := AtOrAbove(rows, before);
            && above <= |rows|
            && |Live(Taken(rows, n), before)|
               == (if n <= above then 0 else if n <= |rows| then n - above else |rows| - above)
            && (Live(Dropped(rows, n), before) != [] <==> n < |rows| && above < |rows|)
  {
    LiveSplit(rows, n, before);
    LiveIsTail(rows, before);
    LiveIsTail(Taken(rows, n), before);
    AtOrAboveOfTaken(rows, n, before);
  }

  /** With a full page missing, a bucket skips rows exactly when the cursor is too deep in it. */
  lemma SkipsIffTooDeep(rows: seq<Row>, limit: nat, before: Option<int>)
    requires Descending(rows) && NothingDeleted(rows) && 1 <= limit <= 100
    ensures Skips(rows, limit, before) <==> CursorTooDeep(rows, limit, before)
  {
    LiveOfTaken(rows, Need(limit, before), before);
    if before.None? {
      NoneAbove(rows, before);
    }
  }

  /** Once the cursor is behind us, no bucket skips anything. */
  lemma {:induction false} BelowIsFine(parts: seq<seq<Row>>, limit: nat, missing: nat, before: Option<int>)
    requires Descending(Flatten(parts)) && NothingDeleted(Flatten(parts)) && AllBelow(Flatten(parts), before)
             && missing <= 100
    ensures NothingSkipped(parts, missing, before) && NoneTooDeep(parts, limit, before)
    decreases |parts|
  {
    if parts != [] {
      FirstPartClean(parts);
      FirstPart(parts);
      NoneAbove(parts[0], before);
      LiveOfTaken(parts[0], Need(missing, before), before);
      BelowIsFine(parts[1..], limit, StillMissing(parts[0], missing, before), before);
    }
  }

  lemma FirstPart(parts: seq<seq<Row>>)
    requires parts != [] && Descending(Flatten(parts))
    ensures Descending(parts[0]) && Descending(Flatten(parts[1..]))
    ensures forall r, q :: r in parts[0] && q in Flatten(parts[1..]) ==> r.id > q.id
    ensures forall r :: r in Flatten(parts) <==> r in parts[0] || r in Flatten(parts[1..])
  {
    SplitSorted(parts[0], Flatten(parts[1..]), false);
  }

  /** A wanted row in one bucket puts all older buckets below the cursor. */
  lemma WantedRowPutsRestBelow(parts: seq<seq<Row>>, n: nat, before: Option<int>)
    requires parts != [] && Descending(Flatten(parts)) && Live(Taken(parts[0], n), before) != []
    ensures AllBelow(Flatten(parts[1..]), before)
  {
    FirstPart(parts);
    LiveMembers(Taken(parts[0], n), before);
    var r := Live(Taken(parts[0], n), before)[0];
    assert r in Live(Taken(parts[0], n), before) && r in parts[0];
  }

  lemma FirstPartClean(parts: seq<seq<Row>>)
    requires parts != [] && Descending(Flatten(parts)) && NothingDeleted(Flatten(parts))
    ensures Descending(parts[0]) && NothingDeleted(parts[0])
    ensures Descending(Flatten(parts[1..])) && NothingDeleted(Flatten(parts[1..]))
  {
    FirstPart(parts);
  }

  lemma NothingSkippedStep(parts: seq<seq<Row>>, missing: nat, before: Option<int>)
    requires parts != [] && missing > 0
    ensures NothingSkipped(parts, missing, before)
       <==> !Skips(parts[0], missing, before)
            && NothingSkipped(parts[1..], StillMissing(parts[0], missing, before), before)
  {
  }

  /** After the bucket that has wanted rows, no other one matters. */
  lemma RestIsFine(parts: seq<seq<Row>>, limit: nat, before: Option<int>)
    requires parts != [] && Descending(Flatten(parts)) && NothingDeleted(Flatten(parts)) && limit <= 100
    requires Live(Taken(parts[0], Need(limit, before)), before) != []
    ensures NothingSkipped(parts[1..], StillMissing(parts[0], limit, before), before)
    ensures NoneTooDeep(parts[1..], limit, before)
  {
    FirstPartClean(parts);
    WantedRowPutsRestBelow(parts, Need(limit, before), before);
    BelowIsFine(parts[1..], limit, StillMissing(parts[0], limit, before), before);
  }

  lemma {:induction false} NothingSkippedIffNotTooDeep(parts: seq<seq<Row>>, limit: nat, before: Option<int>)
    requires Descending(Flatten(parts)) && NothingDeleted(Flatten(parts)) && 1 <= limit <= 100
    ensures NothingSkipped(parts, limit, before) <==> NoneTooDeep(parts, limit, before)
    decreases |parts|
  {
    if parts != [] {
      FirstPartClean(parts);
      SkipsIffTooDeep(parts[0], limit, before);
      NothingSkippedStep(parts, limit, before);
      NoneTooDeepSplit(parts, limit, before);
      if |Live(Taken(parts[0], Need(limit, before)), before)| == 0 {
        NothingSkippedIffNotTooDeep(parts[1..], limit, before);
      } else {
        RestIsFine(parts, limit, before);
      }
    }
  }

  lemma NoneTooDeepSplit(parts: seq<seq<Row>>, limit: nat, before: Option<int>)
    requires parts != []
    ensures NoneTooDeep(parts, limit, before)
            <==> !CursorTooDeep(parts[0], limit, before) && NoneTooDeep(parts[1..], limit, before)
  {
    assert forall i {:trigger parts[i]} :: 1 <= i < |parts| ==> parts[i] == parts[1..][i - 1];
    assert forall i {:trigger parts[1..][i]} :: 0 <= i < |parts[1..]| ==> parts[1..][i] == parts[i + 1];
  }

  /**
   * With nothing deleted, a page is exactly the newest `limit` rows below the cursor of the
   * ten newest buckets, if and only if the cursor is not too deep in any of them.
   */
  lemma HistoryIsIdealIffCursorShallow(ch: Channel, limit: nat, before: Option<int>)
    requires Valid(ch) && 1 <= limit <= 100
    requires NothingDeleted(Flatten(Partitions(ch, SelectBuckets(ch, HISTORY_BUCKETS))))
    ensures var parts := Partitions(ch, SelectBuckets(ch, HISTORY_BUCKETS));
            HistoryPage(parts, limit, before) == IdealPage(parts, limit, before) <==> NoneTooDeep(parts, limit, before)
  {
    HistoryIsIdealIff(ch, limit, before);
    BucketOrderIsRowOrder(ch, SelectBuckets(ch, HISTORY_BUCKETS));
    NothingSkippedIffNotTooDeep(Partitions(ch, SelectBuckets(ch, HISTORY_BUCKETS)), limit, before);
  }

  /** Without a cursor there is nothing to be deep in. */
  lemma FirstPageIsIdeal(ch: Channel, limit: nat)
    requires Valid(ch) && 1 <= limit <= 100
    requires NothingDeleted(Flatten(Partitions(ch, SelectBuckets(ch, HISTORY_BUCKETS))))
    ensures var parts := Partitions(ch, SelectBuckets(ch, HISTORY_BUCKETS));
            HistoryPage(parts, limit, None) == IdealPage(parts, limit, None)
  {
    HistoryIsIdealIffCursorShallow(ch, limit, None);
    var parts := Partitions(ch, SelectBuckets(ch, HISTORY_BUCKETS));
    forall i {:trigger parts[i]} | 0 <= i < |parts| ensures !CursorTooDeep(parts[i], limit, None) {
      NoneAbove(parts[i], None);
    }
  }

  // ── Catch-up after being offline ──

  /** SELECT ... WHERE bucket = b AND message_id > after ORDER BY message_id ASC LIMIT n */
  function SelectSince(ch: Channel, bucket: int, after: int, n: nat): seq<Row> {
    Taken(Since(Partition(ch, bucket), after), n)
  }

  /** The rows above `after`, oldest first. */
  function Since(rows: seq<Row>, after: int): seq<Row> {
    if rows == [] then []
    else Since(rows[1..], after) + if rows[0].id > after then [rows[0]] else []
  }

  function Undeleted(rows: seq<Row>): seq<Row> {
    Live(rows, None)
  }

  function Reversed(buckets: seq<int>): seq<int> {
    if buckets == [] then [] else Reversed(buckets[1..]) + [buckets[0]]
  }

  /** The partitions of these buckets, each as the rows past `after`, oldest first. */
  function SinceParts(ch: Channel, buckets: seq<int>, after: int): seq<seq<Row>> {
    if buckets == [] then [] else [Since(Partition(ch, buckets[0]), after)] + SinceParts(ch, buckets[1..], after)
  }

  /** What catch-up gathers before it decides whether it found too much. */
  function Caught(parts: seq<seq<Row>>, found: seq<Row>): seq<Row>
    decreases |parts|
  {
    if parts == [] || |found| > SYNC_LIMIT then found
    else Caught(parts[1..], found + Undeleted(Taken(parts[0], SYNC_LIMIT + 1)))
  }

  function SyncReply(caught: seq<Row>): (seq<Row>, bool) {
    if |caught| > SYNC_LIMIT then (caught[|caught| - SYNC_LIMITED_RETURN..], true) else (caught, false)
  }

  method ReadSince(ch: Channel, after: int) returns (messages: seq<Row>, limited: bool)
    ensures (messages, limited)
            == SyncReply(Caught(SinceParts(ch, Reversed(SelectBuckets(ch, SYNC_BUCKETS)), after), []))
  {
    var buckets := Reversed(SelectBuckets(ch, SYNC_BUCKETS));
    messages := [];
    var b := 0;
    assert buckets[0..] == buckets;
    while b < |buckets| && |messages| <= SYNC_LIMIT
      invariant b <= |buckets|
      invariant Caught(SinceParts(ch, buckets[b..], after), messages) == Caught(SinceParts(ch, buckets, after), [])
      decreases |buckets| - b
    {
      var rows := SelectSince(ch, buckets[b], after, SYNC_LIMIT + 1);
      assert buckets[b..][1..] == buckets[b + 1..] && buckets[b..][0] == buckets[b];
      assert SinceParts(ch, buckets[b..], after)[1..] == SinceParts(ch, buckets[b + 1..], after);
      messages := Gather(rows, None, messages);
      b := b + 1;
    }
    assert b == |buckets| ==> buckets[b..] == [];
    limited := |messages| > SYNC_LIMIT;
    if limited {
      messages := messages[|messages| - SYNC_LIMITED_RETURN..];
    }
  }

  // ── What catch-up returns ──

  /** `buckets.sort()` on a list that came newest first reverses it. */
  lemma {:induction false} ReversedIsSorted(buckets: seq<int>)
    requires forall i, j {:trigger buckets[i], buckets[j]} :: 0 <= i < j < |buckets| ==> buckets[i] > buckets[j]
    ensures var sorted := Reversed(buckets);
            && |sorted| == |buckets|
            && (forall i, j {:trigger sorted[i], sorted[j]} :: 0 <= i < j < |sorted| ==> sorted[i] < sorted[j])
            && (forall b :: b in sorted <==> b in buckets)
  {
    if buckets != [] {
      ReversedIsSorted(buckets[1..]);
      var tail := Reversed(buckets[1..]);
      forall i {:trigger tail[i]} | 0 <= i < |tail| ensures tail[i] < buckets[0] {
        assert tail[i] in tail;
        var j :| 0 <= j < |buckets[1..]| && buckets[1..][j] == tail[i];
        assert tail[i] == buckets[j + 1];
      }
    }
  }

  lemma {:induction false} SinceInOrder(rows: seq<Row>, after: int)
    requires Descending(rows)
    ensures Sorted(Since(rows, after), true)
    ensures forall r :: r in Since(rows, after) <==> r in rows && r.id > after
  {
    if rows != [] {
      SinceInOrder(rows[1..], after);
      forall q | q in rows[1..] ensures q.id < rows[0].id {
      }
      InOrder(Since(rows[1..], after), if rows[0].id > after then [rows[0]] else [], true);
    }
  }

  /** Oldest bucket first, oldest row first: everything past `after`, in order. */
  lemma {:induction false} SinceOrderIsRowOrder(ch: Channel, buckets: seq<int>, after: int)
    requires Valid(ch)
    requires forall i, j {:trigger buckets[i], buckets[j]} :: 0 <= i < j < |buckets| ==> buckets[i] < buckets[j]
    ensures Sorted(Flatten(SinceParts(ch, buckets, after)), true)
    ensures forall q ::
              q in Flatten(SinceParts(ch, buckets, after))
              <==> q.id > after && exists b :: b in buckets && q in Partition(ch, b)
  {
    if buckets != [] {
      SinceOrderIsRowOrder(ch, buckets[1..], after);
      SinceInOrder(Partition(ch, buckets[0]), after);
      var first, rest := Since(Partition(ch, buckets[0]), after), Flatten(SinceParts(ch, buckets[1..], after));
      forall r, q | r in first && q in rest ensures r.id < q.id {
        var c :| c in buckets[1..] && q in Partition(ch, c);
        if q.id <= r.id {
          BucketIsMonotone(q.id, r.id);
        }
      }
      InOrder(first, rest, true);
      assert forall b :: b in buckets <==> b == buckets[0] || b in buckets[1..];
    }
  }

  lemma {:induction false} CaughtInOrder(parts: seq<seq<Row>>, found: seq<Row>)
    requires Sorted(found + Flatten(parts), true)
    ensures Sorted(Caught(parts, found), true)
    ensures forall r :: r in Caught(parts, found) ==> r in found || (r in Flatten(parts) && !r.deleted)
    decreases |parts|
  {
    if parts == [] || |found| > SYNC_LIMIT {
      assert found == (found + Flatten(parts))[..|found|];
    } else {
      FilterMiddle(found, parts[0], SYNC_LIMIT + 1, Flatten(parts[1..]), None, true);
      LiveMembers(Taken(parts[0], SYNC_LIMIT + 1), None);
      CaughtInOrder(parts[1..], found + Undeleted(Taken(parts[0], SYNC_LIMIT + 1)));
    }
  }

  /** The partitions a catch-up for `after` looks at. */
  function SyncParts(ch: Channel, after: int): seq<seq<Row>> {
    SinceParts(ch, Reversed(SelectBuckets(ch, SYNC_BUCKETS)), after)
  }

  /** Always: oldest first, live, past `after`; and exactly 50 rows when limited. */
  lemma SyncReplyShape(ch: Channel, after: int)
    requires Valid(ch)
    ensures var (messages, limited) := SyncReply(Caught(SyncParts(ch, after), []));
            && Sorted(messages, true)
            && (forall r :: r in messages ==>
                  && !r.deleted && r.id > after
                  && exists b :: b in SelectBuckets(ch, SYNC_BUCKETS) && r in Partition(ch, b))
            && (limited ==> |messages| == SYNC_LIMITED_RETURN)
            && (!limited ==> |messages| <= SYNC_LIMIT)
  {
    SyncPartsInOrder(ch, after);
    ReplyInOrder(SyncParts(ch, after));
  }

  lemma SyncPartsInOrder(ch: Channel, after: int)
    requires Valid(ch)
    ensures Sorted(Flatten(SyncParts(ch, after)), true)
    ensures forall q :: q in Flatten(SyncParts(ch, after)) <==>
              q.id > after && exists b :: b in SelectBuckets(ch, SYNC_BUCKETS) && q in Partition(ch, b)
  {
    ReversedIsSorted(SelectBuckets(ch, SYNC_BUCKETS));
    SinceOrderIsRowOrder(ch, Reversed(SelectBuckets(ch, SYNC_BUCKETS)), after);
  }

  lemma ReplyInOrder(parts: seq<seq<Row>>)
    requires Sorted(Flatten(parts), true)
    ensures var (messages, limited) := SyncReply(Caught(parts, []));
            Sorted(messages, true) && forall r :: r in messages ==> !r.deleted && r in Flatten(parts)
  {
    assert [] + Flatten(parts) == Flatten(parts);
    CaughtInOrder(parts, []);
  }

  /** No bucket has a live row beyond the 301 that are fetched from it. */
  ghost predicate NothingBeyondFetch(parts: seq<seq<Row>>) {
    forall i {:trigger parts[i]} :: 0 <= i < |parts| ==> Undeleted(Dropped(parts[i], SYNC_LIMIT + 1)) == []
  }

  lemma {:induction false} CaughtIsAllIff(parts: seq<seq<Row>>, found: seq<Row>)
    requires |Caught(parts, found)| <= SYNC_LIMIT
    ensures |Caught(parts, found)| <= |found| + |Undeleted(Flatten(parts))|
    ensures Caught(parts, found) == found + Undeleted(Flatten(parts)) <==> NothingBeyondFetch(parts)
    ensures |Caught(parts, found)| == |found| + |Undeleted(Flatten(parts))| <==> NothingBeyondFetch(parts)
    decreases |parts|
  {
    if parts == [] {
      assert found + Undeleted(Flatten(parts)) == found;
    } else if |found| <= SYNC_LIMIT {
      var got, left := Undeleted(Taken(parts[0], SYNC_LIMIT + 1)), Undeleted(Dropped(parts[0], SYNC_LIMIT + 1));
      var rest := parts[1..];
      LiveOfParts(parts, SYNC_LIMIT + 1, None);
      CaughtIsAllIff(rest, found + got);
      assert forall i {:trigger parts[i]} :: 1 <= i < |parts| ==> parts[i] == rest[i - 1];
      assert forall i {:trigger rest[i]} :: 0 <= i < |rest| ==> rest[i] == parts[i + 1];
      assert left == [] ==> found + Undeleted(Flatten(parts)) == found + got + Undeleted(Flatten(rest));
    } else {
      CaughtKeepsFound(parts, found);
    }
  }

  lemma {:induction false} CaughtKeepsFound(parts: seq<seq<Row>>, found: seq<Row>)
    ensures found <= Caught(parts, found)
    decreases |parts|
  {
    if parts != [] && |found| <= SYNC_LIMIT {
      CaughtKeepsFound(parts[1..], found + Undeleted(Taken(parts[0], SYNC_LIMIT + 1)));
    }
  }

  /** A reply that is not limited is complete exactly when no bucket overflowed its fetch. */
  lemma UnlimitedSyncIsCompleteIff(ch: Channel, after: int)
    requires !SyncReply(Caught(SyncParts(ch, after), [])).1
    ensures SyncReply(Caught(SyncParts(ch, after), [])).0 == Undeleted(Flatten(SyncParts(ch, after)))
       <==> NothingBeyondFetch(SyncParts(ch, after))
  {
    var parts := SyncParts(ch, after);
    CaughtIsAllIff(parts, []);
    assert [] + Undeleted(Flatten(parts)) == Undeleted(Flatten(parts));
  }

  lemma {:induction false} NothingToDrop(rows: seq<Row>)
    requires NothingDeleted(rows)
    ensures Undeleted(rows) == rows
  {
    if rows != [] {
      assert rows[0] in rows;
      NothingToDrop(rows[1..]);
    }
  }

  lemma FetchIsUndeleted(first: seq<Row>, rest: seq<Row>)
    requires NothingDeleted(first + rest)
    ensures Undeleted(Taken(first, SYNC_LIMIT + 1)) == Taken(first, SYNC_LIMIT + 1)
    ensures NothingDeleted(rest)
  {
    assert forall r :: r in first || r in rest ==> r in first + rest;
    NothingToDrop(Taken(first, SYNC_LIMIT + 1));
  }

  /** With nothing deleted, what is gathered is the oldest stretch of everything there is. */
  lemma {:induction false} CaughtIsPrefix(parts: seq<seq<Row>>, found: seq<Row>)
    requires NothingDeleted(Flatten(parts))
    ensures Caught(parts, found) <= found + Flatten(parts)
    ensures |Caught(parts, found)| <= SYNC_LIMIT ==> Caught(parts, found) == found + Flatten(parts)
    decreases |parts|
  {
    if parts == [] {
      assert found + Flatten(parts) == found;
    } else if |found| <= SYNC_LIMIT {
      var first, rest := parts[0], parts[1..];
      var fetched := Taken(first, SYNC_LIMIT + 1);
      FetchIsUndeleted(first, Flatten(rest));
      assert Caught(parts, found) == Caught(rest, found + fetched);
      if |first| <= SYNC_LIMIT + 1 {
        CaughtIsPrefix(rest, found + first);
        assert found + first + Flatten(rest) == found + (first + Flatten(rest));
      } else {
        assert Caught(rest, found + fetched) == found + fetched;
        assert found + fetched == (found + (first + Flatten(rest)))[..|found| + SYNC_LIMIT + 1];
      }
    }
  }

  /**
   * No bucket is cut off: each bucket with rows to fetch is reached with at most 300 rows
   * gathered from the older ones (`already`), and holds at most 301 itself.
   */
  predicate NothingCutOff(parts: seq<seq<Row>>, already: nat)
    decreases |parts|
  {
    parts == [] ||
    (&& (parts[0] != [] ==> already <= SYNC_LIMIT && |parts[0]| <= SYNC_LIMIT + 1)
     && NothingCutOff(parts[1..], already + |parts[0]|))
  }

  lemma {:induction false} CutOffLate(parts: seq<seq<Row>>, already: nat)
    requires already > SYNC_LIMIT
    ensures NothingCutOff(parts, already) <==> Flatten(parts) == []
    decreases |parts|
  {
    if parts != [] {
      CutOffLate(parts[1..], already + |parts[0]|);
    }
  }

  /** Everything missed is fetched exactly when nothing is cut off. */
  lemma {:induction false} AllFetchedIff(parts: seq<seq<Row>>, found: seq<Row>)
    requires NothingDeleted(Flatten(parts))
    ensures |Caught(parts, found)| == |found| + |Flatten(parts)| <==> NothingCutOff(parts, |found|)
    decreases |parts|
  {
    if parts != [] {
      var first, rest := parts[0], parts[1..];
      FetchIsUndeleted(first, Flatten(rest));
      if |found| > SYNC_LIMIT {
        CutOffLate(parts, |found|);
      } else if |first| <= SYNC_LIMIT + 1 {
        AllFetchedIff(rest, found + first);
      } else {
        assert Caught(rest, found + Taken(first, SYNC_LIMIT + 1)) == found + Taken(first, SYNC_LIMIT + 1);
      }
    }
  }

  /** `messages` are the 50 rows that end with row number k. */
  predicate FiftyUpTo(missed: seq<Row>, messages: seq<Row>, k: nat) {
    SYNC_LIMITED_RETURN <= k <= |missed| && messages == missed[k - SYNC_LIMITED_RETURN..k]
  }

  /**
   * `limited` says exactly that more than 300 rows were missed. If not, the reply is all of
   * them; if so, it is 50 of them in a row, and they are the latest 50 exactly when nothing
   * was cut off.
   */
  ghost predicate ReportsOverflow(parts: seq<seq<Row>>) {
    var missed, (messages, limited) := Flatten(parts), SyncReply(Caught(parts, []));
    && (limited <==> |missed| > SYNC_LIMIT)
    && (!limited ==> messages == missed)
    && (limited ==> exists k :: FiftyUpTo(missed, messages, k))
    && (limited ==> (FiftyUpTo(missed, messages, |missed|) <==> NothingCutOff(parts, 0)))
  }

  lemma SyncWithoutDeletions(ch: Channel, after: int)
    requires Valid(ch) && NothingDeleted(Flatten(SyncParts(ch, after)))
    ensures ReportsOverflow(SyncParts(ch, after))
  {
    SyncPartsInOrder(ch, after);
    PartsReportOverflow(SyncParts(ch, after));
  }

  lemma PartsReportOverflow(parts: seq<seq<Row>>)
    requires Sorted(Flatten(parts), true) && NothingDeleted(Flatten(parts))
    ensures ReportsOverflow(parts)
  {
    var missed := Flatten(parts);
    assert [] + missed == missed;
    CaughtIsPrefix(parts, []);
    AllFetchedIff(parts, []);
    PrefixReply(missed, Caught(parts, []));
  }

  lemma PrefixReply(missed: seq<Row>, fetched: seq<Row>)
    requires Sorted(missed, true) && fetched <= missed && (|fetched| <= SYNC_LIMIT ==> fetched == missed)
    ensures var (messages, limited) := SyncReply(fetched);
            && (limited <==> |missed| > SYNC_LIMIT)
            && (!limited ==> messages == missed)
            && (limited ==> FiftyUpTo(missed, messages, |fetched|))
            && (limited ==> (FiftyUpTo(missed, messages, |missed|) <==> |fetched| == |missed|))
  {
    if |fetched| > SYNC_LIMIT {
      assert fetched == missed[..|fetched|];
      assert missed[|missed| - SYNC_LIMITED_RETURN..|missed|] == missed[|missed| - SYNC_LIMITED_RETURN..];
      LastFiftyDiffer(missed, |fetched|);
    }
  }

  lemma LastFiftyDiffer(missed: seq<Row>, n: nat)
    requires Sorted(missed, true) && SYNC_LIMITED_RETURN <= n <= |missed|
    ensures missed[n - SYNC_LIMITED_RETURN..n] == missed[|missed| - SYNC_LIMITED_RETURN..] <==> n == |missed|
  {
    var last, latest := missed[n - SYNC_LIMITED_RETURN..n], missed[|missed| - SYNC_LIMITED_RETURN..];
    assert last[SYNC_LIMITED_RETURN - 1] == missed[n - 1] && latest[SYNC_LIMITED_RETURN - 1] == missed[|missed| - 1];
  }
}
