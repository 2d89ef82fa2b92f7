/**
 * Reading a channel backwards page by page (services/chat/src/data_service.rs,
 * frontend/contexts/chat-context.tsx `ensureHistory` and `loadMore`).
 */
module HistoryPaging {
  import opened Prelude
  import opened ChannelReads

  /**
   * A reader starts with the newest page and asks for the page before the oldest row it
   * got, until a page is empty.
   */
  predicate PagesBack(parts: seq<seq<Row>>, limit: nat, before: Option<int>, pages: seq<seq<Row>>)
    decreases pages
  {
    if pages == [] then HistoryPage(parts, limit, before) == []
    else
      && pages[0] == HistoryPage(parts, limit, before) && pages[0] != []
      && PagesBack(parts, limit, Some(pages[0][|pages[0]| - 1].id), pages[1..])
  }

  lemma {:induction false} CollectedWithinFetch(parts: seq<seq<Row>>, limit: nat, before: Option<int>, found: seq<Row>,
                                                r: Row)
    requires r in Collected(parts, limit, before, found)
    ensures r in found || exists i :: 0 <= i < |parts| && r in Taken(parts[i], 3 * limit)
    decreases |parts|
  {
    if parts != [] && |found| < limit {
      var n := Need(limit - |found|, before);
      CollectedWithinFetch(parts[1..], limit, before, found + Live(Taken(parts[0], n), before), r);
      LiveMembers(Taken(parts[0], n), before);
      if r in Taken(parts[0], n) {
        assert r in Taken(parts[0], 3 * limit);
      } else if i :| 0 <= i < |parts[1..]| && r in Taken(parts[1..][i], 3 * limit) {
        assert parts[i + 1] == parts[1..][i];
      }
    }
  }

  lemma NotInBoth(a: seq<Row>, b: seq<Row>)
    requires Descending(a + b)
    ensures forall r :: r in a ==> r !in b
  {
    SplitSorted(a, b, false);
  }

  lemma {:induction false} InFlatten(parts: seq<seq<Row>>, i: nat)
    requires i < |parts|
    ensures forall r :: r in parts[i] ==> r in Flatten(parts)
    decreases |parts|
  {
    if i > 0 {
      InFlatten(parts[1..], i - 1);
    }
  }

  lemma HalvesApart(rows: seq<Row>, n: nat)
    requires Descending(rows)
    ensures forall r :: r in Dropped(rows, n) ==> r !in Taken(rows, n)
  {
    assert Taken(rows, n) + Dropped(rows, n) == rows;
    NotInBoth(Taken(rows, n), Dropped(rows, n));
  }

  lemma FirstApart(parts: seq<seq<Row>>, k: nat)
    requires parts != [] && Descending(Flatten(parts)) && 0 < k < |parts|
    ensures forall r :: r in parts[0] ==> r !in parts[k]
  {
    NotInBoth(parts[0], Flatten(parts[1..]));
    InFlatten(parts[1..], k - 1);
    assert parts[1..][k - 1] == parts[k];
  }

  lemma Halves(rows: seq<Row>, n: nat)
    ensures forall r :: r in Taken(rows, n) ==> r in rows
    ensures forall r :: r in Dropped(rows, n) ==> r in rows
  {
  }

  /** Two partitions of an ordered list share no row, and none holds a row twice. */
  lemma {:induction false} RowHasOnePlace(parts: seq<seq<Row>>, i: nat, j: nat, n: nat, r: Row)
    requires Descending(Flatten(parts)) && i < |parts| && j < |parts|
    requires r in Dropped(parts[i], n)
    ensures r !in Taken(parts[j], n)
    decreases |parts|
  {
    SplitSorted(parts[0], Flatten(parts[1..]), false);
    Halves(parts[i], n);
    Halves(parts[j], n);
    if i > 0 && j > 0 {
      RowHasOnePlace(parts[1..], i - 1, j - 1, n, r);
    } else if i > 0 {
      FirstApart(parts, i);
    } else if j > 0 {
      FirstApart(parts, j);
    } else {
      HalvesApart(parts[0], n);
    }
  }

  /**
   * A row that has more than 3·limit - 1 newer rows in its own bucket is on no page, for
   * no cursor, deleted rows or not: paging back can never reach it.
   */
  lemma DeepRowIsUnreachable(parts: seq<seq<Row>>, limit: nat, before: Option<int>, i: nat, k: nat)
    requires Descending(Flatten(parts)) && i < |parts| && 3 * limit <= k < |parts[i]|
    ensures parts[i][k] !in HistoryPage(parts, limit, before)
  {
    var r := parts[i][k];
    assert Dropped(parts[i], 3 * limit)[k - 3 * limit] == r;
    if r in HistoryPage(parts, limit, before) {
      CollectedWithinFetch(parts, limit, before, [], r);
      var j :| 0 <= j < |parts| && r in Taken(parts[j], 3 * limit);
      RowHasOnePlace(parts, i, j, 3 * limit, r);
    }
  }

  /** With no bucket too long, a page is what comes next and the cursor moves just past it. */
  lemma NextPage(parts: seq<seq<Row>>, limit: nat, before: Option<int>)
    requires Descending(Flatten(parts)) && NothingDeleted(Flatten(parts)) && 1 <= limit <= 100 && AllShort(parts, limit)
    ensures var page, live := HistoryPage(parts, limit, before), Live(Flatten(parts), before);
            && page == Taken(live, limit)
            && (page != [] ==> live == page + Live(Flatten(parts), Some(page[|page| - 1].id)))
  {
    NothingSkippedIffNotTooDeep(parts, limit, before);
    PageIsIdealIff(parts, limit, before);
    var page := HistoryPage(parts, limit, before);
    if page != [] {
      StretchThenRest(Flatten(parts), before, page);
    }
  }

  /** What is still to be read, for a reader that has come down to `before`. */
  lemma {:induction false} IdealPagesCover(parts: seq<seq<Row>>, limit: nat, before: Option<int>, pages: seq<seq<Row>>)
    requires Descending(Flatten(parts)) && NothingDeleted(Flatten(parts)) && 1 <= limit <= 100
    requires AllShort(parts, limit)
    requires PagesBack(parts, limit, before, pages)
    ensures Flatten(pages) == Live(Flatten(parts), before)
    decreases pages
  {
    NextPage(parts, limit, before);
    if pages != [] {
      IdealPagesCover(parts, limit, Some(pages[0][|pages[0]| - 1].id), pages[1..]);
    }
  }

  /** Below both cursors they make no difference. */
  lemma {:induction false} SameBelow(rows: seq<Row>, a: Option<int>, b: Option<int>)
    requires forall r :: r in rows ==> (a.Some? ==> r.id < a.value) && (b.Some? ==> r.id < b.value)
    ensures Live(rows, a) == Live(rows, b)
  {
    if rows != [] {
      assert rows[0] in rows && forall r :: r in rows[1..] ==> r in rows;
      SameBelow(rows[1..], a, b);
    }
  }

  lemma RestIsOlder(head: Row, rest: seq<Row>)
    requires Descending([head] + rest)
    ensures Descending(rest) && forall r :: r in rest ==> r.id < head.id
  {
    SplitSorted([head], rest, false);
    assert head in [head];
  }

  /** With the cursor on the head, the rest is filtered as before. */
  lemma CursorOnHead(head: Row, rest: seq<Row>, before: Option<int>)
    requires Descending([head] + rest) && Wanted(head, before)
    ensures Live([head] + rest, Some(head.id)) == Live(rest, before)
  {
    RestIsOlder(head, rest);
    LiveOne(head, rest, Some(head.id));
    SameBelow(rest, Some(head.id), before);
  }

  /** With the cursor on a wanted row of the rest, the head is above it. */
  lemma CursorInRest(head: Row, rest: seq<Row>, before: Option<int>, r: Row)
    requires Descending([head] + rest) && r in Live(rest, before)
    ensures Live([head] + rest, Some(r.id)) == Live(rest, Some(r.id))
  {
    RestIsOlder(head, rest);
    LiveMembers(rest, before);
    LiveOne(head, rest, Some(r.id));
  }

  lemma AfterHead(head: Row, rows: seq<Row>, n: nat)
    requires 1 <= n <= |rows| + 1
    ensures ([head] + rows)[n..] == rows[n - 1..] && (n > 1 ==> ([head] + rows)[n - 1] == rows[n - 2])
  {
  }

  /** With the cursor on the n-th wanted row, exactly the wanted rows after it are left. */
  ghost predicate Moves(rows: seq<Row>, before: Option<int>, n: nat) {
    0 < n <= |Live(rows, before)| ==> Live(rows, Some(Live(rows, before)[n - 1].id)) == Live(rows, before)[n..]
  }

  lemma MovesWithHead(head: Row, rest: seq<Row>, before: Option<int>, n: nat)
    requires Descending([head] + rest) && 0 < n <= |Live([head] + rest, before)|
    requires Moves(rest, before, if Wanted(head, before) then n - 1 else n)
    ensures Moves([head] + rest, before, n)
  {
    LiveOne(head, rest, before);
    if !Wanted(head, before) {
      var r := Live(rest, before)[n - 1];
      assert r in Live(rest, before);
      CursorInRest(head, rest, before, r);
    } else {
      MovesPastWanted(head, rest, before, n);
    }
  }

  lemma MovesPastWanted(head: Row, rest: seq<Row>, before: Option<int>, n: nat)
    requires Descending([head] + rest) && Wanted(head, before) && 1 <= n <= |Live(rest, before)| + 1
    requires Moves(rest, before, n - 1)
    ensures Moves([head] + rest, before, n)
  {
    var older := Live(rest, before);
    LiveOne(head, rest, before);
    AfterHead(head, older, n);
    if n == 1 {
      CursorOnHead(head, rest, before);
    } else {
      var r := older[n - 2];
      assert r in older;
      CursorInRest(head, rest, before, r);
    }
  }

  /** Moving the cursor to the n-th wanted row leaves exactly the wanted rows after it. */
  lemma {:induction false} NextCursor(rows: seq<Row>, before: Option<int>, n: nat)
    requires Descending(rows)
    ensures Moves(rows, before, n)
    decreases rows
  {
    if 0 < n <= |Live(rows, before)| {
      var head, rest := rows[0], rows[1..];
      assert rows == [head] + rest;
      RestIsOlder(head, rest);
      NextCursor(rest, before, if Wanted(head, before) then n - 1 else n);
      MovesWithHead(head, rest, before, n);
    }
  }

  lemma {:induction false} OnNoPage(parts: seq<seq<Row>>, limit: nat, before: Option<int>, pages: seq<seq<Row>>,
                                    i: nat, k: nat)
    requires Descending(Flatten(parts)) && i < |parts| && 3 * limit <= k < |parts[i]|
    requires PagesBack(parts, limit, before, pages)
    ensures parts[i][k] !in Flatten(pages)
    decreases pages
  {
    if pages != [] {
      DeepRowIsUnreachable(parts, limit, before, i, k);
      OnNoPage(parts, limit, Some(pages[0][|pages[0]| - 1].id), pages[1..], i, k);
    }
  }

  /** Paging back ends: every page is older than the one before. */
  lemma PagingEnds(parts: seq<seq<Row>>, limit: nat, before: Option<int>) returns (pages: seq<seq<Row>>)
    requires Descending(Flatten(parts))
    ensures PagesBack(parts, limit, before, pages)
    decreases |Live(Flatten(parts), before)|
  {
    var page := HistoryPage(parts, limit, before);
    if page == [] {
      return [];
    }
    var last := page[|page| - 1];
    PageRowIsWanted(parts, limit, before, last);
    CursorMovesDown(Flatten(parts), before, last);
    var rest := PagingEnds(parts, limit, Some(last.id));
    pages := [page] + rest;
    assert pages[1..] == rest;
  }

  lemma GatheredRowIsWanted(parts: seq<seq<Row>>, limit: nat, before: Option<int>, i: nat)
    requires Descending(Flatten(parts)) && i < |Collected(parts, limit, before, [])|
    ensures Wanted(Collected(parts, limit, before, [])[i], before)
    ensures Collected(parts, limit, before, [])[i] in Flatten(parts)
  {
    var none: seq<Row> := [];
    assert none + Flatten(parts) == Flatten(parts);
    CollectedInOrder(parts, limit, before, none);
  }

  lemma PageRowIsWanted(parts: seq<seq<Row>>, limit: nat, before: Option<int>, r: Row)
    requires Descending(Flatten(parts)) && r in HistoryPage(parts, limit, before)
    ensures r in Live(Flatten(parts), before)
  {
    var page := HistoryPage(parts, limit, before);
    var i :| 0 <= i < |page| && page[i] == r;
    GatheredRowIsWanted(parts, limit, before, i);
    LiveMembers(Flatten(parts), before);
  }

  lemma CursorMovesDown(rows: seq<Row>, before: Option<int>, r: Row)
    requires Descending(rows) && r in Live(rows, before)
    ensures |Live(rows, Some(r.id))| < |Live(rows, before)|
  {
    var k :| 0 <= k < |Live(rows, before)| && Live(rows, before)[k] == r;
    NextCursor(rows, before, k + 1);
  }

  ghost predicate AllShort(parts: seq<seq<Row>>, limit: nat) {
    forall i {:trigger parts[i]} :: 0 <= i < |parts| ==> |parts[i]| <= 3 * limit
  }

  lemma PagesReachAllIff(parts: seq<seq<Row>>, limit: nat, pages: seq<seq<Row>>)
    requires Descending(Flatten(parts)) && NothingDeleted(Flatten(parts)) && 1 <= limit <= 100
    requires PagesBack(parts, limit, None, pages)
    ensures Flatten(pages) == Flatten(parts) <==> AllShort(parts, limit)
  {
    if i :| 0 <= i < |parts| && |parts[i]| > 3 * limit {
      OnNoPage(parts, limit, None, pages, i, 3 * limit);
      InFlatten(parts, i);
    } else {
      IdealPagesCover(parts, limit, None, pages);
      NothingToDrop(Flatten(parts));
    }
  }

  /**
   * Without deleted rows, a reader that pages back to the end has seen every row of the ten
   * newest buckets once and in order, if and only if none of these buckets holds more than
   * 3·limit rows.
   */
  lemma PagingBackReachesAllIff(ch: Channel, limit: nat, pages: seq<seq<Row>>)
    requires Valid(ch) && 1 <= limit <= 100
    requires NothingDeleted(Flatten(Partitions(ch, SelectBuckets(ch, HISTORY_BUCKETS))))
    requires PagesBack(Partitions(ch, SelectBuckets(ch, HISTORY_BUCKETS)), limit, None, pages)
    ensures var parts := Partitions(ch, SelectBuckets(ch, HISTORY_BUCKETS));
            Flatten(pages) == Flatten(parts) <==> AllShort(parts, limit)
  {
    BucketOrderIsRowOrder(ch, SelectBuckets(ch, HISTORY_BUCKETS));
    PagesReachAllIff(Partitions(ch, SelectBuckets(ch, HISTORY_BUCKETS)), limit, pages);
  }

  // ── With deleted rows ──

  /** None of these buckets yields a wanted row to a page that still misses `missing`. */
  predicate NothingMore(parts: seq<seq<Row>>, missing: nat, before: Option<int>)
    decreases |parts|
  {
    parts == [] ||
    (Live(Taken(parts[0], Need(missing, before)), before) == [] && NothingMore(parts[1..], missing, before))
  }

  /**
   * A page keeps its place: where a bucket's fetch stops short of live rows, the page ends
   * with what it has, which is not nothing. `some` tells whether rows were gathered before.
   */
  predicate KeepsPlace(parts: seq<seq<Row>>, missing: nat, before: Option<int>, some: bool)
    decreases |parts|
  {
    parts == [] || missing == 0 ||
    var got := Live(Taken(parts[0], Need(missing, before)), before);
    if Skips(parts[0], missing, before) then
      (some || |got| > 0) && NothingMore(parts[1..], missing - |got|, before)
    else KeepsPlace(parts[1..], StillMissing(parts[0], missing, before), before, some || |got| > 0)
  }

  lemma {:induction false} NothingMoreIff(parts: seq<seq<Row>>, limit: nat, before: Option<int>, found: seq<Row>)
    requires |found| < limit
    ensures found <= Collected(parts, limit, before, found)
    ensures Collected(parts, limit, before, found) == found <==> NothingMore(parts, limit - |found|, before)
    decreases |parts|
  {
    if parts != [] {
      var got := Live(Taken(parts[0], Need(limit - |found|, before)), before);
      CollectedGrows(parts[1..], limit, before, found + got);
      if got == [] {
        assert found + got == found;
        NothingMoreIff(parts[1..], limit, before, found);
      }
    }
  }

  lemma {:induction false} CollectedGrows(parts: seq<seq<Row>>, limit: nat, before: Option<int>, found: seq<Row>)
    ensures found <= Collected(parts, limit, before, found)
    decreases |parts|
  {
    if parts != [] && |found| < limit {
      var got := Live(Taken(parts[0], Need(limit - |found|, before)), before);
      CollectedGrows(parts[1..], limit, before, found + got);
    }
  }

  /** The page is the next stretch of the wanted rows, and is empty only if there are none. */
  ghost predicate NextStretch(page: seq<Row>, wanted: seq<Row>) {
    page <= wanted && (page == [] ==> wanted == [])
  }

  /** A bucket that is cut short leaves a wanted row right after what was gathered. */
  lemma NextWantedIsLeft(parts: seq<seq<Row>>, limit: nat, before: Option<int>, found: seq<Row>)
    requires parts != [] && |found| < limit && Skips(parts[0], limit - |found|, before)
    ensures var n := Need(limit - |found|, before);
            var more, left := found + Live(Taken(parts[0], n), before), Live(Dropped(parts[0], n), before);
            var wanted := found + Live(Flatten(parts), before);
            && |more| < limit && |more| < |wanted| && more <= wanted
            && left != [] && wanted[|more|] == left[0] && left[0] in parts[0]
  {
    var n := Need(limit - |found|, before);
    var got, left := Live(Taken(parts[0], n), before), Live(Dropped(parts[0], n), before);
    LiveOfParts(parts, n, before);
    FourPieces(found, got, left, Live(Flatten(parts[1..]), before));
    FirstIsMember(parts[0], n, before);
  }

  lemma FourPieces(a: seq<Row>, b: seq<Row>, c: seq<Row>, d: seq<Row>)
    ensures a + (b + c + d) == (a + b) + (c + d) && a + b <= a + (b + c + d)
    ensures c != [] ==> |a + b| < |a + (b + c + d)| && (a + (b + c + d))[|a + b|] == c[0]
  {
    assert a + (b + c + d) == (a + b) + (c + d);
  }

  lemma FirstIsMember(rows: seq<Row>, n: nat, before: Option<int>)
    requires Live(Dropped(rows, n), before) != []
    ensures Live(Dropped(rows, n), before)[0] in rows
  {
    var left := Live(Dropped(rows, n), before);
    LiveMembers(Dropped(rows, n), before);
    assert left[0] in left;
    Halves(rows, n);
  }

  /** Going on to older buckets after such a cut passes that row over. */
  lemma PassedOver(parts: seq<seq<Row>>, limit: nat, before: Option<int>, found: seq<Row>)
    requires Descending(found + Flatten(parts)) && parts != []
    requires |found| < limit && Skips(parts[0], limit - |found|, before)
    requires var more := found + Live(Taken(parts[0], Need(limit - |found|, before)), before);
             |more| < |Collected(parts[1..], limit, before, more)|
    ensures !(Taken(Collected(parts, limit, before, found), limit) <= found + Live(Flatten(parts), before))
  {
    var n := Need(limit - |found|, before);
    var more, left := found + Live(Taken(parts[0], n), before), Live(Dropped(parts[0], n), before);
    NextWantedIsLeft(parts, limit, before, found);
    NextGatheredIsOlder(parts, limit, before, found, n, left[0]);
    NotAPrefix(Taken(Collected(parts, limit, before, found), limit), found + Live(Flatten(parts), before), |more|);
  }

  /** At a bucket that is cut short. */
  lemma CutShort(parts: seq<seq<Row>>, limit: nat, before: Option<int>, found: seq<Row>)
    requires Descending(found + Flatten(parts)) && parts != []
    requires |found| < limit && Skips(parts[0], limit - |found|, before)
    ensures var more := found + Live(Taken(parts[0], Need(limit - |found|, before)), before);
            NextStretch(Taken(Collected(parts, limit, before, found), limit), found + Live(Flatten(parts), before))
            <==> |more| > 0 && NothingMore(parts[1..], limit - |more|, before)
  {
    var more := found + Live(Taken(parts[0], Need(limit - |found|, before)), before);
    NextWantedIsLeft(parts, limit, before, found);
    NothingMoreIff(parts[1..], limit, before, more);
    if Collected(parts[1..], limit, before, more) != more {
      PassedOver(parts, limit, before, found);
    }
  }

  lemma NotAPrefix(page: seq<Row>, wanted: seq<Row>, k: nat)
    requires k < |page| && (k < |wanted| ==> page[k] != wanted[k])
    ensures !(page <= wanted)
  {
  }

  function Lacking(limit: nat, found: seq<Row>): nat {
    if |found| < limit then limit - |found| else 0
  }

  lemma KeepsPlaceStep(parts: seq<seq<Row>>, limit: nat, before: Option<int>, found: seq<Row>)
    requires parts != [] && |found| < limit
    ensures var more := found + Live(Taken(parts[0], Need(limit - |found|, before)), before);
            KeepsPlace(parts, Lacking(limit, found), before, |found| > 0)
            <==> if Skips(parts[0], limit - |found|, before)
                 then |more| > 0 && NothingMore(parts[1..], limit - |more|, before)
                 else KeepsPlace(parts[1..], Lacking(limit, more), before, |more| > 0)
  {
    var got := Live(Taken(parts[0], Need(limit - |found|, before)), before);
    assert |found + got| == |found| + |got|;
  }

  lemma {:induction false} StretchIff(parts: seq<seq<Row>>, limit: nat, before: Option<int>, found: seq<Row>)
    requires Descending(found + Flatten(parts)) && limit >= 1
    ensures NextStretch(Taken(Collected(parts, limit, before, found), limit), found + Live(Flatten(parts), before))
       <==> KeepsPlace(parts, Lacking(limit, found), before, |found| > 0)
    decreases |parts|
  {
    if parts == [] {
      assert found + Live(Flatten(parts), before) == found;
    } else if |found| < limit {
      KeepsPlaceStep(parts, limit, before, found);
      if Skips(parts[0], limit - |found|, before) {
        CutShort(parts, limit, before, found);
      } else {
        var n := Need(limit - |found|, before);
        FilterMiddle(found, parts[0], n, Flatten(parts[1..]), before, false);
        StretchIff(parts[1..], limit, before, found + Live(Taken(parts[0], n), before));
        HarmlessStretch(parts, limit, before, found);
      }
    } else {
      FullPage(parts, limit, before, found, Live(Flatten(parts), before), []);
    }
  }

  /** A bucket that is not cut short does not decide. */
  lemma HarmlessStretch(parts: seq<seq<Row>>, limit: nat, before: Option<int>, found: seq<Row>)
    requires parts != [] && |found| < limit && !Skips(parts[0], limit - |found|, before)
    ensures var more := found + Live(Taken(parts[0], Need(limit - |found|, before)), before);
            var page := Taken(Collected(parts, limit, before, found), limit);
            NextStretch(page, found + Live(Flatten(parts), before))
            <==> NextStretch(page, more + Live(Flatten(parts[1..]), before))
  {
    var n := Need(limit - |found|, before);
    var got, left := Live(Taken(parts[0], n), before), Live(Dropped(parts[0], n), before);
    var more, older := found + got, Live(Flatten(parts[1..]), before);
    LiveOfParts(parts, n, before);
    FourPieces(found, got, left, older);
    if left == [] {
      assert left + older == older;
    } else {
      FullPage(parts[1..], limit, before, more, left + older, older);
    }
  }

  /** A full page is found already, whatever comes after. */
  lemma FullPage(parts: seq<seq<Row>>, limit: nat, before: Option<int>, found: seq<Row>, a: seq<Row>, b: seq<Row>)
    requires 0 < limit <= |found|
    ensures var page := Taken(Collected(parts, limit, before, found), limit);
            NextStretch(page, found + a) && NextStretch(page, found + b)
  {
    assert Collected(parts, limit, before, found) == found;
  }

  /** Every page of the reader keeps its place, the last, empty one included. */
  predicate AllKeepPlace(parts: seq<seq<Row>>, limit: nat, before: Option<int>, pages: seq<seq<Row>>)
    requires PagesBack(parts, limit, before, pages)
    decreases pages
  {
    && KeepsPlace(parts, limit, before, false)
    && (pages == [] || AllKeepPlace(parts, limit, Some(pages[0][|pages[0]| - 1].id), pages[1..]))
  }

  lemma PageStretchIff(parts: seq<seq<Row>>, limit: nat, before: Option<int>)
    requires Descending(Flatten(parts)) && limit >= 1
    ensures NextStretch(HistoryPage(parts, limit, before), Live(Flatten(parts), before))
       <==> KeepsPlace(parts, limit, before, false)
  {
    NoneInOrder([], Flatten(parts));
    StretchFromNone(parts, limit, before, []);
  }

  lemma NoneBefore(none: seq<Row>, rows: seq<Row>)
    requires |none| == 0
    ensures none + rows == rows
  {
  }

  lemma NoneInOrder(none: seq<Row>, rows: seq<Row>)
    requires |none| == 0 && Descending(rows)
    ensures Descending(none + rows)
  {
    NoneBefore(none, rows);
  }

  lemma StretchFromNone(parts: seq<seq<Row>>, limit: nat, before: Option<int>, none: seq<Row>)
    requires |none| == 0 && Descending(none + Flatten(parts)) && limit >= 1
    ensures NextStretch(Taken(Collected(parts, limit, before, none), limit), Live(Flatten(parts), before))
       <==> KeepsPlace(parts, limit, before, false)
  {
    StretchIff(parts, limit, before, none);
    NoneBefore(none, Live(Flatten(parts), before));
  }

  /** A page that is the next stretch leaves the rest of the wanted rows to the next pages. */
  lemma StretchThenRest(rows: seq<Row>, before: Option<int>, page: seq<Row>)
    requires Descending(rows) && page != [] && page <= Live(rows, before)
    ensures Live(rows, before) == page + Live(rows, Some(page[|page| - 1].id))
  {
    var live := Live(rows, before);
    NextCursor(rows, before, |page|);
    assert live == page + live[|page|..];
  }

  lemma SameAfter(page: seq<Row>, a: seq<Row>, b: seq<Row>)
    ensures page + a == page + b <==> a == b
  {
    assert (page + a)[|page|..] == a && (page + b)[|page|..] == b;
  }

  lemma StartsWith(page: seq<Row>, a: seq<Row>)
    ensures page <= page + a
  {
  }

  /** A page followed by `seen` covers the wanted rows if it is a stretch of them and `seen` covers the rest. */
  lemma CoverStep(rows: seq<Row>, before: Option<int>, page: seq<Row>, seen: seq<Row>)
    requires Descending(rows) && page != []
    ensures page + seen == Live(rows, before)
       <==> page <= Live(rows, before) && seen == Live(rows, Some(page[|page| - 1].id))
  {
    StartsWith(page, seen);
    if page <= Live(rows, before) {
      StretchThenRest(rows, before, page);
      SameAfter(page, seen, Live(rows, Some(page[|page| - 1].id)));
    }
  }

  lemma {:induction false} PagesCoverIff(parts: seq<seq<Row>>, limit: nat, before: Option<int>, pages: seq<seq<Row>>)
    requires Descending(Flatten(parts)) && limit >= 1 && PagesBack(parts, limit, before, pages)
    ensures Flatten(pages) == Live(Flatten(parts), before) <==> AllKeepPlace(parts, limit, before, pages)
    decreases pages
  {
    PageStretchIff(parts, limit, before);
    if pages != [] {
      CoverStep(Flatten(parts), before, pages[0], Flatten(pages[1..]));
      PagesCoverIff(parts, limit, Some(pages[0][|pages[0]| - 1].id), pages[1..]);
    }
  }

  /**
   * Deleted rows included: a reader that pages back to the end has seen every live row of
   * the ten newest buckets once and in order, if and only if every page keeps its place.
   */
  lemma PagingBackReachesLiveIff(ch: Channel, limit: nat, pages: seq<seq<Row>>)
    requires Valid(ch) && limit >= 1
    requires PagesBack(Partitions(ch, SelectBuckets(ch, HISTORY_BUCKETS)), limit, None, pages)
    ensures var parts := Partitions(ch, SelectBuckets(ch, HISTORY_BUCKETS));
            Flatten(pages) == Live(Flatten(parts), None) <==> AllKeepPlace(parts, limit, None, pages)
  {
    BucketOrderIsRowOrder(ch, SelectBuckets(ch, HISTORY_BUCKETS));
    PagesCoverIff(Partitions(ch, SelectBuckets(ch, HISTORY_BUCKETS)), limit, None, pages);
  }
}
