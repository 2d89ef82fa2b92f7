/**
 * Catch-up after being offline, deleted rows included (services/chat/src/data_service.rs
 * `read_since`): which rows it passes over, and when it still returns the latest ones.
 */
module CatchUp {
  import opened Prelude
  import opened ChannelReads

  /**
   * The live rows that are not fetched: those beyond the first 301 of their bucket, and all
   * of the buckets that come after more than 300 rows (`already`) have been gathered.
   */
  function Lost(parts: seq<seq<Row>>, already: nat): seq<Row>
    decreases |parts|
  {
    if parts == [] then []
    else if already > SYNC_LIMIT then Undeleted(Flatten(parts))
    else
      Undeleted(Dropped(parts[0], SYNC_LIMIT + 1))
      + Lost(parts[1..], already + |Undeleted(Taken(parts[0], SYNC_LIMIT + 1))|)
  }

  /** Every live row is either gathered or lost. */
  lemma {:induction false} CaughtOrLost(parts: seq<seq<Row>>, found: seq<Row>, r: Row)
    ensures r in found || r in Undeleted(Flatten(parts)) <==> r in Caught(parts, found) || r in Lost(parts, |found|)
    decreases |parts|
  {
    if parts != [] && |found| <= SYNC_LIMIT {
      var got, left := Undeleted(Taken(parts[0], SYNC_LIMIT + 1)), Undeleted(Dropped(parts[0], SYNC_LIMIT + 1));
      LiveOfParts(parts, SYNC_LIMIT + 1, None);
      CaughtOrLost(parts[1..], found + got, r);
      InPieces(got, left, Undeleted(Flatten(parts[1..])), r);
      InPieces(found, got, [], r);
      InPieces(left, Lost(parts[1..], |found + got|), [], r);
      assert Lost(parts, |found|) == left + Lost(parts[1..], |found + got|);
    }
  }

  lemma InPieces(a: seq<Row>, b: seq<Row>, c: seq<Row>, r: Row)
    ensures r in a + b + c <==> r in a || r in b || r in c
    ensures r in a + b <==> r in a || r in b
  {
  }

  /** Nothing is both. */
  lemma {:induction false} CaughtNotLost(parts: seq<seq<Row>>, found: seq<Row>, r: Row)
    requires Sorted(found + Flatten(parts), true) && r in Lost(parts, |found|)
    ensures r !in Caught(parts, found)
    decreases |parts|
  {
    if |found| > SYNC_LIMIT {
      LostIsMissed(parts, |found|, r);
      ApartInOrder(found, Flatten(parts), r);
    } else {
      var n := SYNC_LIMIT + 1;
      var more := found + Undeleted(Taken(parts[0], n));
      FilterMiddle(found, parts[0], n, Flatten(parts[1..]), None, true);
      if r in Undeleted(Dropped(parts[0], n)) {
        LeftBehind(parts, found, r);
      } else {
        CaughtNotLost(parts[1..], more, r);
      }
    }
  }

  lemma ApartInOrder(a: seq<Row>, b: seq<Row>, r: Row)
    requires Sorted(a + b, true) && r in b
    ensures r !in a
  {
    SplitSorted(a, b, true);
  }

  lemma {:induction false} LostIsMissed(parts: seq<seq<Row>>, already: nat, r: Row)
    requires r in Lost(parts, already)
    ensures r in Flatten(parts) && !r.deleted
    decreases |parts|
  {
    if already > SYNC_LIMIT {
      LiveMembers(Flatten(parts), None);
    } else {
      LiveMembers(Dropped(parts[0], SYNC_LIMIT + 1), None);
      if r !in Undeleted(Dropped(parts[0], SYNC_LIMIT + 1)) {
        LostIsMissed(parts[1..], already + |Undeleted(Taken(parts[0], SYNC_LIMIT + 1))|, r);
      }
    }
  }

  lemma Between(found: seq<Row>, taken: seq<Row>, dropped: seq<Row>, rest: seq<Row>, r: Row)
    requires Sorted(found + (taken + dropped + rest), true) && r in dropped
    ensures r !in found && r !in taken && r !in rest
  {
    SplitSorted(found, taken + dropped + rest, true);
    SplitSorted(taken + dropped, rest, true);
    SplitSorted(taken, dropped, true);
  }

  /** A live row beyond the fetch of its bucket is not gathered, there or later. */
  lemma LeftBehind(parts: seq<seq<Row>>, found: seq<Row>, r: Row)
    requires Sorted(found + Flatten(parts), true) && parts != [] && |found| <= SYNC_LIMIT
    requires r in Undeleted(Dropped(parts[0], SYNC_LIMIT + 1))
    ensures r !in Caught(parts, found)
  {
    var n := SYNC_LIMIT + 1;
    var taken, dropped := Taken(parts[0], n), Dropped(parts[0], n);
    LiveMembers(dropped, None);
    LiveMembers(taken, None);
    assert taken + dropped == parts[0];
    Between(found, taken, dropped, Flatten(parts[1..]), r);
    if r in Caught(parts[1..], found + Undeleted(taken)) {
      CaughtFrom(parts[1..], found + Undeleted(taken), r);
    }
  }

  lemma {:induction false} CaughtFrom(parts: seq<seq<Row>>, found: seq<Row>, r: Row)
    requires r in Caught(parts, found)
    ensures r in found || r in Flatten(parts)
    decreases |parts|
  {
    if parts != [] && |found| <= SYNC_LIMIT {
      LiveMembers(Taken(parts[0], SYNC_LIMIT + 1), None);
      CaughtFrom(parts[1..], found + Undeleted(Taken(parts[0], SYNC_LIMIT + 1)), r);
    }
  }

  /** All of `a` is in `b`, and the last n rows of `b` are in `a`. */
  ghost predicate HasTail(a: seq<Row>, b: seq<Row>, n: nat) {
    && Sorted(a, true) && Sorted(b, true) && n <= |a| && n <= |b|
    && (forall r :: r in a ==> r in b)
    && (forall i {:trigger b[i]} :: |b| - n <= i < |b| ==> b[i] in a)
  }

  function Front(rows: seq<Row>): seq<Row>
    requires rows != []
  {
    rows[..|rows| - 1]
  }

  lemma FrontHasTail(a: seq<Row>, b: seq<Row>, n: nat)
    requires n > 0 && HasTail(a, b, n)
    ensures a[|a| - 1] == b[|b| - 1] && HasTail(Front(a), Front(b), n - 1)
  {
    SameLast(a, b);
    var a', b' := Front(a), Front(b);
    forall i {:trigger b'[i]} | |b'| - (n - 1) <= i < |b'| ensures b'[i] in a' {
      assert b'[i] == b[i] && b[i].id < b[|b| - 1].id;
    }
    forall r | r in a' ensures r in b' {
      var k :| 0 <= k < |a'| && a'[k] == r;
      assert a[k] in b && a[k].id < a[|a| - 1].id;
    }
  }

  /** A sorted part of a sorted list that has its last n rows ends with them. */
  lemma {:induction false} SameTail(a: seq<Row>, b: seq<Row>, n: nat)
    requires HasTail(a, b, n)
    ensures a[|a| - n..] == b[|b| - n..]
    decreases n
  {
    if n > 0 {
      FrontHasTail(a, b, n);
      SameTail(Front(a), Front(b), n - 1);
      LastOf(a, n);
      LastOf(b, n);
    }
  }

  lemma LastOf(rows: seq<Row>, n: nat)
    requires 0 < n <= |rows|
    ensures rows[|rows| - n..] == Front(rows)[|Front(rows)| - (n - 1)..] + [rows[|rows| - 1]]
  {
  }

  lemma SameLast(a: seq<Row>, b: seq<Row>)
    requires Sorted(a, true) && Sorted(b, true) && a != [] && b != []
    requires (forall r :: r in a ==> r in b) && b[|b| - 1] in a
    ensures a[|a| - 1] == b[|b| - 1]
  {
    assert a[|a| - 1] in a;
    var i :| 0 <= i < |a| && a[i] == b[|b| - 1];
    var j :| 0 <= j < |b| && b[j] == a[|a| - 1];
  }

  /** No lost row is among the latest 50 live ones that were missed. */
  ghost predicate LatestNotLost(parts: seq<seq<Row>>) {
    var missed := Undeleted(Flatten(parts));
    forall i {:trigger missed[i]} :: |missed| - SYNC_LIMITED_RETURN <= i < |missed| && 0 <= i ==>
      missed[i] !in Lost(parts, 0)
  }

  lemma LatestFifty(parts: seq<seq<Row>>)
    requires Sorted(Flatten(parts), true) && |Caught(parts, [])| > SYNC_LIMIT
    ensures FiftyUpTo(Undeleted(Flatten(parts)), SyncReply(Caught(parts, [])).0, |Undeleted(Flatten(parts))|)
       <==> LatestNotLost(parts)
  {
    var missed, caught := Undeleted(Flatten(parts)), Caught(parts, []);
    CaughtIsPart(parts);
    forall r ensures r in missed <==> r in caught || r in Lost(parts, 0) {
      CaughtOrLost(parts, [], r);
    }
    if LatestNotLost(parts) {
      SameTail(caught, missed, SYNC_LIMITED_RETURN);
    } else {
      var i :| |missed| - SYNC_LIMITED_RETURN <= i < |missed| && 0 <= i && missed[i] in Lost(parts, 0);
      LostNotCaught(parts, missed[i]);
      LastDiffer(caught, missed, i);
    }
  }

  lemma CaughtIsPart(parts: seq<seq<Row>>)
    requires Sorted(Flatten(parts), true)
    ensures Sorted(Caught(parts, []), true) && Sorted(Undeleted(Flatten(parts)), true)
    ensures |Caught(parts, [])| <= |Undeleted(Flatten(parts))|
  {
    var none: seq<Row> := [];
    assert none + Flatten(parts) == Flatten(parts);
    CaughtInOrder(parts, none);
    LiveKeepsOrder(Flatten(parts), None, true);
    CaughtAtMost(parts, none);
  }

  lemma {:induction false} CaughtAtMost(parts: seq<seq<Row>>, found: seq<Row>)
    ensures |Caught(parts, found)| <= |found| + |Undeleted(Flatten(parts))|
    decreases |parts|
  {
    if parts != [] && |found| <= SYNC_LIMIT {
      LiveOfParts(parts, SYNC_LIMIT + 1, None);
      CaughtAtMost(parts[1..], found + Undeleted(Taken(parts[0], SYNC_LIMIT + 1)));
    }
  }

  lemma LostNotCaught(parts: seq<seq<Row>>, r: Row)
    requires Sorted(Flatten(parts), true) && r in Lost(parts, 0)
    ensures r !in Caught(parts, [])
  {
    var none: seq<Row> := [];
    assert none + Flatten(parts) == Flatten(parts);
    CaughtNotLost(parts, none, r);
  }

  lemma LastDiffer(caught: seq<Row>, missed: seq<Row>, i: nat)
    requires |caught| > SYNC_LIMIT && SYNC_LIMITED_RETURN <= |missed|
    requires |missed| - SYNC_LIMITED_RETURN <= i < |missed| && missed[i] !in caught
    ensures !FiftyUpTo(missed, SyncReply(caught).0, |missed|)
  {
    var start := |missed| - SYNC_LIMITED_RETURN;
    var messages := SyncReply(caught).0;
    assert messages[i - start] in caught;
    assert missed[start..|missed|][i - start] == missed[i];
  }

  /**
   * Deleted rows included: a limited catch-up returns the latest 50 live rows that were
   * missed, if and only if none of these is beyond row 301 of its bucket or in a bucket
   * reached with more than 300 rows gathered.
   */
  lemma LimitedSyncIsLatestIff(ch: Channel, after: int)
    requires Valid(ch) && SyncReply(Caught(SyncParts(ch, after), [])).1
    ensures var missed := Undeleted(Flatten(SyncParts(ch, after)));
            FiftyUpTo(missed, SyncReply(Caught(SyncParts(ch, after), [])).0, |missed|)
            <==> LatestNotLost(SyncParts(ch, after))
  {
    SyncPartsInOrder(ch, after);
    LatestFifty(SyncParts(ch, after));
  }
}
