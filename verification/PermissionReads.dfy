/**
 * One uncached permission check (services/chat/src/access.rs `check_uncached`). It asks
 * several tables in separate queries, and permissions may be edited between them.
 */
module PermissionReads {
  import opened Prelude

  /** A channel is missing, a direct-message channel, or one under the group permissions. */
  datatype Kind = Missing | Direct | Grouped

  /** What the tables say about one user, channel and action. */
  datatype Tables = Tables(kind: Kind, participant: bool, admin: bool, granted: bool)

  /** The decision on one consistent state of the tables. */
  predicate Decision(t: Tables) {
    match t.kind
    case Missing => false
    case Direct => t.participant
    case Grouped => t.admin || t.granted
  }

  /**
   * The queries see the states of the tables at these positions: the channel's kind, then
   * the participants or the user's groups, then the grants.
   */
  datatype Reads = Reads(kindAt: nat, memberAt: nat, grantsAt: nat)

  predicate InOrder(history: seq<Tables>, r: Reads) {
    r.kindAt <= r.memberAt <= r.grantsAt < |history|
  }

  function Answer(history: seq<Tables>, r: Reads): bool
    requires InOrder(history, r)
  {
    match history[r.kindAt].kind
    case Missing => false
    case Direct => history[r.memberAt].participant
    case Grouped => history[r.memberAt].admin || history[r.grantsAt].granted
  }

  /** Positions of the queries made so far, at most three. */
  predicate Positions(history: seq<Tables>, at: seq<nat>) {
    && |at| <= 3
    && (|at| >= 1 ==> at[0] < |history|)
    && (|at| >= 2 ==> at[0] <= at[1] < |history|)
    && (|at| == 3 ==> at[1] <= at[2] < |history|)
  }

  /** These queries settle the answer. */
  predicate Complete(history: seq<Tables>, at: seq<nat>)
    requires Positions(history, at)
  {
    && |at| >= 1
    && (history[at[0]].kind == Missing ||
        (|at| >= 2 && (history[at[0]].kind == Direct || history[at[1]].admin || |at| == 3)))
  }

  /** A query that is not made counts as made with the last one. */
  function ReadsOf(at: seq<nat>): Reads
    requires 1 <= |at| <= 3
  {
    Reads(at[0], if |at| >= 2 then at[1] else at[0], at[|at| - 1])
  }

  /** The answer is the decision on some state in force while the queries ran. */
  ghost predicate Current(history: seq<Tables>, r: Reads)
    requires InOrder(history, r)
  {
    exists i :: r.kindAt <= i <= r.grantsAt && Decision(history[i]) == Answer(history, r)
  }

  /** Channels do not change their kind: they are created once and not deleted meanwhile. */
  ghost predicate SameKind(history: seq<Tables>) {
    forall i :: 0 <= i < |history| ==> history[i].kind == history[0].kind
  }

  /**
   * The queries one after another, query j at position at[j] and failing if `fails(j)`. A
   * query is made only if the ones before it leave the answer open; the first failure ends
   * the check. What is answered is what the tables said when they were asked, and a grant
   * was in force at some moment of the check.
   */
  method CheckUncached(history: seq<Tables>, at: seq<nat>, fails: nat -> bool)
    returns (allowed: Option<bool>, made: nat)
    requires Positions(history, at) && |at| == 3
    ensures 1 <= made <= 3
    ensures forall j :: 0 <= j < made ==> !Complete(history, at[..j])
    ensures forall j :: 0 <= j < made - 1 ==> !fails(j)
    ensures allowed == None <==> fails(made - 1)
    ensures allowed.Some? ==>
              && Complete(history, at[..made]) && InOrder(history, ReadsOf(at[..made]))
              && allowed.value == Answer(history, ReadsOf(at[..made]))
    ensures allowed.Some? ==>
              match history[at[0]].kind
              case Missing => allowed == Some(false) && made == 1
              case Direct => allowed == Some(history[at[1]].participant) && made == 2
              case Grouped =>
                if history[at[1]].admin then allowed == Some(true) && made == 2
                else allowed == Some(history[at[2]].granted) && made == 3
    ensures SameKind(history) && allowed == Some(true) ==>
              exists i :: at[0] <= i <= at[made - 1] && Decision(history[i])
  {
    if fails(0) {
      return None, 1;
    }
    var kind := history[at[0]].kind;
    if kind == Missing {
      return Some(false), 1;
    }
    if fails(1) {
      return None, 2;
    }
    if kind == Direct {
      assert history[at[1]].participant ==> SameKind(history) ==> Decision(history[at[1]]);
      return Some(history[at[1]].participant), 2;
    }
    if history[at[1]].admin {
      assert SameKind(history) ==> Decision(history[at[1]]);
      return Some(true), 2;
    }
    if fails(2) {
      return None, 3;
    }
    assert history[at[2]].granted ==> SameKind(history) ==> Decision(history[at[2]]);
    assert at[..3] == at;
    return Some(history[at[2]].granted), 3;
  }

  /**
   * Who is allowed: the participants of a direct channel; elsewhere admins and those with a
   * grant; and nobody without a channel.
   */
  lemma WhoIsAllowed(participant: bool, admin: bool, granted: bool)
    ensures !Decision(Tables(Missing, participant, admin, granted))
    ensures Decision(Tables(Direct, participant, admin, granted)) == participant
    ensures Decision(Tables(Grouped, participant, admin, granted)) == (admin || granted)
  {
  }

  /** With nothing edited meanwhile the answer is the decision. */
  lemma UndisturbedIsExact(history: seq<Tables>, r: Reads)
    requires InOrder(history, r) && forall i :: r.kindAt <= i <= r.grantsAt ==> history[i] == history[r.kindAt]
    ensures Answer(history, r) == Decision(history[r.kindAt])
  {
    assert history[r.memberAt] == history[r.kindAt] && history[r.grantsAt] == history[r.kindAt];
  }

  /** Access is only ever granted if it was granted at some moment of the check. */
  lemma GrantsAreCurrent(history: seq<Tables>, r: Reads)
    requires SameKind(history) && InOrder(history, r) && Answer(history, r)
    ensures exists i :: r.kindAt <= i <= r.grantsAt && Decision(history[i])
  {
    var i := if history[r.memberAt].admin || history[0].kind == Direct then r.memberAt else r.grantsAt;
    assert Decision(history[i]);
  }

  /**
   * In a channel under group permissions, the user is no admin in state i and has no grant
   * in state k, and yet is never denied from i to k: made admin before the grant was taken
   * away.
   */
  ghost predicate Promoted(history: seq<Tables>, i: nat, k: nat) {
    && i < k < |history| && history[i].kind == Grouped
    && !history[i].admin && !history[k].granted
    && forall j :: i <= j <= k ==> Decision(history[j])
  }

  /** A denial was in force at some moment of the check, unless the user was promoted during it. */
  lemma DenialsAreCurrent(history: seq<Tables>, r: Reads)
    requires SameKind(history) && InOrder(history, r) && !Answer(history, r)
    ensures Promoted(history, r.memberAt, r.grantsAt) ||
            exists i :: r.kindAt <= i <= r.grantsAt && !Decision(history[i])
  {
    if history[r.kindAt].kind != Grouped || r.memberAt == r.grantsAt {
      assert !Decision(history[r.memberAt]);
    } else if !Promoted(history, r.memberAt, r.grantsAt) {
      var j :| r.memberAt <= j <= r.grantsAt && !Decision(history[j]);
    }
  }

  /**
   * Every check, however its queries are spread over the edits, answers with the decision
   * of some moment of the check, if and only if no admin promotion overlaps the loss of
   * the grant. The only wrong answer there is, is a denial.
   */
  lemma SpreadReadsAreCurrentIff(history: seq<Tables>)
    requires SameKind(history)
    ensures (forall r :: InOrder(history, r) ==> Current(history, r)) <==> forall i, k :: !Promoted(history, i, k)
  {
    if i, k :| Promoted(history, i, k) {
      var r := Reads(i, i, k);
      assert !Answer(history, r);
      assert !Current(history, r);
    } else {
      forall r | InOrder(history, r) ensures Current(history, r) {
        if Answer(history, r) {
          GrantsAreCurrent(history, r);
        } else {
          DenialsAreCurrent(history, r);
        }
      }
    }
  }

  /** Promoting a user and then dropping the grant that is no longer needed denies a check in between. */
  lemma PromotionCanDeny()
    ensures var plain := Tables(Grouped, false, false, true);
            var both, admin := plain.(admin := true), plain.(admin := true, granted := false);
            var history := [plain, both, admin];
            && Decision(plain) && Decision(both) && Decision(admin)
            && Promoted(history, 0, 2) && !Answer(history, Reads(0, 0, 2))
  {
  }
}
