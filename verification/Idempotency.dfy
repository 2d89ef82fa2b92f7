/**
 * Sending a message at most once per client id (services/chat/src/api.rs `send_message`,
 * services/chat/src/read_state.rs `check_idempotency` and `set_idempotency`).
 * Times are seconds; Redis answers every command.
 */
module Idempotency {
  import opened Prelude
  import AclKeys

  const IDEMPOTENCY_TTL: nat := 86_400

  /**
   * A request with the outcomes of the steps that this module does not model: the
   * permission check, the content check, the rate limiter, the database write, and the
   * publication, whose failure is only logged.
   */
  datatype Request = Request(
    user: int,
    clientId: Option<string>,
    at: nat,
    permitted: bool,
    hasContent: bool,
    admitted: bool,
    written: bool,
    delivered: bool
  )

  datatype Response =
    | Forbidden
    | BadRequest
    | RateLimited
    | Duplicate(messageId: nat)
    | Created(messageId: nat)
    | ServerError

  predicate Success(r: Response) {
    r.Duplicate? || r.Created?
  }

  datatype Remembered = Remembered(messageId: nat, expires: nat)

  /** `published` lists the messages announced with MESSAGE_CREATE, with their sender's key. */
  datatype Publication = Publication(key: Option<string>, messageId: nat)

  datatype Server = Server(idem: map<string, Remembered>, nextId: nat, published: seq<Publication>)

  const Fresh := Server(map[], 0, [])

  function Key(user: int, clientId: string): string {
    "idem:" + AclKeys.Printed(user) + ":" + clientId
  }

  function KeyOf(r: Request): Option<string> {
    if r.clientId.Some? then Some(Key(r.user, r.clientId.value)) else None
  }

  lemma KeyTail(user: int, clientId: string)
    ensures |Key(user, clientId)| >= 5 && Key(user, clientId)[5..] == AclKeys.Printed(user) + ":" + clientId
  {
  }

  /** Client ids may contain anything, colons included; users still never share a key. */
  lemma KeysAreInjective(u: int, c: string, u': int, c': string)
    requires Key(u, c) == Key(u', c')
    ensures u == u' && c == c'
  {
    AclKeys.PrintedIsPlain(u);
    AclKeys.PrintedIsPlain(u');
    KeyTail(u, c);
    KeyTail(u', c');
    AclKeys.FieldIsUnique(AclKeys.Printed(u), c, AclKeys.Printed(u'), c');
    AclKeys.PrintedIsInjective(u, u');
  }

  // ── One request ──

  function Lookup(s: Server, r: Request): Option<nat> {
    var key := KeyOf(r);
    if key.Some? && key.value in s.idem && r.at < s.idem[key.value].expires then Some(s.idem[key.value].messageId)
      else None
  }

  /** Write, remember, announce. */
  function Commit(s: Server, r: Request): (Server, Response) {
    if !r.written then (s, ServerError)
    else
      var key := KeyOf(r);
      (Server(if key.Some? then s.idem[key.value := Remembered(s.nextId, r.at + IDEMPOTENCY_TTL)] else s.idem,
              s.nextId + 1,
              s.published + if r.delivered then [Publication(key, s.nextId)] else []),
       Created(s.nextId))
  }

  function Handle(s: Server, r: Request): (Server, Response) {
    if !r.permitted then (s, Forbidden)
    else if !r.hasContent then (s, BadRequest)
    else if !r.admitted then (s, RateLimited)
    else
      var known := Lookup(s, r);
      if known.Some? then (s, Duplicate(known.value)) else Commit(s, r)
  }

  /** The chat server's state, updated request by request. */
  class ChatApi {
    var idem: map<string, Remembered>
    var nextId: nat
    var published: seq<Publication>

    function View(): Server
      reads this
    {
      Server(idem, nextId, published)
    }

    constructor ()
      ensures View() == Fresh
    {
      idem, nextId, published := map[], 0, [];
    }

    method CheckIdempotency(user: int, clientId: string, now: nat) returns (known: Option<nat>)
      ensures var key := Key(user, clientId);
              known == if key in idem && now < idem[key].expires then Some(idem[key].messageId) else None
    {
      var key := Key(user, clientId);
      known := if key in idem && now < idem[key].expires then Some(idem[key].messageId) else None;
    }

    method SetIdempotency(user: int, clientId: string, messageId: nat, now: nat)
      modifies this`idem
      ensures idem == old(idem)[Key(user, clientId) := Remembered(messageId, now + IDEMPOTENCY_TTL)]
    {
      idem := idem[Key(user, clientId) := Remembered(messageId, now + IDEMPOTENCY_TTL)];
    }

    method SendMessage(r: Request) returns (response: Response)
      modifies this
      ensures View() == Handle(old(View()), r).0
      ensures response == Handle(old(View()), r).1
      ensures !r.permitted ==> response == Forbidden && View() == old(View())
      ensures r.permitted && !r.hasContent ==> response == BadRequest && View() == old(View())
      ensures r.permitted && r.hasContent && !r.admitted ==> response == RateLimited && View() == old(View())
      ensures r.permitted && r.hasContent && r.admitted ==>
                var key := if r.clientId.Some? then Some(Key(r.user, r.clientId.value)) else None;
                if key.Some? && key.value in old(idem) && r.at < old(idem)[key.value].expires
                then response == Duplicate(old(idem)[key.value].messageId) && View() == old(View())
                else if !r.written then response == ServerError && View() == old(View())
                else
                  && response == Created(old(nextId)) && nextId == old(nextId) + 1
                  && idem == (if key.None? then old(idem)
                              else old(idem)[key.value := Remembered(old(nextId), r.at + 86_400)])
                  && published == old(published) + if r.delivered then [Publication(key, old(nextId))] else []
    {
      if !r.permitted {
        return Forbidden;
      }
      if !r.hasContent {
        return BadRequest;
      }
      if !r.admitted {
        return RateLimited;
      }
      if r.clientId.Some? {
        var known := CheckIdempotency(r.user, r.clientId.value, r.at);
        if known.Some? {
          return Duplicate(known.value);
        }
      }
      if !r.written {
        return ServerError;
      }
      var messageId := nextId;
      nextId := nextId + 1;
      if r.clientId.Some? {
        SetIdempotency(r.user, r.clientId.value, messageId, r.at);
      }
      if r.delivered {
        published := published + [Publication(KeyOf(r), messageId)];
      }
      return Created(messageId);
    }
  }

  // ── Requests one after another ──

  function ServerAfter(requests: seq<Request>): Server {
    if requests == [] then Fresh
    else Handle(ServerAfter(requests[..|requests| - 1]), requests[|requests| - 1]).0
  }

  function ResponseTo(requests: seq<Request>, i: nat): Response
    requires i < |requests|
  {
    Handle(ServerAfter(requests[..i]), requests[i]).1
  }

  lemma ServerStep(requests: seq<Request>, j: nat)
    requires j < |requests|
    ensures ServerAfter(requests[..j + 1]) == Handle(ServerAfter(requests[..j]), requests[j]).0
  {
    assert requests[..j + 1][..j] == requests[..j];
  }

  function Announced(published: seq<Publication>, key: string): nat {
    if published == [] then 0
    else Announced(published[..|published| - 1], key) + if published[|published| - 1].key == Some(key) then 1 else 0
  }

  lemma AnnounceOneMore(published: seq<Publication>, p: Publication, delivered: bool, key: string)
    ensures Announced(published + (if delivered then [p] else []), key)
         == Announced(published, key) + if delivered && p.key == Some(key) then 1 else 0
  {
    if delivered {
      assert (published + [p])[..|published|] == published;
    } else {
      assert published + [] == published;
    }
  }

  /** `key` stands for message `m`, and `n` messages have been announced under it. */
  ghost predicate Settled(s: Server, key: string, m: Remembered, n: nat) {
    key in s.idem && s.idem[key] == m && Announced(s.published, key) == n
  }

  lemma CreationSettles(s: Server, r: Request)
    requires r.clientId.Some? && Handle(s, r).1.Created?
    ensures var key := KeyOf(r).value;
            Settled(Handle(s, r).0, key, Remembered(Handle(s, r).1.messageId, r.at + IDEMPOTENCY_TTL),
                    Announced(s.published, key) + if r.delivered then 1 else 0)
  {
    AnnounceOneMore(s.published, Publication(KeyOf(r), s.nextId), r.delivered, KeyOf(r).value);
  }

  lemma StepStaysSettled(s: Server, r: Request, key: string, m: Remembered, n: nat)
    requires Settled(s, key, m, n)
    requires KeyOf(r) == Some(key) ==> r.at < m.expires
    ensures Settled(Handle(s, r).0, key, m, n)
  {
    AnnounceOneMore(s.published, Publication(KeyOf(r), s.nextId), r.delivered, key);
  }

  /** The requests between i and j that share i's key all come within i's day. */
  ghost predicate NoneLate(requests: seq<Request>, i: nat, j: nat)
    requires i < j <= |requests|
  {
    forall m :: i < m < j && KeyOf(requests[m]) == KeyOf(requests[i]) ==>
        requests[m].at < requests[i].at + IDEMPOTENCY_TTL
  }

  lemma {:induction false} SettledThrough(requests: seq<Request>, i: nat, j: nat, key: string, m: Remembered, n: nat)
    requires i < j <= |requests| && Settled(ServerAfter(requests[..i + 1]), key, m, n)
    requires forall k :: i < k < j && KeyOf(requests[k]) == Some(key) ==> requests[k].at < m.expires
    ensures Settled(ServerAfter(requests[..j]), key, m, n)
    decreases j
  {
    if j > i + 1 {
      SettledThrough(requests, i, j - 1, key, m, n);
      ServerStep(requests, j - 1);
      StepStaysSettled(ServerAfter(requests[..j - 1]), requests[j - 1], key, m, n);
    }
  }

  lemma CreatedIsSettled(requests: seq<Request>, i: nat)
    requires i < |requests| && requests[i].clientId.Some? && ResponseTo(requests, i).Created?
    ensures var key := KeyOf(requests[i]).value;
            Settled(ServerAfter(requests[..i + 1]), key,
                    Remembered(ResponseTo(requests, i).messageId, requests[i].at + IDEMPOTENCY_TTL),
                    Announced(ServerAfter(requests[..i]).published, key) + if requests[i].delivered then 1 else 0)
  {
    ServerStep(requests, i);
    CreationSettles(ServerAfter(requests[..i]), requests[i]);
  }

  /** Until its day is over, a created message is what its key stands for. */
  lemma StaysSettled(requests: seq<Request>, i: nat, j: nat)
    requires i < j <= |requests| && NoneLate(requests, i, j)
    requires requests[i].clientId.Some? && ResponseTo(requests, i).Created?
    ensures var key := KeyOf(requests[i]).value;
            Settled(ServerAfter(requests[..j]), key,
                    Remembered(ResponseTo(requests, i).messageId, requests[i].at + IDEMPOTENCY_TTL),
                    Announced(ServerAfter(requests[..i]).published, key) + if requests[i].delivered then 1 else 0)
  {
    CreatedIsSettled(requests, i);
    SettledThrough(requests, i, j, KeyOf(requests[i]).value,
                   Remembered(ResponseTo(requests, i).messageId, requests[i].at + IDEMPOTENCY_TTL),
                   Announced(ServerAfter(requests[..i]).published, KeyOf(requests[i]).value)
                   + if requests[i].delivered then 1 else 0);
  }

  // ── Main results ──

  /**
   * Let a request create a message. A later successful request of the same user with the
   * same client id is answered with that message exactly when it comes within 86400 s of
   * the creation; the first one after that creates a new message. (Duplicates do not
   * extend the day, so earlier late-comers would have created their own.)
   */
  lemma SameMessageExactlyForADay(requests: seq<Request>, i: nat, j: nat)
    requires i < j < |requests| && NoneLate(requests, i, j)
    requires requests[i].clientId.Some? && requests[j].user == requests[i].user
             && requests[j].clientId == requests[i].clientId
    requires ResponseTo(requests, i).Created? && Success(ResponseTo(requests, j))
    ensures ResponseTo(requests, j) == Duplicate(ResponseTo(requests, i).messageId)
       <==> requests[j].at < requests[i].at + 86_400
    ensures ResponseTo(requests, j).Created? <==> requests[j].at >= requests[i].at + 86_400
  {
    StaysSettled(requests, i, j);
  }

  /**
   * Within a day of its creation a message is announced exactly once, whatever retries,
   * failures and other users' requests come in between; but if its own publication fails,
   * it is not announced at all, for no retry publishes it again.
   */
  lemma AnnouncedExactlyOnce(requests: seq<Request>, i: nat, j: nat)
    requires i < j <= |requests| && NoneLate(requests, i, j)
    requires requests[i].clientId.Some? && ResponseTo(requests, i).Created?
    ensures var key := KeyOf(requests[i]).value;
            Announced(ServerAfter(requests[..j]).published, key)
            == Announced(ServerAfter(requests[..i]).published, key) + if requests[i].delivered then 1 else 0
  {
    StaysSettled(requests, i, j);
  }

  // ── Only accepted requests leave a trace ──

  /** Request i passed every check and its message was written under this id. */
  ghost predicate WroteAs(requests: seq<Request>, i: nat, id: nat)
    requires i < |requests|
  {
    var r := requests[i];
    r.permitted && r.hasContent && r.admitted && r.written && ResponseTo(requests, i) == Created(id)
  }

  ghost predicate Traced(requests: seq<Request>, id: nat, key: Option<string>) {
    exists i :: 0 <= i < |requests| && WroteAs(requests, i, id) && KeyOf(requests[i]) == key
  }

  lemma TracedLater(requests: seq<Request>, id: nat, key: Option<string>)
    requires requests != [] && Traced(requests[..|requests| - 1], id, key)
    ensures Traced(requests, id, key)
  {
    var front := requests[..|requests| - 1];
    var i :| 0 <= i < |front| && WroteAs(front, i, id) && KeyOf(front[i]) == key;
    assert front[..i] == requests[..i];
    assert WroteAs(requests, i, id);
  }

  /**
   * Over every sequence of requests: whatever is remembered or has been announced is the
   * message of a request that was permitted, had content, was admitted and was written.
   */
  lemma {:induction false} OnlyAcceptedLeaveATrace(requests: seq<Request>)
    ensures var s := ServerAfter(requests);
            && (forall key :: key in s.idem ==> Traced(requests, s.idem[key].messageId, Some(key)))
            && (forall p :: p in s.published ==> Traced(requests, p.messageId, p.key))
  {
    if requests != [] {
      var n := |requests| - 1;
      var before, after, r := ServerAfter(requests[..n]), ServerAfter(requests), requests[n];
      OnlyAcceptedLeaveATrace(requests[..n]);
      forall key | key in after.idem ensures Traced(requests, after.idem[key].messageId, Some(key)) {
        if key in before.idem && after.idem[key] == before.idem[key] {
          TracedLater(requests, before.idem[key].messageId, Some(key));
        } else {
          assert WroteAs(requests, n, after.idem[key].messageId);
        }
      }
      forall p | p in after.published ensures Traced(requests, p.messageId, p.key) {
        if p in before.published {
          TracedLater(requests, p.messageId, p.key);
        } else {
          assert WroteAs(requests, n, p.messageId);
        }
      }
    }
  }

  lemma {:induction false} CreatedIdsAreOld(requests: seq<Request>, i: nat)
    requires i < |requests| && ResponseTo(requests, i).Created?
    ensures ResponseTo(requests, i).messageId < ServerAfter(requests).nextId
    decreases |requests|
  {
    var n := |requests| - 1;
    if i < n {
      assert requests[..n][..i] == requests[..i];
      CreatedIdsAreOld(requests[..n], i);
    }
  }

  /** No two requests create messages with the same id. */
  lemma CreatedIdsDiffer(requests: seq<Request>, i: nat, j: nat)
    requires i < j < |requests| && ResponseTo(requests, i).Created? && ResponseTo(requests, j).Created?
    ensures ResponseTo(requests, i).messageId != ResponseTo(requests, j).messageId
  {
    assert requests[..j][..i] == requests[..i];
    CreatedIdsAreOld(requests[..j], i);
  }
}
