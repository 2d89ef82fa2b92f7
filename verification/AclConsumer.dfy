/**
 * The cache operations themselves, on a Redis store that is updated in place:
 * `check` (services/chat/src/access.rs) and the SCAN/DEL sweep of an invalidation
 * (services/chat/src/acl_consumer.rs).
 */
module AclConsumer {
  import opened Prelude
  import opened AclKeys
  import opened AclCache

  const SCAN_COUNT: nat := 200

  datatype Value = Value(number: int, expires: nat)

  /** `order` is the order in which SCAN walks the keys. */
  class Redis {
    var store: map<string, Value>
    var order: seq<string>

    ghost predicate Valid()
      reads this
    {
      forall key :: key in store ==> key in order
    }

    constructor ()
      ensures Valid() && store == map[]
    {
      store, order := map[], [];
    }

    function Get(key: string, now: nat): Option<int>
      reads this
    {
      if key in store && now < store[key].expires then Some(store[key].number) else None
    }

    method SetEx(key: string, number: int, ttl: nat, now: nat)
      requires Valid()
      modifies this
      ensures Valid() && store == old(store)[key := Value(number, now + ttl)]
    {
      store := store[key := Value(number, now + ttl)];
      order := order + [key];
    }

    method Del(keys: seq<string>)
      requires Valid()
      modifies this`store
      ensures Valid() && store == map key | key in old(store) && key !in keys :: old(store)[key]
    {
      store := map key | key in store && key !in keys :: store[key];
    }

    /** One SCAN page: the matching keys among the next 200, and where to go on (0 at the end). */
    method Scan(cursor: nat, pattern: string) returns (next: nat, batch: seq<string>)
      requires cursor <= |order|
      ensures var end := if cursor + SCAN_COUNT < |order| then cursor + SCAN_COUNT else |order|;
              && next == (if end < |order| then end else 0)
              && forall key :: key in batch <==> key in order[cursor..end] && key in store && Matches(pattern, key)
    {
      var end := if cursor + SCAN_COUNT < |order| then cursor + SCAN_COUNT else |order|;
      next := if end < |order| then end else 0;
      batch := [];
      var i := cursor;
      while i < end
        invariant cursor <= i <= end
        invariant forall key :: key in batch <==> key in order[cursor..i] && key in store && Matches(pattern, key)
      {
        assert order[cursor..i + 1] == order[cursor..i] + [order[i]];
        if order[i] in store && Matches(pattern, order[i]) {
          batch := batch + [order[i]];
        }
        i := i + 1;
      }
    }
  }

  /** Follow the cursor until it comes back to 0: every matching key, and nothing else. */
  method CollectMatching(redis: Redis, pattern: string) returns (out: seq<string>)
    requires redis.Valid()
    ensures forall key :: key in out <==> key in redis.store && Matches(pattern, key)
  {
    var cursor := 0;
    out := [];
    ghost var seen := 0;
    while true
      invariant cursor == seen <= |redis.order|
      invariant forall key :: key in out <==> key in redis.order[..seen] && key in redis.store && Matches(pattern, key)
      decreases |redis.order| - seen
    {
      var next, batch := redis.Scan(cursor, pattern);
      ghost var end := if cursor + SCAN_COUNT < |redis.order| then cursor + SCAN_COUNT else |redis.order|;
      assert redis.order[..end] == redis.order[..seen] + redis.order[seen..end];
      out := out + batch;
      seen := end;
      if next == 0 {
        break;
      }
      cursor := next;
    }
    assert redis.order[..seen] == redis.order;
  }

  /**
   * Deletes exactly the keys of the scope; keys of other questions stay as they were. If
   * SCAN or DEL fails, the cache stays as it was and the invalidation is lost.
   */
  method Apply(redis: Redis, scope: Scope, scanWorks: bool, delWorks: bool)
    requires redis.Valid()
    modifies redis
    ensures redis.Valid()
    ensures !(scanWorks && delWorks) ==> redis.store == old(redis.store)
    ensures scanWorks && delWorks ==>
              redis.store == map key | key in old(redis.store) && !Matches(Pattern(scope), key) :: old(redis.store)[key]
    ensures scanWorks && delWorks ==>
              forall q :: Key(q) in redis.store <==> Key(q) in old(redis.store) && !Covers(scope, q)
  {
    if !scanWorks {
      return;
    }
    var keys := CollectMatching(redis, Pattern(scope));
    if keys != [] && delWorks {
      redis.Del(keys);
    }
    forall q ensures Matches(Pattern(scope), Key(q)) <==> Covers(scope, q) {
      PatternIsExact(scope, q.hub, q.channel, q.user, q.action);
    }
  }

  /**
   * One check with the read-through in one go. `database` is what the query yields; the
   * flags say whether a pool is configured and whether each Redis command succeeds.
   */
  method Check(redis: Redis, hasPool: bool, database: Result<bool, string>, q: Question, now: nat, getWorks: bool,
               setWorks: bool)
    returns (allowed: bool)
    requires redis.Valid()
    modifies redis
    ensures redis.Valid()
    ensures !hasPool ==> !allowed && redis.store == old(redis.store)
    ensures var hit := old(redis.Get(Key(q), now));
            hasPool && getWorks && hit.Some? ==> allowed == (hit.value == 1) && redis.store == old(redis.store)
    ensures var hit := old(redis.Get(Key(q), now));
            hasPool && !(getWorks && hit.Some?) ==>
              && allowed == (database == Ok(true))
              && redis.store == if setWorks
                 then old(redis.store)[Key(q) := Value(if allowed then 1 else 0, now + 30_000)] else old(redis.store)
    ensures hasPool && setWorks && !(getWorks && old(redis.Get(Key(q), now)).Some?) ==>
              forall later :: now <= later ==>
                redis.Get(Key(q), later) == if later < now + 30_000 then Some(if allowed then 1 else 0) else None
  {
    if !hasPool {
      return false;
    }
    var key := Key(q);
    if getWorks {
      var hit := redis.Get(key, now);
      if hit.Some? {
        return hit.value == 1;
      }
    }
    allowed := match database {
      case Ok(a) => a
      case Err(_) => false
    };
    if setWorks {
      redis.SetEx(key, if allowed then 1 else 0, ACL_TTL, now);
    }
  }
}
