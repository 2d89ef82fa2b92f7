/**
 * The read-through permission cache over time (services/chat/src/access.rs,
 * services/chat/src/acl_consumer.rs): how stale an answer can be, and what an
 * invalidation guarantees.
 *
 * A cache miss starts a check that queries several tables, stores the answer and gives it;
 * an invalidation is a SCAN over the keys followed by a DEL. All these are separate steps,
 * and anything may happen in between.
 */
module AclCache {
  import opened Prelude
  import opened AclKeys
  import PR = PermissionReads

  const ACL_TTL: nat := 30_000 // milliseconds

  datatype Question = Question(hub: int, channel: int, user: int, action: Action)

  function Key(q: Question): string {
    CacheKey(q.hub, q.channel, q.user, q.action)
  }

  predicate Covers(scope: Scope, q: Question) {
    InScope(scope, q.hub, q.channel, q.user)
  }

  // ── State ──

  /**
   * A decision on `q` by a check begun at `readAt`, whose queries saw the epochs of `seen`;
   * None when a query failed and the check became a denial.
   */
  datatype Reading = Reading(q: Question, allowed: bool, readAt: nat, seen: Option<PR.Reads>)

  datatype Entry = Entry(reading: Reading, storedAt: nat)

  /** An answer given at `at`; `cached` tells a hit from the end of a read-through. */
  datatype Answer = Answer(reading: Reading, storedAt: nat, at: nat, cached: bool)

  /** The permission data in force from `since` on. */
  datatype Epoch = Epoch(since: nat, tables: Question -> PR.Tables)

  /** A check under way, and the epochs its queries have seen so far. */
  datatype Flight = Flight(q: Question, startedAt: nat, at: seq<nat>)

  /**
   * An invalidation under way. SCAN returns every matching key that is there from its
   * beginning to its end: `found` holds the matching keys it began with, less those stored
   * anew since.
   */
  datatype Sweep = Sweep(scope: Scope, found: set<string>)

  datatype State = State(
    now: nat,
    timeline: seq<Epoch>,
    cache: map<string, Entry>,
    flights: map<nat, Flight>,
    sweeps: map<nat, Sweep>,
    answers: seq<Answer>
  )

  function Init(tables: Question -> PR.Tables): State {
    State(0, [Epoch(0, tables)], map[], map[], map[], [])
  }

  predicate Alive(e: Entry, now: nat) {
    now < e.storedAt + ACL_TTL
  }

  predicate Cached(s: State, q: Question) {
    Key(q) in s.cache && Alive(s.cache[Key(q)], s.now)
  }

  /** The epoch in force. */
  function Current(s: State): nat {
    if s.timeline == [] then 0 else |s.timeline| - 1
  }

  /** What the tables have said about q, epoch by epoch. */
  function Seen(timeline: seq<Epoch>, q: Question): seq<PR.Tables> {
    seq(|timeline|, i requires 0 <= i < |timeline| => timeline[i].tables(q))
  }

  /** All queries that the check needs have been made. */
  predicate Settled(s: State, f: Flight) {
    PR.Positions(Seen(s.timeline, f.q), f.at) && PR.Complete(Seen(s.timeline, f.q), f.at)
  }

  // ── Steps ──

  datatype Event =
    | Advance(ms: nat)
    | Change(tables: Question -> PR.Tables)  // permissions are edited
    | Hit(q: Question)
    | Miss(flight: nat, q: Question)         // nothing alive is cached: a check begins
    | CacheDown(flight: nat, q: Question)    // the cache cannot be read: a check begins
    | Query(flight: nat)                     // the check's next query
    | Finish(flight: nat, stored: bool)      // store, best effort, and answer
    | Fail(flight: nat, stored: bool)        // a query fails: store and answer a denial
    | Scan(sweep: nat, scope: Scope)         // an invalidation begins
    | Delete(sweep: nat, keys: set<string>)  // DEL of what SCAN returned

  predicate Enabled(s: State, a: Event) {
    match a
    case Advance(_) => true
    case Change(_) => true
    case Hit(q) => Cached(s, q)
    case Miss(flight, q) => !Cached(s, q) && flight !in s.flights
    case CacheDown(flight, _) => flight !in s.flights
    case Query(flight) => flight in s.flights && !Settled(s, s.flights[flight]) && |s.flights[flight].at| < 3
    case Finish(flight, _) => flight in s.flights && Settled(s, s.flights[flight])
    case Fail(flight, _) => flight in s.flights && !Settled(s, s.flights[flight])
    case Scan(sweep, _) => sweep !in s.sweeps
    case Delete(sweep, keys) =>
      && sweep in s.sweeps
      && s.sweeps[sweep].found <= keys
      && forall key :: key in keys ==> Matches(Pattern(s.sweeps[sweep].scope), key)
  }

  /** What a settled check has found out. */
  function ReadingOf(s: State, f: Flight): Reading
    requires Settled(s, f)
  {
    var history, seen := Seen(s.timeline, f.q), PR.ReadsOf(f.at);
    Reading(f.q, PR.Answer(history, seen), f.startedAt, Some(seen))
  }

  /** A query error is a denial. */
  function Denial(f: Flight): Reading {
    Reading(f.q, false, f.startedAt, None)
  }

  function Matching(s: State, scope: Scope): set<string> {
    set key | key in s.cache && Matches(Pattern(scope), key)
  }

  /** Sweeps after `key` has been stored: SCAN need not return it any more. */
  function StoredAnew(sweeps: map<nat, Sweep>, key: string): map<nat, Sweep> {
    map id | id in sweeps :: sweeps[id].(found := sweeps[id].found - {key})
  }

  /** Store the reading, if the cache takes it, and answer. */
  function Landed(s: State, flight: nat, reading: Reading, stored: bool): State {
    var answered := s.(flights := s.flights - {flight}, answers := s.answers + [Answer(reading, s.now, s.now, false)]);
    if !stored then answered
    else answered.(cache := s.cache[Key(reading.q) := Entry(reading, s.now)],
                   sweeps := StoredAnew(s.sweeps, Key(reading.q)))
  }

  function Step(s: State, a: Event): State
    requires Enabled(s, a)
  {
    match a
    case Advance(ms) => s.(now := s.now + ms)
    case Change(tables) => s.(timeline := s.timeline + [Epoch(s.now, tables)])
    case Hit(q) =>
      var e := s.cache[Key(q)];
      s.(answers := s.answers + [Answer(e.reading, e.storedAt, s.now, true)])
    case Miss(flight, q) => s.(flights := s.flights[flight := Flight(q, s.now, [])])
    case CacheDown(flight, q) => s.(flights := s.flights[flight := Flight(q, s.now, [])])
    case Query(flight) =>
      var f := s.flights[flight];
      s.(flights := s.flights[flight := f.(at := f.at + [Current(s)])])
    case Finish(flight, stored) => Landed(s, flight, ReadingOf(s, s.flights[flight]), stored)
    case Fail(flight, stored) => Landed(s, flight, Denial(s.flights[flight]), stored)
    case Scan(sweep, scope) => s.(sweeps := s.sweeps[sweep := Sweep(scope, Matching(s, scope))])
    case Delete(sweep, keys) =>
      s.(cache := map key | key in s.cache && key !in keys :: s.cache[key], sweeps := s.sweeps - {sweep})
  }

  predicate Run(s: State, run: seq<Event>)
    decreases run
  {
    run == [] || (Enabled(s, run[0]) && Run(Step(s, run[0]), run[1..]))
  }

  function Exec(s: State, run: seq<Event>): State
    requires Run(s, run)
    decreases run
  {
    if run == [] then s else Exec(Step(s, run[0]), run[1..])
  }

  // ── What an answer reflects ──

  /** Epoch e was still in force at time t or came later. */
  predicate NotOverBefore(timeline: seq<Epoch>, e: nat, t: nat) {
    e < |timeline| && (e + 1 < |timeline| ==> t <= timeline[e + 1].since)
  }

  /** A reading begun at `readAt` and completed by `end` says what its queries saw in between. */
  ghost predicate Honest(r: Reading, end: nat, timeline: seq<Epoch>) {
    && r.readAt <= end
    && match r.seen
       case None => !r.allowed
       case Some(seen) =>
         && PR.InOrder(Seen(timeline, r.q), seen)
         && NotOverBefore(timeline, seen.kindAt, r.readAt)
         && timeline[seen.grantsAt].since <= end
         && r.allowed == PR.Answer(Seen(timeline, r.q), seen)
  }

  ghost predicate FlightOk(f: Flight, s: State) {
    && f.startedAt <= s.now
    && PR.Positions(Seen(s.timeline, f.q), f.at)
    && (f.at != [] ==> NotOverBefore(s.timeline, f.at[0], f.startedAt))
  }

  ghost predicate InTime(timeline: seq<Epoch>, now: nat) {
    && timeline != []
    && forall i {:trigger timeline[i]} :: 0 <= i < |timeline| ==> timeline[i].since <= now
  }

  ghost predicate EntryOk(key: string, e: Entry, s: State) {
    key == Key(e.reading.q) && Honest(e.reading, e.storedAt, s.timeline) && e.storedAt <= s.now
  }

  ghost predicate AnswerOk(a: Answer, s: State) {
    && Honest(a.reading, a.storedAt, s.timeline)
    && a.storedAt <= a.at <= s.now
    && a.at < a.storedAt + ACL_TTL
  }

  ghost predicate Inv(s: State) {
    && InTime(s.timeline, s.now)
    && (forall key {:trigger s.cache[key]} :: key in s.cache ==> EntryOk(key, s.cache[key], s))
    && (forall f {:trigger s.flights[f]} :: f in s.flights ==> FlightOk(s.flights[f], s))
    && (forall i {:trigger s.answers[i]} :: 0 <= i < |s.answers| ==> AnswerOk(s.answers[i], s))
  }

  /** A later epoch changes nothing about what was seen before. */
  lemma StaysHonest(r: Reading, end: nat, timeline: seq<Epoch>, e: Epoch)
    requires Honest(r, end, timeline) && end <= e.since
    ensures Honest(r, end, timeline + [e])
  {
    if r.seen.Some? {
      SeenGrows(timeline, e, r.q);
    }
  }

  lemma SeenGrows(timeline: seq<Epoch>, e: Epoch, q: Question)
    ensures Seen(timeline + [e], q) == Seen(timeline, q) + [e.tables(q)]
  {
  }

  lemma FlightStaysOk(f: Flight, s: State, a: Event)
    requires FlightOk(f, s) && Enabled(s, a)
    ensures FlightOk(f, Step(s, a))
  {
    if a.Change? {
      SeenGrows(s.timeline, Epoch(s.now, a.tables), f.q);
    }
  }

  lemma LandingIsHonest(s: State, a: Event)
    requires Inv(s) && Enabled(s, a) && (a.Finish? || a.Fail?)
    ensures Honest(if a.Finish? then ReadingOf(s, s.flights[a.flight]) else Denial(s.flights[a.flight]),
                   s.now, s.timeline)
  {
    assert FlightOk(s.flights[a.flight], s);
  }

  lemma LandedKeepsEntry(s: State, flight: nat, reading: Reading, stored: bool, key: string)
    requires Inv(s) && Honest(reading, s.now, s.timeline) && key in Landed(s, flight, reading, stored).cache
    ensures EntryOk(key, Landed(s, flight, reading, stored).cache[key], Landed(s, flight, reading, stored))
  {
    if key in s.cache {
      assert EntryOk(key, s.cache[key], s);
    }
  }

  lemma ChangeKeepsEntry(s: State, tables: Question -> PR.Tables, key: string)
    requires Inv(s) && key in s.cache
    ensures EntryOk(key, s.cache[key], Step(s, Change(tables)))
  {
    assert EntryOk(key, s.cache[key], s);
    StaysHonest(s.cache[key].reading, s.cache[key].storedAt, s.timeline, Epoch(s.now, tables));
  }

  lemma StepKeepsEntries(s: State, a: Event, key: string)
    requires Inv(s) && Enabled(s, a) && key in Step(s, a).cache
    ensures EntryOk(key, Step(s, a).cache[key], Step(s, a))
  {
    match a
    case Finish(flight, stored) =>
      LandingIsHonest(s, a);
      LandedKeepsEntry(s, flight, ReadingOf(s, s.flights[flight]), stored, key);
    case Fail(flight, stored) =>
      LandingIsHonest(s, a);
      LandedKeepsEntry(s, flight, Denial(s.flights[flight]), stored, key);
    case Change(tables) => ChangeKeepsEntry(s, tables, key);
    case _ => assert EntryOk(key, s.cache[key], s);
  }

  lemma QueryKeepsFlight(s: State, flight: nat)
    requires Inv(s) && Enabled(s, Query(flight))
    ensures FlightOk(Step(s, Query(flight)).flights[flight], Step(s, Query(flight)))
  {
    var f := s.flights[flight];
    assert FlightOk(f, s);
    assert |Seen(s.timeline, f.q)| == |s.timeline|;
  }

  lemma StepKeepsFlights(s: State, a: Event, f: nat)
    requires Inv(s) && Enabled(s, a) && f in Step(s, a).flights
    ensures FlightOk(Step(s, a).flights[f], Step(s, a))
  {
    if a.Query? && a.flight == f {
      QueryKeepsFlight(s, f);
    } else if f in s.flights {
      FlightStaysOk(s.flights[f], s, a);
    }
  }

  lemma StepKeepsAnswers(s: State, a: Event, i: nat)
    requires Inv(s) && Enabled(s, a) && i < |Step(s, a).answers|
    ensures AnswerOk(Step(s, a).answers[i], Step(s, a))
  {
    if i < |s.answers| {
      assert Step(s, a).answers[i] == s.answers[i] && AnswerOk(s.answers[i], s);
      if a.Change? {
        StaysHonest(s.answers[i].reading, s.answers[i].storedAt, s.timeline, Epoch(s.now, a.tables));
      }
    } else if a.Hit? {
      assert EntryOk(Key(a.q), s.cache[Key(a.q)], s);
    } else {
      LandingIsHonest(s, a);
    }
  }

  lemma StepKeepsInv(s: State, a: Event)
    requires Inv(s) && Enabled(s, a)
    ensures Inv(Step(s, a))
  {
    var t := Step(s, a);
    forall key | key in t.cache ensures EntryOk(key, t.cache[key], t) {
      StepKeepsEntries(s, a, key);
    }
    forall f | f in t.flights ensures FlightOk(t.flights[f], t) {
      StepKeepsFlights(s, a, f);
    }
    forall i: nat | i < |t.answers| ensures AnswerOk(t.answers[i], t) {
      StepKeepsAnswers(s, a, i);
    }
  }

  // ── Staleness ──

  /** Every check in the run stores its answer at most `latency` after it began. */
  predicate Prompt(s: State, run: seq<Event>, latency: nat)
    requires Run(s, run)
    decreases run
  {
    run == [] ||
    (&& (run[0].Finish? || run[0].Fail? ==> s.now - s.flights[run[0].flight].startedAt <= latency)
     && Prompt(Step(s, run[0]), run[1..], latency))
  }

  ghost predicate StoredPromptly(s: State, latency: nat) {
    && (forall key {:trigger s.cache[key]} :: key in s.cache ==>
          s.cache[key].storedAt - s.cache[key].reading.readAt <= latency)
    && (forall i {:trigger s.answers[i]} :: 0 <= i < |s.answers| ==>
          s.answers[i].storedAt - s.answers[i].reading.readAt <= latency)
  }

  lemma StepStoresPromptly(s: State, a: Event, latency: nat)
    requires Enabled(s, a) && StoredPromptly(s, latency)
    requires a.Finish? || a.Fail? ==> s.now - s.flights[a.flight].startedAt <= latency
    ensures StoredPromptly(Step(s, a), latency)
  {
  }

  lemma {:induction false} RunKeepsInv(s: State, run: seq<Event>, latency: nat)
    requires Inv(s) && Run(s, run)
    ensures Inv(Exec(s, run))
    ensures StoredPromptly(s, latency) && Prompt(s, run, latency) ==> StoredPromptly(Exec(s, run), latency)
    decreases run
  {
    if run != [] {
      StepKeepsInv(s, run[0]);
      if StoredPromptly(s, latency) && Prompt(s, run, latency) {
        StepStoresPromptly(s, run[0], latency);
      }
      RunKeepsInv(Step(s, run[0]), run[1..], latency);
    }
  }

  lemma InitInv(tables: Question -> PR.Tables)
    ensures Inv(Init(tables))
  {
  }

  /**
   * Over every run, each answer comes from a check begun less than 30 s plus the check's
   * latency ago: it says what that check's queries saw, in order, in permission data in
   * force between its beginning and the storing of its answer, or is the denial that a
   * failed query became.
   */
  lemma AnswersAreRecent(tables: Question -> PR.Tables, run: seq<Event>, latency: nat)
    requires Run(Init(tables), run) && Prompt(Init(tables), run, latency)
    ensures var s := Exec(Init(tables), run);
            forall i {:trigger s.answers[i]} :: 0 <= i < |s.answers| ==>
              var a := s.answers[i];
              && a.reading.readAt <= a.at < a.reading.readAt + 30_000 + latency
              && a.reading.readAt <= a.storedAt <= a.at
              && Honest(a.reading, a.storedAt, s.timeline)
  {
    InitInv(tables);
    RunKeepsInv(Init(tables), run, latency);
  }

  /** The decision on q in epoch e. */
  predicate DecisionIn(timeline: seq<Epoch>, e: nat, q: Question)
    requires e < |timeline|
  {
    PR.Decision(timeline[e].tables(q))
  }

  /**
   * Over every run, for a channel that keeps its kind, each answer that is not a failure is
   * the decision of some moment of its check, except that a user who was made admin and
   * then lost the grant during the check may be denied.
   */
  lemma AnswersWereDecisions(tables: Question -> PR.Tables, run: seq<Event>, i: nat)
    requires Run(Init(tables), run)
    requires var s := Exec(Init(tables), run);
             i < |s.answers| && s.answers[i].reading.seen.Some?
             && PR.SameKind(Seen(s.timeline, s.answers[i].reading.q))
    ensures var timeline, r := Exec(Init(tables), run).timeline, Exec(Init(tables), run).answers[i].reading;
            var seen := r.seen.value;
            || (exists e :: seen.kindAt <= e <= seen.grantsAt < |timeline| && DecisionIn(timeline, e, r.q) == r.allowed)
            || (!r.allowed && PR.Promoted(Seen(timeline, r.q), seen.memberAt, seen.grantsAt))
  {
    InitInv(tables);
    RunKeepsInv(Init(tables), run, 0);
    var s := Exec(Init(tables), run);
    var r := s.answers[i].reading;
    assert AnswerOk(s.answers[i], s);
    var history, seen := Seen(s.timeline, r.q), r.seen.value;
    if r.allowed {
      PR.GrantsAreCurrent(history, seen);
      var e :| seen.kindAt <= e <= seen.grantsAt && PR.Decision(history[e]);
      assert DecisionIn(s.timeline, e, r.q);
    } else if !PR.Promoted(history, seen.memberAt, seen.grantsAt) {
      PR.DenialsAreCurrent(history, seen);
      var e :| seen.kindAt <= e <= seen.grantsAt && !PR.Decision(history[e]);
      assert !DecisionIn(s.timeline, e, r.q);
    }
  }

  // ── What the cache is for ──

  /** Nothing in the run stores another answer to q or deletes its key. */
  ghost predicate Unreplaced(s: State, run: seq<Event>, q: Question)
    requires Run(s, run)
    decreases run
  {
    run == [] ||
    (&& ((run[0].Finish? || run[0].Fail?) && run[0].stored ==> s.flights[run[0].flight].q != q)
     && (run[0].Delete? ==> Key(q) !in run[0].keys)
     && Unreplaced(Step(s, run[0]), run[1..], q))
  }

  lemma StepKeepsEntry(s: State, a: Event, q: Question)
    requires Enabled(s, a) && Key(q) in s.cache
    requires (a.Finish? || a.Fail?) && a.stored ==> s.flights[a.flight].q != q
    requires a.Delete? ==> Key(q) !in a.keys
    ensures Key(q) in Step(s, a).cache && Step(s, a).cache[Key(q)] == s.cache[Key(q)] && s.now <= Step(s, a).now
  {
    if a.Finish? || a.Fail? {
      var p := s.flights[a.flight].q;
      if Key(p) == Key(q) {
        KeysAreInjective(q.hub, q.channel, q.user, q.action, p.hub, p.channel, p.user, p.action);
      }
    }
  }

  lemma {:induction false} EntryStays(s: State, run: seq<Event>, q: Question)
    requires Run(s, run) && Key(q) in s.cache && Unreplaced(s, run, q)
    ensures Key(q) in Exec(s, run).cache && Exec(s, run).cache[Key(q)] == s.cache[Key(q)] && s.now <= Exec(s, run).now
    decreases run
  {
    if run != [] {
      StepKeepsEntry(s, run[0], q);
      EntryStays(Step(s, run[0]), run[1..], q);
    }
  }

  /**
   * A stored answer spares the database for 30 s and no longer: over every run that neither
   * replaces nor deletes it, a check is served that answer before then, and must query the
   * database from then on.
   */
  lemma StoredIsServed(s: State, flight: nat, run: seq<Event>, other: nat)
    requires Enabled(s, Finish(flight, true)) && Run(Step(s, Finish(flight, true)), run)
    requires Unreplaced(Step(s, Finish(flight, true)), run, s.flights[flight].q)
    ensures var q, reading := s.flights[flight].q, ReadingOf(s, s.flights[flight]);
            var t := Exec(Step(s, Finish(flight, true)), run);
            && (Enabled(t, Hit(q)) <==> t.now < s.now + 30_000)
            && (Enabled(t, Hit(q)) ==> Step(t, Hit(q)).answers == t.answers + [Answer(reading, s.now, t.now, true)])
            && (Enabled(t, Miss(other, q)) ==> t.now >= s.now + 30_000)
  {
    EntryStays(Step(s, Finish(flight, true)), run, s.flights[flight].q);
  }

  // ── Invalidation ──

  /** The reading rests on a query from before epoch `e`. */
  predicate Older(r: Reading, e: nat) {
    r.seen.Some? && r.seen.value.kindAt < e
  }

  /** A check of the scope is under way that has already queried tables from before epoch `e`. */
  ghost predicate OldFlight(s: State, scope: Scope, e: nat) {
    exists f :: f in s.flights && Covers(scope, s.flights[f].q) && s.flights[f].at != [] && s.flights[f].at[0] < e
  }

  /** No answer from number n on serves from the cache something about the scope older than epoch `e`. */
  ghost predicate NoStaleHit(s: State, scope: Scope, e: nat, n: nat) {
    forall i {:trigger s.answers[i]} ::
      n <= i < |s.answers| && s.answers[i].cached && Covers(scope, s.answers[i].reading.q) ==>
      !Older(s.answers[i].reading, e)
  }

  /** Nothing about the scope older than epoch `e` is in flight, or served from the cache since answer n. */
  ghost predicate Fresh(s: State, scope: Scope, e: nat, n: nat) {
    n <= |s.answers| && e <= Current(s) && !OldFlight(s, scope, e) && NoStaleHit(s, scope, e, n)
  }

  /** Cached entries of the scope older than epoch `e` are among `keys`. */
  ghost predicate OldOnesIn(s: State, scope: Scope, e: nat, keys: set<string>) {
    forall key {:trigger s.cache[key]} ::
      key in s.cache && Covers(scope, s.cache[key].reading.q) && Older(s.cache[key].reading, e) ==>
      key in keys
  }

  /** This sweep does not end in the run. */
  ghost predicate StillSweeping(run: seq<Event>, sweep: nat) {
    forall a :: a in run ==> !(a.Delete? && a.sweep == sweep)
  }

  /** A sweep of the scope is under way and knows every entry left from before epoch `e`. */
  ghost predicate Knowing(s: State, sweep: nat, scope: Scope, e: nat) {
    && e <= Current(s) && !OldFlight(s, scope, e)
    && sweep in s.sweeps && s.sweeps[sweep].scope == scope
    && OldOnesIn(s, scope, e, s.sweeps[sweep].found)
  }

  lemma LandingKeepsKnowing(s: State, flight: nat, reading: Reading, stored: bool, sweep: nat, scope: Scope, e: nat)
    requires Knowing(s, sweep, scope, e) && (Covers(scope, reading.q) ==> !Older(reading, e))
    ensures Knowing(Landed(s, flight, reading, stored), sweep, scope, e)
  {
    var t, key := Landed(s, flight, reading, stored), Key(reading.q);
    if stored {
      assert t.sweeps[sweep].found == s.sweeps[sweep].found - {key};
      forall k {:trigger t.cache[k]} |
        k in t.cache && Covers(scope, t.cache[k].reading.q) && Older(t.cache[k].reading, e)
        ensures k in t.sweeps[sweep].found
      {
        assert k != key && t.cache[k] == s.cache[k];
      }
    }
  }

  /** What a check ends with is as old as its first query. */
  lemma LandingAge(s: State, a: Event, scope: Scope, e: nat)
    requires Enabled(s, a) && (a.Finish? || a.Fail?) && !OldFlight(s, scope, e)
    ensures var reading := if a.Finish? then ReadingOf(s, s.flights[a.flight]) else Denial(s.flights[a.flight]);
            Covers(scope, reading.q) ==> !Older(reading, e)
  {
  }

  lemma StepKeepsKnowing(s: State, a: Event, sweep: nat, scope: Scope, e: nat)
    requires Inv(s) && Enabled(s, a) && Knowing(s, sweep, scope, e)
    requires !(a.Delete? && a.sweep == sweep)
    ensures Knowing(Step(s, a), sweep, scope, e)
  {
    if a.Finish? || a.Fail? {
      LandingAge(s, a, scope, e);
      var reading := if a.Finish? then ReadingOf(s, s.flights[a.flight]) else Denial(s.flights[a.flight]);
      LandingKeepsKnowing(s, a.flight, reading, a.stored, sweep, scope, e);
    } else {
      var t := Step(s, a);
      NoOldFlightStarts(s, a, scope, e);
      assert t.sweeps[sweep] == s.sweeps[sweep];
      assert forall k {:trigger t.cache[k]} :: k in t.cache ==> k in s.cache && t.cache[k] == s.cache[k];
    }
  }

  /** From epoch `e` on, no query sees anything older. */
  lemma NoOldFlightStarts(s: State, a: Event, scope: Scope, e: nat)
    requires Enabled(s, a) && e <= Current(s) && !OldFlight(s, scope, e)
    ensures e <= Current(Step(s, a)) && !OldFlight(Step(s, a), scope, e)
  {
    var t := Step(s, a);
    if f :| f in t.flights && Covers(scope, t.flights[f].q) && t.flights[f].at != [] && t.flights[f].at[0] < e {
      assert f in s.flights;
    }
  }

  /** Until its DEL, a sweep knows every old entry that is left. */
  lemma {:induction false} SweepKnowsOldOnes(s: State, run: seq<Event>, sweep: nat, scope: Scope, e: nat)
    requires Inv(s) && Run(s, run) && StillSweeping(run, sweep) && Knowing(s, sweep, scope, e)
    ensures Inv(Exec(s, run)) && Knowing(Exec(s, run), sweep, scope, e)
    decreases run
  {
    if run != [] {
      assert run[0] in run;
      StepKeepsInv(s, run[0]);
      StepKeepsKnowing(s, run[0], sweep, scope, e);
      SweepKnowsOldOnes(Step(s, run[0]), run[1..], sweep, scope, e);
    }
  }

  lemma StepServesNothingOld(s: State, a: Event, scope: Scope, e: nat, n: nat)
    requires Enabled(s, a) && n <= |s.answers| && NoStaleHit(s, scope, e, n) && OldOnesIn(s, scope, e, {})
    ensures NoStaleHit(Step(s, a), scope, e, n)
  {
    var t := Step(s, a);
    forall i {:trigger t.answers[i]} |
      n <= i < |t.answers| && t.answers[i].cached && Covers(scope, t.answers[i].reading.q)
      ensures !Older(t.answers[i].reading, e)
    {
      if i < |s.answers| {
        assert t.answers[i] == s.answers[i];
      }
    }
  }

  lemma StepAddsNoOldOnes(s: State, a: Event, scope: Scope, e: nat)
    requires Enabled(s, a) && !OldFlight(s, scope, e) && OldOnesIn(s, scope, e, {})
    ensures OldOnesIn(Step(s, a), scope, e, {})
  {
    if a.Finish? || a.Fail? {
      LandingAge(s, a, scope, e);
    }
  }

  /** Once the old entries are gone and no old read-through is left, they stay gone. */
  lemma {:induction false} FreshStaysFresh(s: State, run: seq<Event>, scope: Scope, e: nat, n: nat)
    requires Run(s, run) && Fresh(s, scope, e, n) && OldOnesIn(s, scope, e, {})
    ensures Fresh(Exec(s, run), scope, e, n) && OldOnesIn(Exec(s, run), scope, e, {})
    decreases run
  {
    if run != [] {
      StepServesNothingOld(s, run[0], scope, e, n);
      NoOldFlightStarts(s, run[0], scope, e);
      StepAddsNoOldOnes(s, run[0], scope, e);
      FreshStaysFresh(Step(s, run[0]), run[1..], scope, e, n);
    }
  }

  /** An undisturbed invalidation leaves no key of its scope, and no other key goes. */
  lemma InvalidationPurges(s: State, sweep: nat, scope: Scope, keys: set<string>)
    requires sweep !in s.sweeps && Enabled(Step(s, Scan(sweep, scope)), Delete(sweep, keys))
    ensures var t := Step(Step(s, Scan(sweep, scope)), Delete(sweep, keys));
            forall q :: Key(q) in t.cache <==> Key(q) in s.cache && !Covers(scope, q)
  {
    forall q ensures Matches(Pattern(scope), Key(q)) <==> Covers(scope, q) {
      PatternIsExact(scope, q.hub, q.channel, q.user, q.action);
    }
  }

  /** The check makes the queries it still needs. */
  lemma {:induction false} CanSettle(s: State, flight: nat) returns (run: seq<Event>)
    requires Inv(s) && flight in s.flights && s.flights[flight].at != []
    ensures Run(s, run)
    ensures var t := Exec(s, run);
            && t == s.(flights := t.flights)
            && flight in t.flights && Settled(t, t.flights[flight])
            && t.flights[flight].q == s.flights[flight].q && t.flights[flight].startedAt == s.flights[flight].startedAt
            && t.flights[flight].at != [] && t.flights[flight].at[0] == s.flights[flight].at[0]
    decreases 3 - |s.flights[flight].at|
  {
    assert FlightOk(s.flights[flight], s);
    if Settled(s, s.flights[flight]) {
      return [];
    }
    var t := Step(s, Query(flight));
    StepKeepsInv(s, Query(flight));
    var rest := CanSettle(t, flight);
    run := [Query(flight)] + rest;
    assert run[1..] == rest;
  }

  /** A check that was under way with old data puts the old answer back, and the next check serves it. */
  lemma FlightRevivesStaleAnswer(s: State, sweep: nat, scope: Scope, flight: nat) returns (run: seq<Event>)
    requires Inv(s) && sweep !in s.sweeps
    requires flight in s.flights && Covers(scope, s.flights[flight].q)
    requires s.flights[flight].at != [] && s.flights[flight].at[0] < Current(s)
    ensures var t := Step(s, Scan(sweep, scope));
            && Enabled(t, Delete(sweep, t.sweeps[sweep].found))
            && var u := Step(t, Delete(sweep, t.sweeps[sweep].found));
               Run(u, run) && !NoStaleHit(Exec(u, run), scope, Current(s), |u.answers|)
  {
    var t := Step(s, Scan(sweep, scope));
    StepKeepsInv(s, Scan(sweep, scope));
    var delete := Delete(sweep, t.sweeps[sweep].found);
    var u := Step(t, delete);
    StepKeepsInv(t, delete);
    var settle := CanSettle(u, flight);
    var v := Exec(u, settle);
    var last := StoreAndServe(v, flight, scope, Current(s));
    run := settle + last;
    RunThen(u, settle, last);
  }

  /** A settled check stores what it found, and the next one is served that. */
  lemma StoreAndServe(s: State, flight: nat, scope: Scope, e: nat) returns (run: seq<Event>)
    requires flight in s.flights && Settled(s, s.flights[flight]) && Covers(scope, s.flights[flight].q)
    requires s.flights[flight].at[0] < e
    ensures Run(s, run) && !NoStaleHit(Exec(s, run), scope, e, |s.answers|)
  {
    var q, reading := s.flights[flight].q, ReadingOf(s, s.flights[flight]);
    run := [Finish(flight, true), Hit(q)];
    var v := Step(s, run[0]);
    assert Cached(v, q);
    assert run[1..] == [Hit(q)] && [Hit(q)][1..] == [];
    var w := Step(v, Hit(q));
    assert Exec(s, run) == Exec(v, [Hit(q)]) == Exec(w, []);
    assert w.answers[|s.answers| + 1] == Answer(reading, s.now, s.now, true);
  }

  lemma {:induction false} RunThen(s: State, a: seq<Event>, b: seq<Event>)
    requires Run(s, a) && Run(Exec(s, a), b)
    ensures Run(s, a + b) && Exec(s, a + b) == Exec(Exec(s, a), b)
    decreases a
  {
    if a == [] {
      assert a + b == b;
    } else {
      assert (a + b)[0] == a[0] && (a + b)[1..] == a[1..] + b;
      RunThen(Step(s, a[0]), a[1..], b);
    }
  }

  /** Every check after the sweep's DEL is served data from epoch `e` on, or queries the database. */
  ghost predicate FinalAfter(t: State, sweep: nat, scope: Scope, e: nat) {
    forall during, keys, after :: Finality(t, sweep, scope, e, during, keys, after)
  }

  ghost predicate Finality(t: State, sweep: nat, scope: Scope, e: nat, during: seq<Event>, keys: set<string>,
                           after: seq<Event>)
  {
    Run(t, during) && StillSweeping(during, sweep) && Enabled(Exec(t, during), Delete(sweep, keys)) ==>
      var u := Step(Exec(t, during), Delete(sweep, keys));
      Run(u, after) ==> NoStaleHit(Exec(u, after), scope, e, |u.answers|)
  }

  /**
   * Whatever happens while an invalidation scans and after it has deleted, no check is
   * ever again served an answer of its scope that rests on permission data from before its
   * beginning, if and only if no check of the scope that had already queried such data was
   * under way when it began.
   */
  lemma InvalidationIsFinalIff(tables: Question -> PR.Tables, before: seq<Event>, sweep: nat, scope: Scope)
    requires Run(Init(tables), before) && Enabled(Exec(Init(tables), before), Scan(sweep, scope))
    ensures var s := Exec(Init(tables), before);
            FinalAfter(Step(s, Scan(sweep, scope)), sweep, scope, Current(s)) <==> !OldFlight(s, scope, Current(s))
  {
    InitInv(tables);
    RunKeepsInv(Init(tables), before, 0);
    var s := Exec(Init(tables), before);
    var t, e := Step(s, Scan(sweep, scope)), Current(s);
    if f :| f in s.flights && Covers(scope, s.flights[f].q) && s.flights[f].at != [] && s.flights[f].at[0] < e {
      var run := FlightRevivesStaleAnswer(s, sweep, scope, f);
      assert !Finality(t, sweep, scope, e, [], t.sweeps[sweep].found, run);
    } else {
      forall during, keys, after ensures Finality(t, sweep, scope, e, during, keys, after) {
        NoOldFlightIsFinal(s, sweep, scope, during, keys, after);
      }
    }
  }

  lemma NoOldFlightIsFinal(s: State, sweep: nat, scope: Scope, during: seq<Event>, keys: set<string>, after: seq<Event>)
    requires Inv(s) && sweep !in s.sweeps && !OldFlight(s, scope, Current(s))
    ensures Finality(Step(s, Scan(sweep, scope)), sweep, scope, Current(s), during, keys, after)
  {
    var t, e := Step(s, Scan(sweep, scope)), Current(s);
    if Run(t, during) && StillSweeping(during, sweep) && Enabled(Exec(t, during), Delete(sweep, keys)) {
      StepKeepsInv(s, Scan(sweep, scope));
      ScanFindsOldOnes(s, sweep, scope);
      SweepKnowsOldOnes(t, during, sweep, scope, e);
      var u := Step(Exec(t, during), Delete(sweep, keys));
      if Run(u, after) {
        FreshStaysFresh(u, after, scope, e, |u.answers|);
      }
    }
  }

  lemma ScanFindsOldOnes(s: State, sweep: nat, scope: Scope)
    requires Inv(s) && sweep !in s.sweeps
    ensures OldOnesIn(Step(s, Scan(sweep, scope)), scope, Current(s), Matching(s, scope))
  {
    forall key {:trigger s.cache[key]} | key in s.cache && Covers(scope, s.cache[key].reading.q)
      ensures key in Matching(s, scope)
    {
      var q := s.cache[key].reading.q;
      assert key == Key(q);
      PatternIsExact(scope, q.hub, q.channel, q.user, q.action);
    }
  }

  // ── The first check after an invalidation ──

  /** No check of q starts in the run. */
  ghost predicate NotAsked(run: seq<Event>, q: Question) {
    forall a :: a in run ==> !((a.Miss? || a.CacheDown?) && a.q == q)
  }

  ghost predicate NotInFlight(s: State, q: Question) {
    forall f {:trigger s.flights[f]} :: f in s.flights ==> s.flights[f].q != q
  }

  lemma {:induction false} NotStoredUnasked(s: State, run: seq<Event>, q: Question)
    requires Inv(s) && Run(s, run) && NotInFlight(s, q) && NotAsked(run, q)
    ensures Inv(Exec(s, run)) && NotInFlight(Exec(s, run), q)
    ensures Key(q) !in s.cache ==> Key(q) !in Exec(s, run).cache
    decreases run
  {
    if run != [] {
      assert run[0] in run;
      UnaskedStep(s, run[0], q);
      NotStoredUnasked(Step(s, run[0]), run[1..], q);
    }
  }

  lemma UnaskedStep(s: State, a: Event, q: Question)
    requires Inv(s) && Enabled(s, a) && NotInFlight(s, q) && !((a.Miss? || a.CacheDown?) && a.q == q)
    ensures Inv(Step(s, a)) && NotInFlight(Step(s, a), q)
    ensures Key(q) !in s.cache ==> Key(q) !in Step(s, a).cache
  {
    StepKeepsInv(s, a);
    if a.Finish? || a.Fail? {
      OtherKey(s, a.flight, q);
    }
  }

  lemma OtherKey(s: State, flight: nat, q: Question)
    requires NotInFlight(s, q) && flight in s.flights
    ensures Key(s.flights[flight].q) != Key(q)
  {
    var p := s.flights[flight].q;
    if Key(p) == Key(q) {
      KeysAreInjective(q.hub, q.channel, q.user, q.action, p.hub, p.channel, p.user, p.action);
    }
  }

  lemma UnaskedSweepStep(s: State, a: Event, q: Question, sweep: nat)
    requires Enabled(s, a) && NotInFlight(s, q)
    requires sweep in s.sweeps && !(a.Delete? && a.sweep == sweep)
    ensures sweep in Step(s, a).sweeps
    ensures Key(q) in s.sweeps[sweep].found ==> Key(q) in Step(s, a).sweeps[sweep].found
  {
    if a.Finish? || a.Fail? {
      OtherKey(s, a.flight, q);
    }
  }

  /** While q is not asked, a sweep keeps it in sight. */
  lemma {:induction false} SweepSees(s: State, run: seq<Event>, q: Question, sweep: nat)
    requires Inv(s) && Run(s, run) && NotInFlight(s, q) && NotAsked(run, q) && StillSweeping(run, sweep)
    requires sweep in s.sweeps && (Key(q) in s.cache ==> Key(q) in s.sweeps[sweep].found)
    ensures var t := Exec(s, run);
            Inv(t) && NotInFlight(t, q) && sweep in t.sweeps && (Key(q) in t.cache ==> Key(q) in t.sweeps[sweep].found)
    decreases run
  {
    if run != [] {
      assert run[0] in run;
      UnaskedStep(s, run[0], q);
      UnaskedSweepStep(s, run[0], q, sweep);
      SweepSees(Step(s, run[0]), run[1..], q, sweep);
    }
  }

  /** The check keeps its question, and its queries see epoch `e` or later ones. */
  lemma {:induction false} FlightQueriesSince(s: State, run: seq<Event>, flight: nat, e: nat)
    requires Run(s, run) && flight in s.flights && e <= Current(s)
    requires forall j :: 0 <= j < |s.flights[flight].at| ==> e <= s.flights[flight].at[j]
    requires forall a :: a in run ==> !((a.Finish? || a.Fail?) && a.flight == flight)
    ensures var t := Exec(s, run);
            && s.timeline <= t.timeline
            && flight in t.flights && t.flights[flight].q == s.flights[flight].q
            && forall j :: 0 <= j < |t.flights[flight].at| ==> e <= t.flights[flight].at[j]
    decreases run
  {
    if run != [] {
      assert run[0] in run;
      FlightQueriesSince(Step(s, run[0]), run[1..], flight, e);
    }
  }

  /** An invalidation of q's scope from its beginning in `s` to just after its DEL, q not being asked meanwhile. */
  ghost predicate Invalidated(s: State, sweep: nat, scope: Scope, during: seq<Event>, keys: set<string>, q: Question) {
    && Inv(s) && Covers(scope, q) && NotInFlight(s, q) && NotAsked(during, q)
    && sweep !in s.sweeps && StillSweeping(during, sweep)
    && Run(Step(s, Scan(sweep, scope)), during)
    && Enabled(Exec(Step(s, Scan(sweep, scope)), during), Delete(sweep, keys))
  }

  /** ... and the state it leaves. */
  ghost function Swept(s: State, sweep: nat, scope: Scope, during: seq<Event>, keys: set<string>, q: Question): State
    requires Invalidated(s, sweep, scope, during, keys, q)
  {
    Step(Exec(Step(s, Scan(sweep, scope)), during), Delete(sweep, keys))
  }

  lemma SweptAway(s: State, sweep: nat, scope: Scope, during: seq<Event>, keys: set<string>, q: Question)
    requires Invalidated(s, sweep, scope, during, keys, q)
    ensures var t := Swept(s, sweep, scope, during, keys, q);
            Inv(t) && NotInFlight(t, q) && Key(q) !in t.cache
  {
    PatternIsExact(scope, q.hub, q.channel, q.user, q.action);
    StepKeepsInv(s, Scan(sweep, scope));
    SweepSees(Step(s, Scan(sweep, scope)), during, q, sweep);
    StepKeepsInv(Exec(Step(s, Scan(sweep, scope)), during), Delete(sweep, keys));
  }

  /** A check of q begins as a cache miss in `u`, and its queries are done after `checking`. */
  ghost predicate Checks(u: State, q: Question, flight: nat, checking: seq<Event>) {
    && Enabled(u, Miss(flight, q)) && Run(Step(u, Miss(flight, q)), checking)
    && Enabled(Exec(Step(u, Miss(flight, q)), checking), Finish(flight, true))
    && forall a :: a in checking ==> !((a.Finish? || a.Fail?) && a.flight == flight)
  }

  /** What it then answers. */
  ghost function Outcome(u: State, q: Question, flight: nat, checking: seq<Event>): Reading
    requires Checks(u, q, flight, checking)
  {
    var v := Exec(Step(u, Miss(flight, q)), checking);
    ReadingOf(v, v.flights[flight])
  }

  /** It rests only on permission data in force since it began; without edits meanwhile it is the decision. */
  ghost predicate UpToDate(u: State, q: Question, flight: nat, checking: seq<Event>)
    requires Checks(u, q, flight, checking)
  {
    var v, r := Exec(Step(u, Miss(flight, q)), checking), Outcome(u, q, flight, checking);
    && r.q == q && r.seen.Some? && Current(u) <= r.seen.value.kindAt
    && Honest(r, v.now, v.timeline)
    && (v.timeline == u.timeline != [] ==> r.allowed == DecisionIn(u.timeline, Current(u), q))
  }

  lemma CheckIsUpToDate(u: State, q: Question, flight: nat, checking: seq<Event>)
    requires Inv(u) && Checks(u, q, flight, checking)
    ensures UpToDate(u, q, flight, checking)
  {
    var start := Step(u, Miss(flight, q));
    StepKeepsInv(u, Miss(flight, q));
    FlightQueriesSince(start, checking, flight, Current(u));
    RunKeepsInv(start, checking, 0);
    var v := Exec(start, checking);
    LandingIsHonest(v, Finish(flight, true));
    ReadSince(v, v.flights[flight], Current(u));
  }

  lemma ReadSince(v: State, f: Flight, e: nat)
    requires Settled(v, f) && forall j :: 0 <= j < |f.at| ==> e <= f.at[j]
    ensures e <= ReadingOf(v, f).seen.value.kindAt
    ensures |v.timeline| == e + 1 ==> ReadingOf(v, f).allowed == DecisionIn(v.timeline, e, f.q)
  {
    if |v.timeline| == e + 1 {
      PR.UndisturbedIsExact(Seen(v.timeline, f.q), PR.ReadsOf(f.at));
    }
  }

  /** Every answer that a check ends with is the reading that its queries add up to. */
  lemma FinishAnswersOutcome(v: State, flight: nat, stored: bool)
    requires Enabled(v, Finish(flight, stored))
    ensures var answers := Step(v, Finish(flight, stored)).answers;
            answers != [] && answers[|answers| - 1] == Answer(ReadingOf(v, v.flights[flight]), v.now, v.now, false)
  {
  }

  /**
   * The first check after an invalidation of its scope finds nothing cached, so it queries
   * the database, and what it answers in the end rests only on permission data in force
   * since it began. This is provided that the question was not being checked when the
   * invalidation began, nor asked while it ran.
   */
  lemma FirstCheckAfterInvalidation(s: State, sweep: nat, scope: Scope, during: seq<Event>, keys: set<string>,
                                    q: Question, between: seq<Event>)
    requires Invalidated(s, sweep, scope, during, keys, q)
    requires Run(Swept(s, sweep, scope, during, keys, q), between) && NotAsked(between, q)
    ensures var u := Exec(Swept(s, sweep, scope, during, keys, q), between);
            && !Cached(u, q)
            && forall flight, checking :: Checks(u, q, flight, checking) ==> UpToDate(u, q, flight, checking)
  {
    SweptAway(s, sweep, scope, during, keys, q);
    var t := Swept(s, sweep, scope, during, keys, q);
    NotStoredUnasked(t, between, q);
    var u := Exec(t, between);
    forall flight, checking | Checks(u, q, flight, checking) ensures UpToDate(u, q, flight, checking) {
      CheckIsUpToDate(u, q, flight, checking);
    }
  }
}
