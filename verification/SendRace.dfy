/**
 * Requests to send a message that overlap in time (services/chat/src/api.rs `send_message`).
 * Looking the client id up, writing the message, remembering its id and answering are
 * separate steps, and the steps of different requests interleave in any way. Redis may
 * leave a lookup or a SET EX unanswered, and the database may refuse the write.
 */
module SendRace {
  import opened Prelude
  import opened Idempotency

  /** A request that has passed the checks. `writes` tells whether its database write works. */
  datatype Post = Post(user: int, clientId: Option<string>, writes: bool)

  function PostKey(p: Post): Option<string> {
    if p.clientId.Some? then Some(Key(p.user, p.clientId.value)) else None
  }

  /** When the message id was stored under the key: at which step and second. */
  datatype Kept = Kept(step: nat, at: nat)

  /**
   * What is known of a request. `lookedUp` and `lookedAt` say when the key was looked up,
   * `heard` whether Redis replied then, and `kept` when it stored the id, if it did.
   */
  datatype Record = Record(
    post: Post,
    lookedUp: nat,
    lookedAt: nat,
    heard: bool,
    messageId: Option<nat>,
    triedToKeep: bool,
    kept: Option<Kept>,
    response: Option<Response>
  )

  datatype State = State(now: nat, steps: nat, idem: map<string, Remembered>, nextId: nat, records: map<nat, Record>)

  const Init := State(0, 0, map[], 0, map[])

  // ── Steps ──

  datatype Move =
    | Advance(seconds: nat)
    | Arrive(id: nat, post: Post, heard: bool)   // look the key up
    | Write(id: nat)
    | Keep(id: nat, heard: bool)                 // SET EX
    | Reply(id: nat)

  predicate Written(s: State, id: nat) {
    id in s.records && s.records[id].response == None && s.records[id].messageId.Some?
  }

  predicate Enabled(s: State, m: Move) {
    match m
    case Advance(_) => true
    case Arrive(id, _, _) => id !in s.records
    case Write(id) => id in s.records && s.records[id].response == None && s.records[id].messageId == None
    case Keep(id, _) => Written(s, id) && !s.records[id].triedToKeep
    case Reply(id) => Written(s, id) && s.records[id].triedToKeep
  }

  function Found(s: State, key: Option<string>, heard: bool): Option<nat> {
    if heard && key.Some? && key.value in s.idem && s.now < s.idem[key.value].expires
    then Some(s.idem[key.value].messageId) else None
  }

  function Arrived(s: State, post: Post, heard: bool): Record {
    var found := Found(s, PostKey(post), heard);
    Record(post, s.steps, s.now, heard, None, false, None, if found.Some? then Some(Duplicate(found.value)) else None)
  }

  function WriteStep(s: State, id: nat): State
    requires Enabled(s, Write(id))
  {
    var r := s.records[id];
    if r.post.writes then s.(nextId := s.nextId + 1, records := s.records[id := r.(messageId := Some(s.nextId))])
    else s.(records := s.records[id := r.(response := Some(ServerError))])
  }

  function KeepStep(s: State, id: nat, heard: bool): State
    requires Enabled(s, Keep(id, heard))
  {
    var r := s.records[id];
    var key := PostKey(r.post);
    if key.Some? && heard then
      s.(idem := s.idem[key.value := Remembered(r.messageId.value, s.now + IDEMPOTENCY_TTL)],
         records := s.records[id := r.(triedToKeep := true, kept := Some(Kept(s.steps, s.now)))])
    else s.(records := s.records[id := r.(triedToKeep := true)])
  }

  function Effect(s: State, m: Move): State
    requires Enabled(s, m)
  {
    match m
    case Advance(seconds) => s.(now := s.now + seconds)
    case Arrive(id, post, heard) => s.(records := s.records[id := Arrived(s, post, heard)])
    case Write(id) => WriteStep(s, id)
    case Keep(id, heard) => KeepStep(s, id, heard)
    case Reply(id) =>
      s.(records := s.records[id := s.records[id].(response := Some(Created(s.records[id].messageId.value)))])
  }

  function Step(s: State, m: Move): State
    requires Enabled(s, m)
  {
    Effect(s, m).(steps := s.steps + 1)
  }

  predicate Run(s: State, run: seq<Move>)
    decreases run
  {
    run == [] || (Enabled(s, run[0]) && Run(Step(s, run[0]), run[1..]))
  }

  function Exec(s: State, run: seq<Move>): State
    requires Run(s, run)
    decreases run
  {
    if run == [] then s else Exec(Step(s, run[0]), run[1..])
  }

  // ── Who knows of whom ──

  /** r's lookup comes after f's id was stored and within its day, and Redis replies to it. */
  predicate Aware(f: Record, r: Record) {
    r.heard && f.kept.Some? && f.kept.value.step < r.lookedUp && r.lookedAt < f.kept.value.at + 86_400
  }

  predicate OfKey(s: State, id: nat, key: string) {
    id in s.records && PostKey(s.records[id].post) == Some(key)
  }

  predicate IsDuplicate(r: Record) {
    r.response.Some? && r.response.value.Duplicate?
  }

  /** The steps of one request come in their order. */
  ghost predicate RecordOk(r: Record, s: State) {
    && r.lookedUp < s.steps && r.lookedAt <= s.now
    && (r.messageId.Some? ==> r.messageId.value < s.nextId && r.post.writes && !IsDuplicate(r))
    && (r.kept.Some? ==> r.messageId.Some? && r.triedToKeep)
    && (r.kept.Some? ==> r.lookedUp < r.kept.value.step < s.steps && r.kept.value.at <= s.now)
    && (r.triedToKeep ==> r.messageId.Some?)
    && match r.response
       case Some(Created(m)) => r.messageId == Some(m)
       case Some(ServerError) => !r.post.writes
       case Some(Duplicate(_)) => true
       case Some(_) => false
       case None => true
  }

  ghost predicate Distinct(s: State) {
    forall i, j {:trigger s.records[i], s.records[j]} :: i in s.records && j in s.records && i != j ==>
      && s.records[i].lookedUp != s.records[j].lookedUp
      && (s.records[i].messageId.Some? ==> s.records[i].messageId != s.records[j].messageId)
  }

  /** The entry under the key is what some request stored, and the youngest such entry. */
  ghost predicate EntryOk(s: State, key: string) {
    && (key in s.idem ==> exists f :: OfKey(s, f, key) && StoredBy(s.records[f], s.idem[key]))
    && (forall f {:trigger s.records[f]} :: OfKey(s, f, key) && s.records[f].kept.Some? ==>
          key in s.idem && s.records[f].kept.value.at + IDEMPOTENCY_TTL <= s.idem[key].expires)
  }

  predicate StoredBy(f: Record, entry: Remembered) {
    f.kept.Some? && f.messageId == Some(entry.messageId) && entry.expires == f.kept.value.at + IDEMPOTENCY_TTL
  }

  /** A duplicate is answered with the id of a request it is aware of. */
  ghost predicate DuplicateOk(s: State, key: string, id: nat)
    requires id in s.records
  {
    IsDuplicate(s.records[id]) ==>
      exists f :: OfKey(s, f, key) && Aware(s.records[f], s.records[id])
               && s.records[f].messageId == Some(s.records[id].response.value.messageId)
  }

  /** Whoever is aware of another request of the key is a duplicate. */
  ghost predicate AwareOk(s: State, key: string, f: nat, r: nat)
    requires f in s.records && r in s.records
  {
    OfKey(s, f, key) && OfKey(s, r, key) && Aware(s.records[f], s.records[r]) ==> IsDuplicate(s.records[r])
  }

  ghost predicate Inv(s: State, key: string) {
    && (forall id {:trigger s.records[id]} :: id in s.records ==> RecordOk(s.records[id], s))
    && Distinct(s)
    && EntryOk(s, key)
    && (forall id {:trigger s.records[id]} :: OfKey(s, id, key) ==> DuplicateOk(s, key, id))
    && (forall f, r {:trigger s.records[f], s.records[r]} :: f in s.records && r in s.records ==> AwareOk(s, key, f, r))
  }

  // ── Every step keeps this ──

  lemma StepKeepsRecords(s: State, m: Move, id: nat)
    requires Enabled(s, m) && id in Step(s, m).records
    requires id in s.records ==> RecordOk(s.records[id], s)
    ensures RecordOk(Step(s, m).records[id], Step(s, m))
  {
  }

  lemma StepKeepsDistinct(s: State, m: Move, key: string)
    requires Inv(s, key) && Enabled(s, m)
    ensures Distinct(Step(s, m))
  {
    var t := Step(s, m);
    forall i, j | i in t.records && j in t.records && i != j
      ensures t.records[i].lookedUp != t.records[j].lookedUp
      ensures t.records[i].messageId.Some? ==> t.records[i].messageId != t.records[j].messageId
    {
      assert i in s.records ==> RecordOk(s.records[i], s);
      assert j in s.records ==> RecordOk(s.records[j], s);
    }
  }

  lemma KeepKeepsEntry(s: State, id: nat, heard: bool, key: string)
    requires Inv(s, key) && Enabled(s, Keep(id, heard))
    ensures EntryOk(Step(s, Keep(id, heard)), key)
  {
    var t := Step(s, Keep(id, heard));
    if heard && PostKey(s.records[id].post) == Some(key) {
      assert OfKey(t, id, key) && StoredBy(t.records[id], t.idem[key]);
      forall f {:trigger t.records[f]} | OfKey(t, f, key) && t.records[f].kept.Some?
        ensures t.records[f].kept.value.at + IDEMPOTENCY_TTL <= t.idem[key].expires
      {
        assert f != id ==> RecordOk(s.records[f], s);
      }
    } else {
      SameEntry(s, Keep(id, heard), key);
    }
  }

  /** A step that leaves the entry and all stored ids of the key alone. */
  lemma SameEntry(s: State, m: Move, key: string)
    requires Inv(s, key) && Enabled(s, m)
    requires m.Keep? ==> !(m.heard && PostKey(s.records[m.id].post) == Some(key))
    ensures EntryOk(Step(s, m), key)
  {
    var t := Step(s, m);
    assert key in s.idem <==> key in t.idem;
    if key in s.idem {
      assert t.idem[key] == s.idem[key];
      var f :| OfKey(s, f, key) && StoredBy(s.records[f], s.idem[key]);
      SameStored(s, m, key, f);
      assert OfKey(t, f, key) && StoredBy(t.records[f], t.idem[key]);
    }
    forall f {:trigger t.records[f]} | OfKey(t, f, key) && t.records[f].kept.Some?
      ensures key in t.idem && t.records[f].kept.value.at + IDEMPOTENCY_TTL <= t.idem[key].expires
    {
      SameStored(s, m, key, f);
    }
  }

  lemma SameStored(s: State, m: Move, key: string, f: nat)
    requires Inv(s, key) && Enabled(s, m) && OfKey(Step(s, m), f, key)
    requires m.Keep? ==> !(m.heard && PostKey(s.records[m.id].post) == Some(key))
    ensures f !in s.records ==> Step(s, m).records[f].kept == None
    ensures f in s.records ==> OfKey(s, f, key) && Step(s, m).records[f].kept == s.records[f].kept
    ensures f in s.records && s.records[f].kept.Some? ==> Step(s, m).records[f].messageId == s.records[f].messageId
  {
    if f in s.records {
      assert RecordOk(s.records[f], s);
    }
  }

  /** What one request knows of another does not change once it has looked the key up. */
  lemma AwarenessStays(s: State, m: Move, key: string, f: nat, r: nat)
    requires Inv(s, key) && Enabled(s, m) && f in s.records && r in s.records
    ensures Aware(Step(s, m).records[f], Step(s, m).records[r]) <==> Aware(s.records[f], s.records[r])
    ensures PostKey(Step(s, m).records[f].post) == PostKey(s.records[f].post)
    ensures s.records[f].messageId.Some? ==> Step(s, m).records[f].messageId == s.records[f].messageId
    ensures IsDuplicate(s.records[r]) <==> IsDuplicate(Step(s, m).records[r])
    ensures IsDuplicate(s.records[r]) ==> Step(s, m).records[r].response == s.records[r].response
  {
    assert RecordOk(s.records[f], s) && RecordOk(s.records[r], s);
  }

  lemma ArrivalIsDuplicateIffAware(s: State, post: Post, heard: bool, key: string)
    requires Inv(s, key) && PostKey(post) == Some(key)
    ensures var r := Arrived(s, post, heard);
            && (forall f {:trigger s.records[f]} :: OfKey(s, f, key) && Aware(s.records[f], r) ==> IsDuplicate(r))
            && (IsDuplicate(r) ==>
                  exists f :: OfKey(s, f, key) && Aware(s.records[f], r)
                    && s.records[f].messageId == Some(r.response.value.messageId))
  {
    var r := Arrived(s, post, heard);
    if IsDuplicate(r) {
      var f :| OfKey(s, f, key) && StoredBy(s.records[f], s.idem[key]);
      assert RecordOk(s.records[f], s);
      assert Aware(s.records[f], r);
    }
  }

  lemma StepKeepsDuplicate(s: State, m: Move, key: string, id: nat)
    requires Inv(s, key) && Enabled(s, m) && OfKey(Step(s, m), id, key)
    ensures DuplicateOk(Step(s, m), key, id)
  {
    var t := Step(s, m);
    if id !in s.records {
      ArrivalIsDuplicateIffAware(s, m.post, m.heard, key);
      if IsDuplicate(t.records[id]) {
        var f :| OfKey(s, f, key) && Aware(s.records[f], t.records[id])
            && s.records[f].messageId == Some(t.records[id].response.value.messageId);
        assert OfKey(t, f, key);
      }
    } else {
      AwarenessStays(s, m, key, id, id);
      if IsDuplicate(s.records[id]) {
        var f :| OfKey(s, f, key) && Aware(s.records[f], s.records[id])
            && s.records[f].messageId == Some(s.records[id].response.value.messageId);
        AwarenessStays(s, m, key, f, id);
        assert OfKey(t, f, key);
      }
    }
  }

  lemma StepKeepsAware(s: State, m: Move, key: string, f: nat, r: nat)
    requires Inv(s, key) && Enabled(s, m) && f in Step(s, m).records && r in Step(s, m).records
    ensures AwareOk(Step(s, m), key, f, r)
  {
    if OfKey(Step(s, m), f, key) && OfKey(Step(s, m), r, key) {
      if f in s.records && r in s.records {
        AwarenessStays(s, m, key, f, r);
        assert AwareOk(s, key, f, r);
      } else if f in s.records {
        ArrivalIsDuplicateIffAware(s, m.post, m.heard, key);
      }
    }
  }

  lemma StepKeepsInv(s: State, m: Move, key: string)
    requires Inv(s, key) && Enabled(s, m)
    ensures Inv(Step(s, m), key)
  {
    var t := Step(s, m);
    forall id | id in t.records ensures RecordOk(t.records[id], t) {
      StepKeepsRecords(s, m, id);
    }
    StepKeepsDistinct(s, m, key);
    if m.Keep? {
      KeepKeepsEntry(s, m.id, m.heard, key);
    } else {
      SameEntry(s, m, key);
    }
    forall id | OfKey(t, id, key) ensures DuplicateOk(t, key, id) {
      StepKeepsDuplicate(s, m, key, id);
    }
    forall f, r | f in t.records && r in t.records ensures AwareOk(t, key, f, r) {
      StepKeepsAware(s, m, key, f, r);
    }
  }

  lemma {:induction false} RunKeepsInv(s: State, run: seq<Move>, key: string)
    requires Inv(s, key) && Run(s, run)
    ensures Inv(Exec(s, run), key)
    decreases run
  {
    if run != [] {
      StepKeepsInv(s, run[0], key);
      RunKeepsInv(Step(s, run[0]), run[1..], key);
    }
  }

  lemma InitInv(key: string)
    ensures Inv(Init, key)
  {
    assert forall id :: !OfKey(Init, id, key);
  }

  // ── Main results ──

  ghost predicate AllAnswered(s: State) {
    forall id {:trigger s.records[id]} :: id in s.records ==> s.records[id].response.Some?
  }

  predicate Succeeded(s: State, id: nat, key: string) {
    OfKey(s, id, key) && s.records[id].response.Some? && Success(s.records[id].response.value)
  }

  /** All successful responses for the key carry the same message id. */
  ghost predicate OneMessage(s: State, key: string) {
    forall i, j {:trigger s.records[i], s.records[j]} :: Succeeded(s, i, key) && Succeeded(s, j, key) ==>
      s.records[i].response.value.messageId == s.records[j].response.value.messageId
  }

  /** `first` looked the key up before all other requests of the key whose write works. */
  ghost predicate FirstWriter(s: State, first: nat, key: string) {
    && OfKey(s, first, key) && s.records[first].post.writes
    && forall r {:trigger s.records[r]} :: OfKey(s, r, key) && s.records[r].post.writes && r != first ==>
         s.records[first].lookedUp < s.records[r].lookedUp
  }

  lemma FirstWriterCreates(s: State, first: nat, key: string)
    requires Inv(s, key) && FirstWriter(s, first, key) && AllAnswered(s)
    ensures s.records[first].response.Some? && s.records[first].response.value.Created?
    ensures s.records[first].messageId == Some(s.records[first].response.value.messageId)
  {
    assert RecordOk(s.records[first], s);
    if IsDuplicate(s.records[first]) {
      DuplicateHasEarlierWriter(s, key, first);
    }
  }

  lemma DuplicateHasEarlierWriter(s: State, key: string, id: nat)
    requires Inv(s, key) && OfKey(s, id, key) && IsDuplicate(s.records[id])
    ensures exists f :: OfKey(s, f, key) && s.records[f].post.writes && s.records[f].lookedUp < s.records[id].lookedUp
  {
    assert DuplicateOk(s, key, id);
    var f :| OfKey(s, f, key) && Aware(s.records[f], s.records[id]);
    assert RecordOk(s.records[f], s);
  }

  /** If every other writer is aware of the first one, its message is the only one. */
  lemma AwareOfFirstIsOneMessage(s: State, first: nat, key: string, r: nat)
    requires Inv(s, key) && FirstWriter(s, first, key) && AllAnswered(s) && Succeeded(s, r, key)
    requires forall w {:trigger s.records[w]} :: OfKey(s, w, key) && s.records[w].post.writes && w != first ==>
               Aware(s.records[first], s.records[w])
    ensures s.records[first].messageId == Some(s.records[r].response.value.messageId)
  {
    FirstWriterCreates(s, first, key);
    assert RecordOk(s.records[r], s);
    var w := r;
    if IsDuplicate(s.records[r]) {
      assert DuplicateOk(s, key, r);
      w :| OfKey(s, w, key) && Aware(s.records[w], s.records[r])
        && s.records[w].messageId == Some(s.records[r].response.value.messageId);
      assert RecordOk(s.records[w], s);
    }
    assert AwareOk(s, key, first, w);
  }

  /** A writer that is not aware of the first one ends up with another id. */
  lemma UnawareGetsAnother(s: State, first: nat, key: string, w: nat)
    requires Inv(s, key) && FirstWriter(s, first, key) && AllAnswered(s)
    requires OfKey(s, w, key) && s.records[w].post.writes && w != first && !Aware(s.records[first], s.records[w])
    ensures Succeeded(s, w, key) && s.records[first].messageId != Some(s.records[w].response.value.messageId)
  {
    assert RecordOk(s.records[w], s) && s.records[w].response.Some?;
    FirstWriterCreates(s, first, key);
    if IsDuplicate(s.records[w]) {
      assert DuplicateOk(s, key, w);
      var f :| OfKey(s, f, key) && Aware(s.records[f], s.records[w])
          && s.records[f].messageId == Some(s.records[w].response.value.messageId);
      assert f != first;
    }
  }

  /**
   * Over every interleaving, once all requests are answered: the successful responses for
   * one user and client id carry one message id if and only if every request that can
   * write, other than the first to look the key up, does so after the first one's id has
   * been stored, within 86400 s of that, and gets a reply from Redis.
   */
  lemma OneMessageIff(run: seq<Move>, key: string, first: nat)
    requires Run(Init, run) && AllAnswered(Exec(Init, run)) && FirstWriter(Exec(Init, run), first, key)
    ensures var s := Exec(Init, run);
            OneMessage(s, key)
            <==> forall w {:trigger s.records[w]} :: OfKey(s, w, key) && s.records[w].post.writes && w != first ==>
                   Aware(s.records[first], s.records[w])
  {
    InitInv(key);
    RunKeepsInv(Init, run, key);
    var s := Exec(Init, run);
    FirstWriterCreates(s, first, key);
    if w :| OfKey(s, w, key) && s.records[w].post.writes && w != first && !Aware(s.records[first], s.records[w]) {
      UnawareGetsAnother(s, first, key, w);
      assert Succeeded(s, first, key);
    } else {
      forall i | Succeeded(s, i, key)
        ensures s.records[first].messageId == Some(s.records[i].response.value.messageId)
      {
        AwareOfFirstIsOneMessage(s, first, key, i);
      }
    }
  }

  /** Without a request that can write there is no successful response. */
  lemma NoWriterNoSuccess(run: seq<Move>, key: string, id: nat)
    requires Run(Init, run) && Succeeded(Exec(Init, run), id, key)
    ensures exists w :: OfKey(Exec(Init, run), w, key) && Exec(Init, run).records[w].post.writes
  {
    InitInv(key);
    RunKeepsInv(Init, run, key);
    var s := Exec(Init, run);
    assert RecordOk(s.records[id], s);
    if IsDuplicate(s.records[id]) {
      DuplicateHasEarlierWriter(s, key, id);
    }
  }

  // ── Which request an answer comes from ──

  /** Stored ids have different steps, and the entry under the key is the one stored last. */
  ghost predicate StoredLast(s: State, key: string, f: nat, g: nat)
    requires f in s.records && g in s.records
  {
    var a, b := s.records[f], s.records[g];
    OfKey(s, f, key) && OfKey(s, g, key) && a.kept.Some? && b.kept.Some? ==>
      && (f != g ==> a.kept.value.step != b.kept.value.step)
      && (key in s.idem && a.messageId == Some(s.idem[key].messageId) ==> b.kept.value.step <= a.kept.value.step)
  }

  /** A duplicate carries the id that was stored last before its lookup. */
  ghost predicate FromLast(s: State, key: string, r: nat, f: nat, g: nat)
    requires r in s.records && f in s.records && g in s.records
  {
    var d, a, b := s.records[r], s.records[f], s.records[g];
    (OfKey(s, r, key) && OfKey(s, f, key) && OfKey(s, g, key) && IsDuplicate(d)
     && a.messageId == Some(d.response.value.messageId) && b.kept.Some? && b.kept.value.step < d.lookedUp) ==>
      a.kept.Some? && b.kept.value.step <= a.kept.value.step
  }

  ghost predicate Ordered(s: State, key: string) {
    && (forall f, g {:trigger s.records[f], s.records[g]} ::
          f in s.records && g in s.records ==> StoredLast(s, key, f, g))
    && (forall r, f, g {:trigger s.records[r], s.records[f], s.records[g]} ::
          r in s.records && f in s.records && g in s.records ==> FromLast(s, key, r, f, g))
  }

  lemma SameOwner(s: State, i: nat, j: nat)
    requires Distinct(s) && i in s.records && j in s.records
    requires s.records[i].messageId.Some? && s.records[i].messageId == s.records[j].messageId
    ensures i == j
  {
  }

  /** The entry's message id belongs to one request, which stored it. */
  lemma EntryHasOwner(s: State, key: string, f: nat)
    requires Inv(s, key) && key in s.idem && OfKey(s, f, key) && s.records[f].messageId == Some(s.idem[key].messageId)
    ensures s.records[f].kept.Some?
  {
    var owner :| OfKey(s, owner, key) && StoredBy(s.records[owner], s.idem[key]);
    SameOwner(s, owner, f);
  }

  /** So does the id of a duplicate, and its owner stored it before. */
  lemma DuplicateHasOwner(s: State, key: string, r: nat, f: nat)
    requires Inv(s, key) && OfKey(s, r, key) && OfKey(s, f, key) && IsDuplicate(s.records[r])
    requires s.records[f].messageId == Some(s.records[r].response.value.messageId)
    ensures Aware(s.records[f], s.records[r])
  {
    assert DuplicateOk(s, key, r);
    var owner :| OfKey(s, owner, key) && Aware(s.records[owner], s.records[r])
      && s.records[owner].messageId == Some(s.records[r].response.value.messageId);
    SameOwner(s, owner, f);
  }

  /** What a step does to the stored ids. */
  lemma StoredIds(s: State, m: Move, key: string, f: nat)
    requires Inv(s, key) && Enabled(s, m) && f in Step(s, m).records && Step(s, m).records[f].kept.Some?
    ensures f in s.records
    ensures s.records[f].kept.Some? ==>
              Step(s, m).records[f].kept == s.records[f].kept && s.records[f].kept.value.step < s.steps
    ensures s.records[f].kept.None? ==> m.Keep? && m.id == f && Step(s, m).records[f].kept.value.step == s.steps
    ensures Step(s, m).records[f].messageId == s.records[f].messageId
  {
    assert f in s.records;
    assert RecordOk(s.records[f], s);
  }

  lemma KeepIsLast(s: State, id: nat, heard: bool, key: string, f: nat, g: nat)
    requires Inv(s, key) && Enabled(s, Keep(id, heard)) && heard && PostKey(s.records[id].post) == Some(key)
    requires f in s.records && g in s.records
    requires var t := Step(s, Keep(id, heard));
             t.records[f].kept.Some? && t.records[g].kept.Some? && t.records[f].messageId == Some(t.idem[key].messageId)
    ensures var t := Step(s, Keep(id, heard));
            t.records[g].kept.value.step <= t.records[f].kept.value.step
  {
    StoredIds(s, Keep(id, heard), key, f);
    StoredIds(s, Keep(id, heard), key, g);
    SameOwner(s, f, id);
  }

  lemma NoKeepSameLast(s: State, m: Move, key: string, f: nat, g: nat)
    requires Inv(s, key) && Ordered(s, key) && Enabled(s, m)
    requires m.Keep? ==> !(m.heard && PostKey(s.records[m.id].post) == Some(key))
    requires OfKey(Step(s, m), f, key) && OfKey(Step(s, m), g, key)
    ensures StoredLast(Step(s, m), key, f, g)
  {
    SameStored(s, m, key, f);
    SameStored(s, m, key, g);
    SameIdem(s, m, key);
    if f in s.records && g in s.records {
      UseStoredLast(s, key, f, g);
    }
  }

  lemma SameIdem(s: State, m: Move, key: string)
    requires Enabled(s, m)
    requires m.Keep? ==> !(m.heard && PostKey(s.records[m.id].post) == Some(key))
    ensures key in Step(s, m).idem ==> key in s.idem && Step(s, m).idem[key] == s.idem[key]
  {
  }

  lemma UseStoredLast(s: State, key: string, f: nat, g: nat)
    requires Ordered(s, key) && f in s.records && g in s.records
    ensures StoredLast(s, key, f, g)
  {
  }

  /** Ids stored at different steps so far, or one of them just now. */
  lemma KeepSteps(s: State, id: nat, heard: bool, key: string, f: nat, g: nat)
    requires Inv(s, key) && Ordered(s, key) && Enabled(s, Keep(id, heard))
    requires OfKey(s, f, key) && OfKey(s, g, key) && f != g
    requires var t := Step(s, Keep(id, heard));
             t.records[f].kept.Some? && t.records[g].kept.Some?
    ensures var t := Step(s, Keep(id, heard));
            t.records[f].kept.value.step != t.records[g].kept.value.step
  {
    assert RecordOk(s.records[f], s) && RecordOk(s.records[g], s);
    assert StoredLast(s, key, f, g);
  }

  lemma StepKeepsStoredLast(s: State, m: Move, key: string, f: nat, g: nat)
    requires Inv(s, key) && Ordered(s, key) && Enabled(s, m) && f in Step(s, m).records && g in Step(s, m).records
    ensures StoredLast(Step(s, m), key, f, g)
  {
    var t := Step(s, m);
    if OfKey(t, f, key) && OfKey(t, g, key) && t.records[f].kept.Some? && t.records[g].kept.Some? {
      if m.Keep? && m.heard && PostKey(s.records[m.id].post) == Some(key) {
        if f != g {
          KeepSteps(s, m.id, m.heard, key, f, g);
        }
        if t.records[f].messageId == Some(t.idem[key].messageId) {
          KeepIsLast(s, m.id, m.heard, key, f, g);
        }
      } else {
        NoKeepSameLast(s, m, key, f, g);
      }
    }
  }

  /** A request that finds the entry finds what was stored last. */
  lemma ArrivalFromLast(s: State, m: Move, key: string, f: nat, g: nat)
    requires Inv(s, key) && Ordered(s, key) && m.Arrive? && Enabled(s, m) && PostKey(m.post) == Some(key)
    requires OfKey(s, f, key) && OfKey(s, g, key) && s.records[g].kept.Some?
    requires IsDuplicate(Arrived(s, m.post, m.heard))
    requires s.records[f].messageId == Some(Arrived(s, m.post, m.heard).response.value.messageId)
    ensures s.records[f].kept.Some? && s.records[g].kept.value.step <= s.records[f].kept.value.step
  {
    EntryHasOwner(s, key, f);
    assert StoredLast(s, key, f, g);
  }

  lemma OldFromLast(s: State, m: Move, key: string, r: nat, f: nat, g: nat)
    requires Inv(s, key) && Ordered(s, key) && Enabled(s, m) && r in s.records
    requires OfKey(Step(s, m), r, key) && OfKey(Step(s, m), f, key) && IsDuplicate(Step(s, m).records[r])
    requires Step(s, m).records[f].messageId == Some(Step(s, m).records[r].response.value.messageId)
    requires OfKey(Step(s, m), g, key) && Step(s, m).records[g].kept.Some?
    requires Step(s, m).records[g].kept.value.step < Step(s, m).records[r].lookedUp
    ensures Step(s, m).records[f].kept.Some?
    ensures Step(s, m).records[g].kept.value.step <= Step(s, m).records[f].kept.value.step
  {
    OldDuplicate(s, m, key, r, f);
    StoredBefore(s, m, key, r, g);
    UseFromLast(s, key, r, f, g);
  }

  lemma UseFromLast(s: State, key: string, r: nat, f: nat, g: nat)
    requires Ordered(s, key) && OfKey(s, r, key) && OfKey(s, f, key) && OfKey(s, g, key) && IsDuplicate(s.records[r])
    requires s.records[f].messageId == Some(s.records[r].response.value.messageId)
    requires s.records[g].kept.Some? && s.records[g].kept.value.step < s.records[r].lookedUp
    ensures s.records[f].kept.Some? && s.records[g].kept.value.step <= s.records[f].kept.value.step
  {
    assert FromLast(s, key, r, f, g);
  }

  /** What had been stored before an earlier lookup was stored before this step. */
  lemma StoredBefore(s: State, m: Move, key: string, r: nat, g: nat)
    requires Inv(s, key) && Enabled(s, m) && r in s.records
    requires OfKey(Step(s, m), g, key) && Step(s, m).records[g].kept.Some?
    requires Step(s, m).records[g].kept.value.step < s.records[r].lookedUp
    ensures OfKey(s, g, key) && s.records[g].kept == Step(s, m).records[g].kept
  {
    StoredIds(s, m, key, g);
    assert RecordOk(s.records[r], s);
  }

  lemma StepKeepsFromLast(s: State, m: Move, key: string, r: nat, f: nat, g: nat)
    requires Inv(s, key) && Ordered(s, key) && Enabled(s, m)
    requires r in Step(s, m).records && f in Step(s, m).records && g in Step(s, m).records
    ensures FromLast(Step(s, m), key, r, f, g)
  {
    var t := Step(s, m);
    if OfKey(t, r, key) && OfKey(t, f, key) && OfKey(t, g, key) && IsDuplicate(t.records[r])
       && t.records[f].messageId == Some(t.records[r].response.value.messageId)
       && t.records[g].kept.Some? && t.records[g].kept.value.step < t.records[r].lookedUp {
      if r in s.records {
        OldFromLast(s, m, key, r, f, g);
      } else {
        ArrivalFromLast(s, m, key, f, g);
      }
    }
  }

  /** An earlier duplicate's id was not written just now. */
  lemma OldDuplicate(s: State, m: Move, key: string, r: nat, f: nat)
    requires Inv(s, key) && Enabled(s, m) && r in s.records && f in Step(s, m).records
    requires OfKey(Step(s, m), r, key) && OfKey(Step(s, m), f, key) && IsDuplicate(Step(s, m).records[r])
    requires Step(s, m).records[f].messageId == Some(Step(s, m).records[r].response.value.messageId)
    ensures f in s.records && OfKey(s, r, key) && OfKey(s, f, key) && IsDuplicate(s.records[r])
    ensures s.records[r].response == Step(s, m).records[r].response
    ensures s.records[r].lookedUp == Step(s, m).records[r].lookedUp
    ensures s.records[f].messageId == Step(s, m).records[f].messageId && s.records[f].kept == Step(s, m).records[f].kept
    ensures s.records[f].kept.Some?
  {
    AwarenessStays(s, m, key, r, r);
    assert DuplicateOk(s, key, r);
    var owner :| OfKey(s, owner, key) && Aware(s.records[owner], s.records[r])
      && s.records[owner].messageId == Some(s.records[r].response.value.messageId);
    assert RecordOk(s.records[owner], s);
    StepKeepsDistinct(s, m, key);
    AwarenessStays(s, m, key, owner, r);
    SameOwner(Step(s, m), owner, f);
  }

  lemma {:induction false} RunKeepsOrder(s: State, run: seq<Move>, key: string)
    requires Inv(s, key) && Ordered(s, key) && Run(s, run)
    ensures Ordered(Exec(s, run), key)
    decreases run
  {
    if run != [] {
      var t := Step(s, run[0]);
      forall f, g | f in t.records && g in t.records ensures StoredLast(t, key, f, g) {
        StepKeepsStoredLast(s, run[0], key, f, g);
      }
      forall r, f, g | r in t.records && f in t.records && g in t.records ensures FromLast(t, key, r, f, g) {
        StepKeepsFromLast(s, run[0], key, r, f, g);
      }
      StepKeepsInv(s, run[0], key);
      RunKeepsOrder(t, run[1..], key);
    }
  }

  /**
   * Request f is where the answer to r comes from, judged by times alone: the request of
   * the key that was last to store its id before r looked up, if r can find such an id, and
   * otherwise r itself.
   */
  ghost predicate Source(s: State, key: string, f: nat, r: nat) {
    && OfKey(s, f, key) && OfKey(s, r, key)
    && if exists g :: OfKey(s, g, key) && Aware(s.records[g], s.records[r]) then
         && s.records[f].kept.Some? && s.records[f].kept.value.step < s.records[r].lookedUp
         && forall g {:trigger s.records[g]} ::
              OfKey(s, g, key) && s.records[g].kept.Some? && s.records[g].kept.value.step < s.records[r].lookedUp ==>
              s.records[g].kept.value.step <= s.records[f].kept.value.step
       else f == r
  }

  lemma AnswerComesFromSource(s: State, key: string, f: nat, r: nat)
    requires Inv(s, key) && Ordered(s, key) && Succeeded(s, r, key) && Source(s, key, f, r)
    ensures s.records[f].messageId == Some(s.records[r].response.value.messageId)
  {
    assert RecordOk(s.records[r], s);
    if IsDuplicate(s.records[r]) {
      assert DuplicateOk(s, key, r);
      var owner :| OfKey(s, owner, key) && Aware(s.records[owner], s.records[r])
        && s.records[owner].messageId == Some(s.records[r].response.value.messageId);
      assert FromLast(s, key, r, owner, f);
      assert StoredLast(s, key, owner, f);
    } else {
      assert forall g :: OfKey(s, g, key) ==> AwareOk(s, key, g, r);
    }
  }

  /** Every successful answer has a source. */
  lemma SourceExists(s: State, key: string, r: nat) returns (f: nat)
    requires Inv(s, key) && Ordered(s, key) && Succeeded(s, r, key)
    ensures Source(s, key, f, r)
  {
    assert RecordOk(s.records[r], s);
    if IsDuplicate(s.records[r]) {
      assert DuplicateOk(s, key, r);
      f :| OfKey(s, f, key) && Aware(s.records[f], s.records[r])
        && s.records[f].messageId == Some(s.records[r].response.value.messageId);
      forall g {:trigger s.records[g]} |
        OfKey(s, g, key) && s.records[g].kept.Some? && s.records[g].kept.value.step < s.records[r].lookedUp
        ensures s.records[g].kept.value.step <= s.records[f].kept.value.step
      {
        assert FromLast(s, key, r, f, g);
      }
    } else {
      assert forall g :: OfKey(s, g, key) ==> AwareOk(s, key, g, r);
      f := r;
    }
  }

  /** Answers that come from one request carry one id, and the other way round. */
  lemma SameSourceSameMessage(s: State, key: string, i: nat, j: nat, f: nat, g: nat)
    requires Inv(s, key) && Ordered(s, key) && Succeeded(s, i, key) && Succeeded(s, j, key)
    requires Source(s, key, f, i) && Source(s, key, g, j)
    ensures f == g <==> s.records[i].response.value.messageId == s.records[j].response.value.messageId
  {
    AnswerComesFromSource(s, key, f, i);
    AnswerComesFromSource(s, key, g, j);
    if s.records[i].response.value.messageId == s.records[j].response.value.messageId {
      SameOwner(s, f, g);
    }
  }

  /** All successful answers so far come from one request. */
  ghost predicate OneSource(s: State, key: string) {
    forall i, j, f, g {:trigger Source(s, key, f, i), Source(s, key, g, j)} ::
      Succeeded(s, i, key) && Succeeded(s, j, key) && Source(s, key, f, i) && Source(s, key, g, j) ==> f == g
  }

  /**
   * Over every interleaving, answered or not, with requests dropped at any point: the
   * successful responses for a user and client id so far carry one message id if and only
   * if they all come from the same request.
   */
  lemma OneSourceIff(run: seq<Move>, key: string)
    requires Run(Init, run)
    ensures OneMessage(Exec(Init, run), key) <==> OneSource(Exec(Init, run), key)
  {
    InitInv(key);
    RunKeepsInv(Init, run, key);
    RunKeepsOrder(Init, run, key);
    var s := Exec(Init, run);
    if OneMessage(s, key) {
      forall i: nat, j: nat, f: nat, g: nat |
        Succeeded(s, i, key) && Succeeded(s, j, key) && Source(s, key, f, i) && Source(s, key, g, j)
        ensures f == g
      {
        SameSourceSameMessage(s, key, i, j, f, g);
      }
    }
    if OneSource(s, key) {
      forall i: nat, j: nat | Succeeded(s, i, key) && Succeeded(s, j, key)
        ensures s.records[i].response.value.messageId == s.records[j].response.value.messageId
      {
        var f := SourceExists(s, key, i);
        var g := SourceExists(s, key, j);
        SameSourceSameMessage(s, key, i, j, f, g);
      }
    }
  }

  /** What a request does after its lookup. */
  function Finishing(id: nat): seq<Move> {
    [Write(id), Keep(id, true), Reply(id)]
  }

  lemma RunCons(s: State, m: Move, rest: seq<Move>)
    requires Enabled(s, m) && Run(Step(s, m), rest)
    ensures Run(s, [m] + rest) && Exec(s, [m] + rest) == Exec(Step(s, m), rest)
  {
    assert ([m] + rest)[1..] == rest;
  }

  /** A request that has looked up in vain and can write is answered with a new message. */
  lemma FinishingCreates(s: State, id: nat, rest: seq<Move>) returns (t: State)
    requires id in s.records && s.records[id].response == None && s.records[id].messageId == None
    requires s.records[id].post.writes && s.records[id].post.clientId.Some? && !s.records[id].triedToKeep
    ensures t.nextId == s.nextId + 1
    ensures t.records == s.records[id := s.records[id].(messageId := Some(s.nextId), triedToKeep := true,
                                                        kept := Some(Kept(s.steps + 1, s.now)),
                                                        response := Some(Created(s.nextId)))]
    ensures t.now == s.now
    ensures t.idem == s.idem[PostKey(s.records[id].post).value := Remembered(s.nextId, s.now + 86_400)]
    ensures Run(t, rest) ==> Run(s, Finishing(id) + rest) && Exec(s, Finishing(id) + rest) == Exec(t, rest)
  {
    var s1 := Step(s, Write(id));
    var s2 := Step(s1, Keep(id, true));
    t := Step(s2, Reply(id));
    if Run(t, rest) {
      RunCons(s2, Reply(id), rest);
      RunCons(s1, Keep(id, true), [Reply(id)] + rest);
      RunCons(s, Write(id), [Keep(id, true)] + ([Reply(id)] + rest));
      assert Finishing(id) + rest == [Write(id)] + ([Keep(id, true)] + ([Reply(id)] + rest));
    }
  }

  /** Two requests of one user and client id that both look up before either stores: two messages. */
  lemma OverlapSendsTwice(user: int, clientId: string) returns (run: seq<Move>)
    ensures Run(Init, run)
    ensures var s := Exec(Init, run);
            && AllAnswered(s) && !OneMessage(s, Key(user, clientId))
            && FirstWriter(s, 0, Key(user, clientId)) && OfKey(s, 1, Key(user, clientId))
  {
    var post := Post(user, Some(clientId), true);
    var s1 := Step(Init, Arrive(0, post, true));
    var s2 := Step(s1, Arrive(1, post, true));
    var t := FinishingCreates(s2, 0, Finishing(1) + []);
    var u := FinishingCreates(t, 1, []);
    RunCons(s1, Arrive(1, post, true), Finishing(0) + (Finishing(1) + []));
    RunCons(Init, Arrive(0, post, true), [Arrive(1, post, true)] + (Finishing(0) + (Finishing(1) + [])));
    run := [Arrive(0, post, true)] + ([Arrive(1, post, true)] + (Finishing(0) + (Finishing(1) + [])));
    assert Succeeded(u, 0, Key(user, clientId)) && Succeeded(u, 1, Key(user, clientId));
  }

  /** One request goes through, some time passes, and another one looks up. */
  function InTurn(a: nat, b: nat, post: Post, seconds: nat): seq<Move> {
    [Arrive(a, post, true)] + (Finishing(a) + ([Advance(seconds)] + [Arrive(b, post, true)]))
  }

  /**
   * From any state in which the key is free: a request that is through before the next one
   * of its user and client id looks up, with Redis answering both and within 86400 s, is
   * the only one that creates a message.
   */
  lemma InTurnSendsOnce(s: State, a: nat, b: nat, user: int, clientId: string, seconds: nat)
    requires a != b && a !in s.records && b !in s.records && seconds < 86_400
    requires Key(user, clientId) in s.idem ==> s.idem[Key(user, clientId)].expires <= s.now
    ensures var post := Post(user, Some(clientId), true);
            var run := InTurn(a, b, post, seconds);
            && Run(s, run) && a in Exec(s, run).records && b in Exec(s, run).records
            && Exec(s, run).records[a].response == Some(Created(s.nextId))
            && Exec(s, run).records[b].response == Some(Duplicate(s.nextId))
  {
    var post := Post(user, Some(clientId), true);
    var s1 := Step(s, Arrive(a, post, true));
    var rest := [Advance(seconds)] + [Arrive(b, post, true)];
    var t := FinishingCreates(s1, a, rest);
    var u := Step(t, Advance(seconds));
    RunCons(u, Arrive(b, post, true), []);
    assert [Arrive(b, post, true)] + [] == [Arrive(b, post, true)];
    RunCons(t, Advance(seconds), [Arrive(b, post, true)]);
    RunCons(s, Arrive(a, post, true), Finishing(a) + rest);
  }
}
