/**
 * One channel's optimistic message list (frontend/contexts/chat-context.tsx).
 *
 * Besides the local invariants, this module proves what the move-to-the-end rules are for:
 * erase the optimistic entries, and the sender sees exactly what every reader sees, in
 * the same order.
 */
module MessageList {
  import opened Prelude

  datatype Status = Confirmed | Sending | Failed

  /** `bucket` is 0 for a locally fabricated entry and positive for one from the server. */
  datatype Message = Message(id: int, clientId: Option<string>, content: string, bucket: nat, status: Status)

  type List = seq<Message>

  // ── The state updaters ──

  /** `list.findIndex(m => m.client_id === cid)`, with |list| for "not found". */
  function FindIndex(list: List, cid: string): nat {
    if list == [] || list[0].clientId == Some(cid) then 0 else 1 + FindIndex(list[1..], cid)
  }

  function RemoveAt(list: List, i: nat): List
    requires i < |list|
  {
    list[..i] + list[i + 1..]
  }

  function Append(list: List, m: Message): List {
    list + [m]
  }

  /** `message.new`: an entry with the same client id moves to the end as the server's copy. */
  function Echo(list: List, m: Message): List {
    if m.clientId.Some? && FindIndex(list, m.clientId.value) < |list|
    then RemoveAt(list, FindIndex(list, m.clientId.value)) + [m]
    else list + [m]
  }

  function MarkFailed(list: List, cid: string): List {
    var i := FindIndex(list, cid);
    if i < |list| then list[i := list[i].(status := Failed)] else list
  }

  function Retried(list: List, cid: string): List {
    var i := FindIndex(list, cid);
    if i < |list| then RemoveAt(list, i) + [list[i].(status := Sending)] else list
  }

  /** `list.filter(m => m.client_id !== cid)` */
  function Without(list: List, cid: string): List {
    if list == [] then []
    else (if list[0].clientId == Some(cid) then [] else [list[0]]) + Without(list[1..], cid)
  }

  function Edited(list: List, id: int, content: string): List {
    if list == [] then []
    else [if list[0].id == id then list[0].(content := content) else list[0]] + Edited(list[1..], id, content)
  }

  function Deleted(list: List, id: int): List {
    if list == [] then []
    else (if list[0].id == id then [] else [list[0]]) + Deleted(list[1..], id)
  }

  // ── Runs of one client ──

  /** Local actions of the sender, and broadcasts that everybody receives. */
  datatype Event =
    | Send(m: Message)
    | SendFailed(cid: string)
    | Retry(cid: string)
    | Cancel(cid: string)
    | New(m: Message)
    | Update(id: int, content: string)
    | Delete(id: int)

  /** `pending` holds the client ids with a stored payload; `used` all ids seen so far. */
  datatype View = View(list: List, pending: set<string>, used: set<string>)

  /** Client ids are random UUIDs, so a new send never reuses one. */
  predicate Legal(v: View, e: Event) {
    match e
    case Send(m) => m.clientId.Some? && m.clientId.value !in v.used && m.bucket == 0
    case New(m) => m.bucket > 0 && m.status == Confirmed
    case _ => true
  }

  function Step(v: View, e: Event): View {
    match e
    case Send(m) =>
      if m.clientId.Some? then
        var cid := m.clientId.value;
        View(Append(v.list, m.(status := Sending)), v.pending + {cid}, v.used + {cid})
      else v
    case SendFailed(cid) => v.(list := MarkFailed(v.list, cid))
    case Retry(cid) => if cid in v.pending then v.(list := Retried(v.list, cid)) else v
    case Cancel(cid) => v.(list := Without(v.list, cid), pending := v.pending - {cid})
    case New(m) =>
      var ids := if m.clientId.Some? then {m.clientId.value} else {};
      View(Echo(v.list, m), v.pending - ids, v.used + ids)
    case Update(id, content) => v.(list := Edited(v.list, id, content))
    case Delete(id) => v.(list := Deleted(v.list, id))
  }

  predicate LegalRun(v: View, run: seq<Event>)
    decreases run
  {
    run == [] || (Legal(v, run[0]) && LegalRun(Step(v, run[0]), run[1..]))
  }

  function Exec(v: View, run: seq<Event>): View
    decreases run
  {
    if run == [] then v else Exec(Step(v, run[0]), run[1..])
  }

  // ── Each client id at most once ──

  ghost predicate Unique(list: List) {
    forall i, j {:trigger list[i], list[j]} :: 0 <= i < j < |list| && list[i].clientId.Some? ==>
        list[i].clientId != list[j].clientId
  }

  predicate Has(list: List, cid: string) {
    exists m :: m in list && m.clientId == Some(cid)
  }

  lemma {:induction false} FindIndexFinds(list: List, cid: string)
    ensures FindIndex(list, cid) <= |list|
    ensures FindIndex(list, cid) < |list| ==> list[FindIndex(list, cid)].clientId == Some(cid)
    ensures forall i :: 0 <= i < FindIndex(list, cid) ==> list[i].clientId != Some(cid)
    ensures FindIndex(list, cid) < |list| <==> Has(list, cid)
  {
    if list != [] {
      FindIndexFinds(list[1..], cid);
      assert forall m :: m in list <==> m == list[0] || m in list[1..];
    }
  }

  lemma {:induction false} WithoutAppend(a: List, b: List, cid: string)
    ensures Without(a + b, cid) == Without(a, cid) + Without(b, cid)
  {
    if a == [] {
      assert a + b == b;
    } else {
      assert (a + b)[0] == a[0] && (a + b)[1..] == a[1..] + b;
      WithoutAppend(a[1..], b, cid);
    }
  }

  lemma {:induction false} WithoutAbsent(list: List, cid: string)
    requires forall i {:trigger list[i]} :: 0 <= i < |list| ==> list[i].clientId != Some(cid)
    ensures Without(list, cid) == list
  {
    if list != [] {
      WithoutAbsent(list[1..], cid);
    }
  }

  /** Dropping the found slot is dropping the client id. */
  lemma {:induction false} RemoveIsWithout(list: List, cid: string)
    requires Unique(list) && FindIndex(list, cid) < |list|
    ensures RemoveAt(list, FindIndex(list, cid)) == Without(list, cid)
  {
    if list[0].clientId == Some(cid) {
      assert RemoveAt(list, 0) == list[1..];
      WithoutAbsent(list[1..], cid);
    } else {
      RemoveIsWithout(list[1..], cid);
      assert RemoveAt(list, FindIndex(list, cid)) == [list[0]] + RemoveAt(list[1..], FindIndex(list[1..], cid));
    }
  }

  lemma UniqueTail(list: List)
    requires Unique(list) && list != []
    ensures Unique(list[1..])
    ensures list[0].clientId.Some? ==> forall m :: m in list[1..] ==> m.clientId != list[0].clientId
  {
  }

  lemma UniqueCons(head: Message, rest: List)
    requires Unique(rest)
    requires head.clientId.Some? ==> forall m :: m in rest ==> m.clientId != head.clientId
    ensures Unique([head] + rest)
  {
    forall i {:trigger rest[i]} | 0 <= i < |rest| && head.clientId.Some? ensures rest[i].clientId != head.clientId {
      assert rest[i] in rest;
    }
  }

  lemma {:induction false} WithoutMembers(list: List, cid: string)
    ensures forall m :: m in Without(list, cid) <==> m in list && m.clientId != Some(cid)
  {
    if list != [] {
      WithoutMembers(list[1..], cid);
      assert forall m :: m in list <==> m == list[0] || m in list[1..];
    }
  }

  lemma {:induction false} WithoutKeepsUnique(list: List, cid: string)
    requires Unique(list)
    ensures Unique(Without(list, cid))
    ensures forall m :: m in Without(list, cid) <==> m in list && m.clientId != Some(cid)
  {
    WithoutMembers(list, cid);
    if list != [] {
      UniqueTail(list);
      WithoutKeepsUnique(list[1..], cid);
      UniqueCons(list[0], Without(list[1..], cid));
    }
  }

  /** Echo and retry, for lists without repeated ids: drop the id, put the entry last. */
  lemma MoveToEnd(list: List, cid: string, m: Message)
    requires Unique(list) && m.clientId == Some(cid)
    ensures Unique(Without(list, cid) + [m])
    ensures Echo(list, m) == Without(list, cid) + [m]
    ensures Has(list, cid) ==>
            exists o :: o in list && o.clientId == Some(cid)
              && Retried(list, cid) == Without(list, cid) + [o.(status := Sending)]
  {
    FindIndexFinds(list, cid);
    WithoutKeepsUnique(list, cid);
    var kept := Without(list, cid);
    forall i {:trigger kept[i]} | 0 <= i < |kept| ensures kept[i].clientId != Some(cid) {
      assert kept[i] in kept;
    }
    if Has(list, cid) {
      RemoveIsWithout(list, cid);
      assert list[FindIndex(list, cid)] in list;
    } else {
      forall i {:trigger list[i]} | 0 <= i < |list| ensures list[i].clientId != Some(cid) {
        assert list[i] in list;
      }
      WithoutAbsent(list, cid);
    }
  }

  /** An edit changes content only. */
  lemma {:induction false} EditedShape(list: List, id: int, content: string)
    ensures |Edited(list, id, content)| == |list|
    ensures forall i {:trigger Edited(list, id, content)[i]} :: 0 <= i < |list| ==>
              Edited(list, id, content)[i] == if list[i].id == id then list[i].(content := content) else list[i]
  {
    if list != [] {
      EditedShape(list[1..], id, content);
    }
  }

  lemma {:induction false} DeletedMembers(list: List, id: int)
    ensures forall m :: m in Deleted(list, id) <==> m in list && m.id != id
  {
    if list != [] {
      DeletedMembers(list[1..], id);
      assert forall m :: m in list <==> m == list[0] || m in list[1..];
    }
  }

  lemma {:induction false} DeletedKeepsUnique(list: List, id: int)
    requires Unique(list)
    ensures Unique(Deleted(list, id))
    ensures forall m :: m in Deleted(list, id) <==> m in list && m.id != id
  {
    DeletedMembers(list, id);
    if list != [] {
      UniqueTail(list);
      DeletedKeepsUnique(list[1..], id);
      UniqueCons(list[0], Deleted(list[1..], id));
    }
  }

  // ── Every run keeps ids unique ──

  ghost predicate Inv(v: View) {
    && Unique(v.list)
    && v.pending <= v.used
    && forall m :: m in v.list && m.clientId.Some? ==>
         m.clientId.value in v.used && (m.bucket > 0 ==> m.clientId.value !in v.pending)
  }

  lemma SendKeepsInv(v: View, m: Message)
    requires Inv(v) && Legal(v, Send(m))
    ensures Inv(Step(v, Send(m)))
  {
    forall i {:trigger v.list[i]} | 0 <= i < |v.list| ensures v.list[i].clientId != m.clientId {
      assert v.list[i] in v.list;
    }
  }

  lemma NewKeepsInv(v: View, m: Message)
    requires Inv(v) && Legal(v, New(m))
    ensures Inv(Step(v, New(m)))
  {
    if m.clientId.Some? {
      MoveToEnd(v.list, m.clientId.value, m);
      WithoutKeepsUnique(v.list, m.clientId.value);
    }
  }

  lemma RetryKeepsInv(v: View, cid: string)
    requires Inv(v)
    ensures Inv(Step(v, Retry(cid)))
  {
    FindIndexFinds(v.list, cid);
    if cid in v.pending && Has(v.list, cid) {
      var i := FindIndex(v.list, cid);
      var m := v.list[i].(status := Sending);
      assert v.list[i] in v.list;
      MoveToEnd(v.list, cid, m);
      WithoutKeepsUnique(v.list, cid);
      RemoveIsWithout(v.list, cid);
      assert Retried(v.list, cid) == Without(v.list, cid) + [m];
    }
  }

  lemma StepKeepsInv(v: View, e: Event)
    requires Inv(v) && Legal(v, e)
    ensures Inv(Step(v, e))
  {
    match e
    case Send(m) => SendKeepsInv(v, m);
    case SendFailed(cid) => FindIndexFinds(v.list, cid); MarkFailedKeepsInv(v, cid);
    case Retry(cid) => RetryKeepsInv(v, cid);
    case Cancel(cid) => WithoutKeepsUnique(v.list, cid);
    case New(m) => NewKeepsInv(v, m);
    case Update(id, content) => EditKeepsInv(v, id, content);
    case Delete(id) => DeletedKeepsUnique(v.list, id);
  }

  lemma MarkFailedKeepsInv(v: View, cid: string)
    requires Inv(v)
    ensures Inv(Step(v, SendFailed(cid)))
  {
    var i, after := FindIndex(v.list, cid), MarkFailed(v.list, cid);
    forall m | m in after ensures exists o :: o in v.list && o.clientId == m.clientId && o.bucket == m.bucket {
      var k :| 0 <= k < |after| && after[k] == m;
      assert v.list[k] in v.list;
    }
  }

  lemma EditKeepsInv(v: View, id: int, content: string)
    requires Inv(v)
    ensures Inv(Step(v, Update(id, content)))
  {
    EditedShape(v.list, id, content);
    var after := Edited(v.list, id, content);
    forall m | m in after ensures exists o :: o in v.list && o.clientId == m.clientId && o.bucket == m.bucket {
      var k :| 0 <= k < |after| && after[k] == m;
      assert v.list[k] in v.list;
    }
  }

  // ── What readers see ──

  /** The server's messages in a list, without their local send status. */
  function Real(list: List): List {
    if list == [] then []
    else (if list[0].bucket > 0 then [list[0].(status := Confirmed)] else []) + Real(list[1..])
  }

  /** Another client's list only follows the broadcasts. */
  function ReaderStep(list: List, e: Event): List {
    match e
    case New(m) => Echo(list, m)
    case Update(id, content) => Edited(list, id, content)
    case Delete(id) => Deleted(list, id)
    case _ => list
  }

  function ReaderExec(list: List, run: seq<Event>): List
    decreases run
  {
    if run == [] then list else ReaderExec(ReaderStep(list, run[0]), run[1..])
  }

  lemma {:induction false} RealAppend(a: List, b: List)
    ensures Real(a + b) == Real(a) + Real(b)
  {
    if a == [] {
      assert a + b == b;
    } else {
      assert (a + b)[0] == a[0] && (a + b)[1..] == a[1..] + b;
      RealAppend(a[1..], b);
    }
  }

  lemma {:induction false} RealWithout(list: List, cid: string)
    ensures Real(Without(list, cid)) == Without(Real(list), cid)
  {
    if list != [] {
      RealWithout(list[1..], cid);
      var head := if list[0].clientId == Some(cid) then [] else [list[0]];
      RealAppend(head, Without(list[1..], cid));
      RealOne(list[0]);
      WithoutAppend(Real([list[0]]), Real(list[1..]), cid);
      if list[0].bucket > 0 {
        assert [list[0].(status := Confirmed)][1..] == [];
      }
    }
  }

  lemma RealOne(m: Message)
    ensures Real([m]) == if m.bucket > 0 then [m.(status := Confirmed)] else []
  {
    assert [m][1..] == [];
  }

  lemma {:induction false} EditedAppend(a: List, b: List, id: int, content: string)
    ensures Edited(a + b, id, content) == Edited(a, id, content) + Edited(b, id, content)
  {
    if a == [] {
      assert a + b == b;
    } else {
      assert (a + b)[0] == a[0] && (a + b)[1..] == a[1..] + b;
      EditedAppend(a[1..], b, id, content);
    }
  }

  lemma {:induction false} DeletedAppend(a: List, b: List, id: int)
    ensures Deleted(a + b, id) == Deleted(a, id) + Deleted(b, id)
  {
    if a == [] {
      assert a + b == b;
    } else {
      assert (a + b)[0] == a[0] && (a + b)[1..] == a[1..] + b;
      DeletedAppend(a[1..], b, id);
    }
  }

  lemma {:induction false} RealEdited(list: List, id: int, content: string)
    ensures Real(Edited(list, id, content)) == Edited(Real(list), id, content)
  {
    if list != [] {
      RealEdited(list[1..], id, content);
      var m := list[0];
      var head := if m.id == id then m.(content := content) else m;
      RealOne(m);
      RealOne(head);
      RealAppend([head], Edited(list[1..], id, content));
      EditedAppend(Real([m]), Real(list[1..]), id, content);
      assert [m.(status := Confirmed)][1..] == [];
    }
  }

  lemma {:induction false} RealDeleted(list: List, id: int)
    ensures Real(Deleted(list, id)) == Deleted(Real(list), id)
  {
    if list != [] {
      RealDeleted(list[1..], id);
      var m := list[0];
      RealOne(m);
      RealAppend(if m.id == id then [] else [m], Deleted(list[1..], id));
      DeletedAppend(Real([m]), Real(list[1..]), id);
      assert [m.(status := Confirmed)][1..] == [];
    }
  }

  lemma {:induction false} RealIgnoresStatus(list: List, i: nat, status: Status)
    requires i < |list|
    ensures Real(list[i := list[i].(status := status)]) == Real(list)
  {
    var after := list[i := list[i].(status := status)];
    if i == 0 {
      assert after[1..] == list[1..];
    } else {
      assert after[1..] == list[1..][i - 1 := list[i].(status := status)];
      RealIgnoresStatus(list[1..], i - 1, status);
    }
  }

  lemma {:induction false} RealMembers(list: List)
    ensures forall r :: r in Real(list) ==> exists m :: m in list && m.bucket > 0 && m.(status := Confirmed) == r
  {
    if list != [] {
      RealMembers(list[1..]);
      assert forall m :: m in list <==> m == list[0] || m in list[1..];
    }
  }

  lemma {:induction false} RealIsUnique(list: List)
    requires Unique(list)
    ensures Unique(Real(list))
  {
    if list != [] {
      UniqueTail(list);
      RealIsUnique(list[1..]);
      RealMembers(list[1..]);
      if list[0].bucket > 0 {
        UniqueCons(list[0].(status := Confirmed), Real(list[1..]));
      }
    }
  }

  /** No server entry carries this client id, so nothing of it is real. */
  lemma {:induction false} NothingRealDropped(list: List, cid: string)
    ensures Real(Without(list, cid)) == Real(list)
            <==> forall m :: m in list && m.clientId == Some(cid) ==> m.bucket == 0
  {
    RealWithout(list, cid);
    RealKeepsIds(list, cid);
    WithoutSame(Real(list), cid);
  }

  lemma {:induction false} RealKeepsIds(list: List, cid: string)
    ensures Has(Real(list), cid) <==> exists m :: m in list && m.clientId == Some(cid) && m.bucket > 0
  {
    if list != [] {
      RealKeepsIds(list[1..], cid);
      var rest := Real(list[1..]);
      assert forall m :: m in list <==> m == list[0] || m in list[1..];
      if list[0].bucket > 0 {
        var r := list[0].(status := Confirmed);
        assert Real(list) == [r] + rest;
        assert forall m :: m in Real(list) <==> m == r || m in rest;
      }
    }
  }

  lemma {:induction false} WithoutSame(list: List, cid: string)
    ensures Without(list, cid) == list <==> !Has(list, cid)
  {
    WithoutShorter(list, cid);
    if !Has(list, cid) {
      forall i {:trigger list[i]} | 0 <= i < |list| ensures list[i].clientId != Some(cid) {
        assert list[i] in list;
      }
      WithoutAbsent(list, cid);
    }
  }

  lemma {:induction false} WithoutShorter(list: List, cid: string)
    ensures |Without(list, cid)| <= |list|
    ensures Has(list, cid) ==> |Without(list, cid)| < |list|
  {
    if list != [] {
      WithoutShorter(list[1..], cid);
      assert forall m :: m in list <==> m == list[0] || m in list[1..];
    }
  }

  // ── Main results ──

  /** A cancel that only removes optimistic entries. */
  predicate CancelsLocally(v: View, e: Event) {
    e.Cancel? ==> forall m :: m in v.list && m.clientId == Some(e.cid) ==> m.bucket == 0
  }

  lemma NewAgrees(v: View, m: Message)
    requires Inv(v) && Legal(v, New(m))
    ensures Real(Echo(v.list, m)) == Echo(Real(v.list), m)
  {
    RealAppend(v.list, [m]);
    RealOne(m);
    if m.clientId.Some? {
      var cid := m.clientId.value;
      MoveToEnd(v.list, cid, m);
      RealIsUnique(v.list);
      MoveToEnd(Real(v.list), cid, m);
      RealAppend(Without(v.list, cid), [m]);
      RealWithout(v.list, cid);
    }
  }

  lemma RetryAgrees(v: View, cid: string)
    requires Inv(v)
    ensures Real(Step(v, Retry(cid)).list) == Real(v.list)
  {
    FindIndexFinds(v.list, cid);
    if cid in v.pending && Has(v.list, cid) {
      var i := FindIndex(v.list, cid);
      var m := v.list[i].(status := Sending);
      assert v.list[i] in v.list;
      RemoveIsWithout(v.list, cid);
      RealAppend(Without(v.list, cid), [m]);
      RealOne(m);
      NothingRealDropped(v.list, cid);
    }
  }

  /** Every step acts on the server's messages as it does for any reader; local steps not at all. */
  lemma StepAgrees(v: View, e: Event)
    requires Inv(v) && Legal(v, e)
    ensures Real(Step(v, e).list) == ReaderStep(Real(v.list), e) <==> CancelsLocally(v, e)
  {
    match e
    case Send(m) =>
      RealAppend(v.list, [m.(status := Sending)]);
      RealOne(m.(status := Sending));
    case SendFailed(cid) =>
      if FindIndex(v.list, cid) < |v.list| {
        RealIgnoresStatus(v.list, FindIndex(v.list, cid), Failed);
      }
    case Retry(cid) => RetryAgrees(v, cid);
    case Cancel(cid) => NothingRealDropped(v.list, cid);
    case New(m) => NewAgrees(v, m);
    case Update(id, content) => RealEdited(v.list, id, content);
    case Delete(id) => RealDeleted(v.list, id);
  }

  predicate CancelsOnlyLocal(v: View, run: seq<Event>)
    decreases run
  {
    run == [] || (CancelsLocally(v, run[0]) && CancelsOnlyLocal(Step(v, run[0]), run[1..]))
  }

  /** At every moment of the run the sender's list, optimistic entries erased, is the reader's. */
  predicate AlwaysAgree(v: View, reader: List, run: seq<Event>)
    decreases run
  {
    && Real(v.list) == reader
    && (run == [] || AlwaysAgree(Step(v, run[0]), ReaderStep(reader, run[0]), run[1..]))
  }

  /** Over every run of sends, failures, retries, cancels and broadcasts, client ids stay unique. */
  lemma {:induction false} RunKeepsInv(v: View, run: seq<Event>)
    requires Inv(v) && LegalRun(v, run)
    ensures Inv(Exec(v, run))
    decreases run
  {
    if run != [] {
      StepKeepsInv(v, run[0]);
      RunKeepsInv(Step(v, run[0]), run[1..]);
    }
  }

  /**
   * Over every run, the sender's list with its optimistic entries erased is at every moment
   * the list of a reader who sees the same broadcasts, if and only if no cancel hits an
   * echoed message.
   */
  lemma {:induction false} SenderSeesWhatReadersSeeIff(v: View, run: seq<Event>)
    requires Inv(v) && LegalRun(v, run)
    ensures AlwaysAgree(v, Real(v.list), run) <==> CancelsOnlyLocal(v, run)
    decreases run
  {
    if run != [] {
      StepKeepsInv(v, run[0]);
      StepAgrees(v, run[0]);
      if CancelsLocally(v, run[0]) {
        SenderSeesWhatReadersSeeIff(Step(v, run[0]), run[1..]);
      }
    }
  }

  /** An echo or an effective retry leaves its entry last and all others in their order. */
  lemma EchoAndRetryMoveToEnd(v: View, e: Event, cid: string)
    requires Inv(v) && Legal(v, e)
    requires (e.New? && e.m.clientId == Some(cid)) || (e == Retry(cid) && cid in v.pending && Has(v.list, cid))
    ensures var after := Step(v, e).list;
            && after != [] && after[|after| - 1].clientId == Some(cid)
            && after[..|after| - 1] == Without(v.list, cid)
  {
    if e.New? {
      MoveToEnd(v.list, cid, e.m);
    } else {
      FindIndexFinds(v.list, cid);
      RemoveIsWithout(v.list, cid);
    }
  }

  /** Whatever arrives is listed last; only its own earlier entry goes. */
  lemma NewMessageIsLast(v: View, m: Message)
    requires Inv(v) && Legal(v, New(m))
    ensures Step(v, New(m)).list == (if m.clientId.Some? then Without(v.list, m.clientId.value) else v.list) + [m]
  {
    if m.clientId.Some? {
      MoveToEnd(v.list, m.clientId.value, m);
    }
  }

  // ── A cancelled message ──

  predicate NotEchoed(run: seq<Event>, cid: string) {
    forall e :: e in run ==> !(e.New? && e.m.clientId == Some(cid))
  }

  /** No entry, and nothing that a retry could send again. */
  ghost predicate Gone(v: View, cid: string) {
    !Has(v.list, cid) && cid !in v.pending && cid in v.used
  }

  lemma StepKeepsGone(v: View, e: Event, cid: string)
    requires Inv(v) && Legal(v, e) && Gone(v, cid) && !(e.New? && e.m.clientId == Some(cid))
    ensures Gone(Step(v, e), cid)
  {
    match e
    case Send(n) =>
    case SendFailed(c) =>
      FindIndexFinds(v.list, c);
      var after := MarkFailed(v.list, c);
      forall m | m in after ensures m.clientId != Some(cid) {
        var k :| 0 <= k < |after| && after[k] == m;
        assert v.list[k] in v.list;
      }
    case Retry(c) =>
      if c in v.pending && Has(v.list, c) {
        FindIndexFinds(v.list, c);
        RemoveIsWithout(v.list, c);
        WithoutMembers(v.list, c);
      } else {
        FindIndexFinds(v.list, c);
      }
    case Cancel(c) => WithoutMembers(v.list, c);
    case New(n) =>
      NewMessageIsLast(v, n);
      if n.clientId.Some? {
        WithoutMembers(v.list, n.clientId.value);
      }
    case Update(i, content) =>
      EditedShape(v.list, i, content);
      forall m | m in Edited(v.list, i, content) ensures m.clientId != Some(cid) {
        var k :| 0 <= k < |v.list| && Edited(v.list, i, content)[k] == m;
        assert v.list[k] in v.list;
      }
    case Delete(i) => DeletedMembers(v.list, i);
  }

  lemma {:induction false} StaysGone(v: View, run: seq<Event>, cid: string)
    requires Inv(v) && LegalRun(v, run) && Gone(v, cid) && NotEchoed(run, cid)
    ensures Gone(Exec(v, run), cid)
    decreases run
  {
    if run != [] {
      assert run[0] in run;
      StepKeepsGone(v, run[0], cid);
      StepKeepsInv(v, run[0]);
      StaysGone(Step(v, run[0]), run[1..], cid);
    }
  }

  /**
   * A cancelled message is gone: over every run without an echo of it, it is not listed, and
   * nothing is left that a retry could send.
   */
  lemma CancelledIsGone(v: View, cid: string, run: seq<Event>)
    requires Inv(v) && cid in v.used && LegalRun(Step(v, Cancel(cid)), run) && NotEchoed(run, cid)
    ensures Gone(Exec(Step(v, Cancel(cid)), run), cid)
  {
    WithoutMembers(v.list, cid);
    StepKeepsInv(v, Cancel(cid));
    StaysGone(Step(v, Cancel(cid)), run, cid);
  }

  // ── A message on its way ──

  /** The list has an optimistic entry for this client id. */
  predicate OnItsWay(list: List, cid: string, id: int) {
    exists m :: m in list && m.clientId == Some(cid) && m.id == id && m.bucket == 0
  }

  /** An echo, a cancel or a delete of the message. */
  predicate Touches(e: Event, cid: string, id: int) {
    match e
    case New(m) => m.clientId == Some(cid)
    case Cancel(c) => c == cid
    case Delete(i) => i == id
    case _ => false
  }

  predicate Untouched(run: seq<Event>, cid: string, id: int) {
    forall e :: e in run ==> !Touches(e, cid, id)
  }

  /** Echoes and retries of other client ids leave an entry in the list. */
  lemma OthersStay(v: View, e: Event, m: Message)
    requires Inv(v) && Legal(v, e) && m in v.list && m.clientId.Some?
    requires (e.New? && e.m.clientId != m.clientId) || (e.Retry? && Some(e.cid) != m.clientId)
    ensures m in Step(v, e).list
  {
    var cid := if e.New? then e.m.clientId else Some(e.cid);
    if cid.Some? {
      FindIndexFinds(v.list, cid.value);
      if e.New? {
        MoveToEnd(v.list, cid.value, e.m);
      } else if cid.value in v.pending && Has(v.list, cid.value) {
        RemoveIsWithout(v.list, cid.value);
      }
      WithoutMembers(v.list, cid.value);
    }
  }

  lemma TheOneFound(v: View, cid: string, m: Message)
    requires Inv(v) && m in v.list && m.clientId == Some(cid)
    ensures FindIndex(v.list, cid) < |v.list| && v.list[FindIndex(v.list, cid)] == m
  {
    FindIndexFinds(v.list, cid);
    var k :| 0 <= k < |v.list| && v.list[k] == m;
  }

  lemma StepKeepsOnItsWay(v: View, e: Event, cid: string, id: int)
    requires Inv(v) && Legal(v, e) && OnItsWay(v.list, cid, id) && cid in v.pending && !Touches(e, cid, id)
    ensures OnItsWay(Step(v, e).list, cid, id) && cid in Step(v, e).pending
  {
    var m :| m in v.list && m.clientId == Some(cid) && m.id == id && m.bucket == 0;
    var k :| 0 <= k < |v.list| && v.list[k] == m;
    match e
    case Send(n) => assert m in v.list + [n.(status := Sending)];
    case SendFailed(c) =>
      FindIndexFinds(v.list, c);
      var after := MarkFailed(v.list, c);
      assert after[k] == m || after[k] == m.(status := Failed);
      assert after[k] in after;
    case Retry(c) =>
      if c == cid {
        RetryMovesToEnd(v, cid, m);
      } else {
        OthersStay(v, e, m);
      }
    case Cancel(c) => WithoutMembers(v.list, c);
    case New(n) => OthersStay(v, e, m);
    case Update(i, content) =>
      EditedShape(v.list, i, content);
      assert Edited(v.list, i, content)[k] in Edited(v.list, i, content);
    case Delete(i) => DeletedMembers(v.list, i);
  }

  lemma RetryMovesToEnd(v: View, cid: string, m: Message)
    requires Inv(v) && cid in v.pending && m in v.list && m.clientId == Some(cid)
    ensures Step(v, Retry(cid)).list == Without(v.list, cid) + [m.(status := Sending)]
    ensures m.(status := Sending) in Step(v, Retry(cid)).list
  {
    TheOneFound(v, cid, m);
    RemoveIsWithout(v.list, cid);
  }

  lemma {:induction false} StaysOnItsWay(v: View, run: seq<Event>, cid: string, id: int)
    requires Inv(v) && LegalRun(v, run) && OnItsWay(v.list, cid, id) && cid in v.pending && Untouched(run, cid, id)
    ensures Inv(Exec(v, run)) && OnItsWay(Exec(v, run).list, cid, id) && cid in Exec(v, run).pending
    decreases run
  {
    if run != [] {
      assert run[0] in run;
      StepKeepsOnItsWay(v, run[0], cid, id);
      StepKeepsInv(v, run[0]);
      StaysOnItsWay(Step(v, run[0]), run[1..], cid, id);
    }
  }

  /**
   * A sent message is listed last, as being sent. Over every run without its echo, a cancel
   * or a delete of it, it stays listed; and then a failure shows it as failed in its place,
   * and a retry puts it last again, as being sent.
   */
  lemma SentMessageStays(v: View, m: Message, cid: string, run: seq<Event>)
    requires Inv(v) && Legal(v, Send(m)) && m.clientId == Some(cid)
    requires LegalRun(Step(v, Send(m)), run) && Untouched(run, cid, m.id)
    ensures Step(v, Send(m)).list == v.list + [m.(status := Sending)]
    ensures var u := Exec(Step(v, Send(m)), run);
            exists k, e :: 0 <= k < |u.list| && u.list[k] == e
              && e.clientId == Some(cid) && e.id == m.id && e.bucket == 0
              && Step(u, SendFailed(cid)).list == u.list[k := e.(status := Failed)]
              && Step(u, Retry(cid)).list == Without(u.list, cid) + [e.(status := Sending)]
  {
    var sent := Step(v, Send(m));
    StepKeepsInv(v, Send(m));
    assert sent.list[|sent.list| - 1] in sent.list;
    StaysOnItsWay(sent, run, cid, m.id);
    var u := Exec(sent, run);
    var e :| e in u.list && e.clientId == Some(cid) && e.id == m.id && e.bucket == 0;
    TheOneFound(u, cid, e);
    RetryMovesToEnd(u, cid, e);
    var k := FindIndex(u.list, cid);
    assert u.list[k] == e;
  }

  // ── Failures that come after the echo ──

  /** Everything in the list that came from the server is shown as sent. */
  predicate ServerEntriesConfirmed(list: List) {
    forall m :: m in list && m.bucket > 0 ==> m.status == Confirmed
  }

  predicate AlwaysConfirmed(v: View, run: seq<Event>)
    decreases run
  {
    ServerEntriesConfirmed(v.list) && (run == [] || AlwaysConfirmed(Step(v, run[0]), run[1..]))
  }

  /** A failed POST whose entry has not been echoed. */
  predicate FailsLocally(v: View, e: Event) {
    e.SendFailed? ==> forall m :: m in v.list && m.clientId == Some(e.cid) ==> m.bucket == 0
  }

  predicate FailuresOnlyLocal(v: View, run: seq<Event>)
    decreases run
  {
    run == [] || (FailsLocally(v, run[0]) && FailuresOnlyLocal(Step(v, run[0]), run[1..]))
  }

  lemma FailureMarks(v: View, cid: string)
    requires Inv(v) && ServerEntriesConfirmed(v.list)
    ensures ServerEntriesConfirmed(MarkFailed(v.list, cid)) <==> FailsLocally(v, SendFailed(cid))
  {
    FindIndexFinds(v.list, cid);
    var i, after := FindIndex(v.list, cid), MarkFailed(v.list, cid);
    forall m | m in after ensures m in v.list || (i < |v.list| && m == v.list[i].(status := Failed)) {
      var k :| 0 <= k < |after| && after[k] == m;
      assert k != i ==> v.list[k] in v.list;
    }
    if i < |v.list| {
      assert after[i] in after && v.list[i] in v.list;
      forall m | m in v.list && m.clientId == Some(cid) ensures m == v.list[i] {
        var k :| 0 <= k < |v.list| && v.list[k] == m;
      }
    }
  }

  lemma RetryKeepsConfirmed(v: View, cid: string)
    requires Inv(v) && ServerEntriesConfirmed(v.list)
    ensures ServerEntriesConfirmed(Step(v, Retry(cid)).list)
  {
    FindIndexFinds(v.list, cid);
    if cid in v.pending && Has(v.list, cid) {
      assert v.list[FindIndex(v.list, cid)] in v.list;
      RemoveIsWithout(v.list, cid);
      WithoutMembers(v.list, cid);
    }
  }

  lemma EditKeepsConfirmed(list: List, id: int, content: string)
    requires ServerEntriesConfirmed(list)
    ensures ServerEntriesConfirmed(Edited(list, id, content))
  {
    EditedShape(list, id, content);
    var after := Edited(list, id, content);
    forall m | m in after && m.bucket > 0 ensures m.status == Confirmed {
      var k :| 0 <= k < |after| && after[k] == m;
      assert list[k] in list;
    }
  }

  lemma StepConfirms(v: View, e: Event)
    requires Inv(v) && Legal(v, e) && ServerEntriesConfirmed(v.list)
    ensures ServerEntriesConfirmed(Step(v, e).list) <==> FailsLocally(v, e)
  {
    match e
    case Send(m) =>
    case SendFailed(cid) => FailureMarks(v, cid);
    case Retry(cid) => RetryKeepsConfirmed(v, cid);
    case Cancel(cid) => WithoutMembers(v.list, cid);
    case New(m) =>
      if m.clientId.Some? {
        MoveToEnd(v.list, m.clientId.value, m);
        WithoutMembers(v.list, m.clientId.value);
      }
    case Update(id, content) => EditKeepsConfirmed(v.list, id, content);
    case Delete(id) => DeletedMembers(v.list, id);
  }

  /**
   * The POST can fail after its message was delivered. Over every run from a list whose
   * server entries are confirmed, they are confirmed at every moment if and only if no
   * failure is reported for an entry that has been echoed.
   */
  lemma {:induction false} DeliveredStaysConfirmedIff(v: View, run: seq<Event>)
    requires Inv(v) && LegalRun(v, run) && ServerEntriesConfirmed(v.list)
    ensures AlwaysConfirmed(v, run) <==> FailuresOnlyLocal(v, run)
    decreases run
  {
    if run != [] {
      StepKeepsInv(v, run[0]);
      StepConfirms(v, run[0]);
      if FailsLocally(v, run[0]) {
        DeliveredStaysConfirmedIff(Step(v, run[0]), run[1..]);
      }
    }
  }

  // ── ... and what ends such a mark ──

  /** The list shows the delivered message `id` of this client id as failed. */
  predicate ShownFailed(list: List, cid: string, id: int) {
    exists m :: m in list && m.clientId == Some(cid) && m.id == id && m.bucket > 0 && m.status == Failed
  }

  lemma StepKeepsShownFailed(v: View, e: Event, cid: string, id: int)
    requires Inv(v) && Legal(v, e) && ShownFailed(v.list, cid, id) && !Touches(e, cid, id)
    ensures ShownFailed(Step(v, e).list, cid, id)
  {
    var m :| m in v.list && m.clientId == Some(cid) && m.id == id && m.bucket > 0 && m.status == Failed;
    var k :| 0 <= k < |v.list| && v.list[k] == m;
    match e
    case Send(n) => assert m in v.list + [n.(status := Sending)];
    case SendFailed(c) =>
      FindIndexFinds(v.list, c);
      var after := MarkFailed(v.list, c);
      assert after[k] == m;
      assert after[k] in after;
    case Retry(c) =>
      if c != cid {
        OthersStay(v, e, m);
      }
    case Cancel(c) => WithoutMembers(v.list, c);
    case New(n) => OthersStay(v, e, m);
    case Update(i, content) =>
      EditedShape(v.list, i, content);
      assert Edited(v.list, i, content)[k] in Edited(v.list, i, content);
    case Delete(i) => DeletedMembers(v.list, i);
  }

  /**
   * For good: no retry, edit or other message ever clears the mark on a delivered message.
   * Only a repeated echo, a cancel or a delete of that very message ends it.
   */
  lemma {:induction false} LateFailureSticks(v: View, run: seq<Event>, cid: string, id: int)
    requires Inv(v) && LegalRun(v, run) && ShownFailed(v.list, cid, id) && Untouched(run, cid, id)
    ensures ShownFailed(Exec(v, run).list, cid, id)
    decreases run
  {
    if run != [] {
      assert run[0] in run;
      StepKeepsShownFailed(v, run[0], cid, id);
      StepKeepsInv(v, run[0]);
      LateFailureSticks(Step(v, run[0]), run[1..], cid, id);
    }
  }

  /** Sending and then receiving the echo leaves what receiving the message alone would leave. */
  lemma EchoReplacesOptimistic(m0: Message, m: Message, cid: string)
    requires m0.clientId == m.clientId == Some(cid)
    ensures Step(Step(Nothing, Send(m0)), New(m)) == Step(Nothing, New(m))
    ensures Step(Nothing, New(m)) == View([m], {}, {cid})
  {
    assert FindIndex([m0], cid) == 0 && RemoveAt([m0], 0) == [];
  }

  lemma FailedMessage(m: Message, cid: string)
    requires m.clientId == Some(cid)
    ensures MarkFailed([m], cid) == [m.(status := Failed)] && Without([m.(status := Failed)], cid) == []
  {
    var failed := [m.(status := Failed)];
    assert failed[1..] == [];
  }

  const Nothing := View([], {}, {})

  /**
   * One run with both faults: a message is sent and delivered, then its POST is reported as
   * failed, so the user cancels it. It was shown as failed, and the sender is now the only
   * one who does not have it.
   */
  lemma DeliveredMessageIsLost(m0: Message, m: Message, cid: string)
    requires m0.clientId == m.clientId == Some(cid) && m0.bucket == 0 && m.bucket > 0 && m.status == Confirmed
    ensures var run := [Send(m0), New(m), SendFailed(cid), Cancel(cid)];
            && Inv(Nothing) && LegalRun(Nothing, run)
            && !FailuresOnlyLocal(Nothing, run) && !AlwaysConfirmed(Nothing, run)
            && !CancelsOnlyLocal(Nothing, run) && !AlwaysAgree(Nothing, [], run)
            && Exec(Nothing, run).list == [] && ReaderExec([], run) == [m]
  {
    var run := [Send(m0), New(m), SendFailed(cid), Cancel(cid)];
    var tail := [New(m), SendFailed(cid), Cancel(cid)];
    assert run[1..] == tail && tail[1..] == [SendFailed(cid), Cancel(cid)];
    EchoReplacesOptimistic(m0, m, cid);
    LostAfterEcho(m, cid);
    DeliveredStaysConfirmedIff(Nothing, run);
    SenderSeesWhatReadersSeeIff(Nothing, run);
    assert ReaderExec([], run) == ReaderExec([], tail) == ReaderExec([m], [SendFailed(cid), Cancel(cid)]);
  }

  /** A delivered message whose POST is reported as failed and that is then cancelled. */
  lemma LostAfterEcho(m: Message, cid: string)
    requires m.clientId == Some(cid) && m.bucket > 0 && m.status == Confirmed
    ensures var echoed, rest := View([m], {}, {cid}), [SendFailed(cid), Cancel(cid)];
            && LegalRun(echoed, rest) && !FailuresOnlyLocal(echoed, rest) && !CancelsOnlyLocal(echoed, rest)
            && Exec(echoed, rest).list == [] && ReaderExec([m], rest) == [m]
  {
    var echoed, rest, last := View([m], {}, {cid}), [SendFailed(cid), Cancel(cid)], [Cancel(cid)];
    assert rest[1..] == last && last[1..] == [];
    FailedMessage(m, cid);
    var failed := Step(echoed, SendFailed(cid));
    assert failed.list == [m.(status := Failed)] && m.(status := Failed) in failed.list;
    assert m in echoed.list && LegalRun(failed, last);
    assert !CancelsLocally(failed, Cancel(cid)) && !CancelsOnlyLocal(failed, last);
    assert Exec(echoed, rest) == Exec(failed, last) == Exec(Step(failed, Cancel(cid)), []);
    assert ReaderExec([m], rest) == ReaderExec([m], last) == ReaderExec([m], []);
  }
}
