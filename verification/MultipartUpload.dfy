/**
 * Streaming upload into S3 (packages/common-rust/src/storage.rs): a re-chunker that
 * decides between one PutObject and a multipart upload while the stream is being read.
 */
module MultipartUpload {
  import opened Prelude

  const PART_SIZE: nat := 8 * 1024 * 1024

  datatype Chunk = Data(bytes: Bytes) | Broken(message: string)

  datatype UploadError =
    | TooLarge(max: nat)
    | Empty
    | Stream(message: string)
    | S3

  // ── The object store ──

  /**
   * What the store answers: an upload id or an ETag, possibly missing, or a failure. With
   * `applied` the store did what it was asked and only the answer was lost.
   */
  datatype Answer = Success(tag: Option<string>) | Failure(applied: bool)

  datatype Request =
    | PutObject(body: Bytes)
    | CreateMultipartUpload
    | UploadPart(uploadId: string, number: nat, body: Bytes)
    | CompleteMultipartUpload(uploadId: string, parts: seq<CompletedPart>)
    | AbortMultipartUpload(uploadId: string)

  datatype CompletedPart = CompletedPart(number: nat, etag: string)

  datatype Call = Call(request: Request, answer: Answer)

  /** The n-th request is answered by `answers(n)`; `log` is everything asked so far. */
  class ObjectStore {
    const answers: nat -> Answer
    var log: seq<Call>

    constructor (answers: nat -> Answer)
      ensures this.answers == answers && log == []
    {
      this.answers := answers;
      log := [];
    }

    method Ask(request: Request) returns (answer: Answer)
      modifies this
      ensures log == old(log) + [Call(request, answer)]
      ensures answer == answers(|old(log)|)
    {
      answer := answers(|log|);
      log := log + [Call(request, answer)];
    }
  }

  // ── Specification ──

  /** Everything the stream delivers before its first error. */
  function Concat(chunks: seq<Chunk>): Bytes {
    if chunks == [] || chunks[0].Broken? then [] else chunks[0].bytes + Concat(chunks[1..])
  }

  predicate Intact(chunks: seq<Chunk>) {
    forall c :: c in chunks ==> c.Data?
  }

  function FirstError(chunks: seq<Chunk>): string
    requires !Intact(chunks)
  {
    if chunks[0].Broken? then chunks[0].message else FirstError(chunks[1..])
  }

  /** A body cut into parts of PART_SIZE bytes, the last one possibly shorter. */
  function Split(body: Bytes): seq<Bytes> {
    if body == [] then []
    else if |body| <= PART_SIZE then [body]
    else [body[..PART_SIZE]] + Split(body[PART_SIZE..])
  }

  /** Did the store do what it was asked? Parts need an ETag and uploads an id. */
  predicate Honoured(call: Call) {
    match call.request
    case PutObject(_) => call.answer.Success?
    case CreateMultipartUpload => call.answer.Success? && call.answer.tag.Some?
    case UploadPart(_, _, _) => call.answer.Success? && call.answer.tag.Some?
    case CompleteMultipartUpload(_, _) => call.answer.Success?
    case AbortMultipartUpload(_) => true
  }

  /** Exactly these parts were uploaded, numbered from 1, and accepted. */
  ghost predicate UploadedParts(calls: seq<Call>, uploadId: string, bodies: seq<Bytes>) {
    && |calls| == |bodies|
    && forall i {:trigger calls[i]} {:trigger bodies[i]} :: 0 <= i < |calls| ==>
         calls[i].request == UploadPart(uploadId, i + 1, bodies[i]) && Honoured(calls[i])
  }

  /** The part list names every uploaded part once, in order, with the ETag it came back with. */
  ghost predicate Lists(parts: seq<CompletedPart>, calls: seq<Call>) {
    && |parts| == |calls|
    && forall i {:trigger parts[i]} {:trigger calls[i]} :: 0 <= i < |parts| ==>
         calls[i].answer.Success? && parts[i].number == i + 1 && calls[i].answer.tag == Some(parts[i].etag)
  }

  /** All of `body` was uploaded and the upload completed. */
  ghost predicate Finished(calls: seq<Call>, uploadId: string, body: Bytes) {
    var n := |Split(body)|;
    && |calls| == n + 1
    && UploadedParts(calls[..n], uploadId, Split(body))
    && calls[n].request.CompleteMultipartUpload? && calls[n].request.uploadId == uploadId
    && Lists(calls[n].request.parts, calls[..n])
    && Honoured(calls[n])
  }

  predicate LastFailed(calls: seq<Call>) {
    calls != [] && !Honoured(calls[|calls| - 1])
  }

  /** The upload stopped: after some parts, the next request (if any) was the one that failed. */
  ghost predicate Halted(calls: seq<Call>, uploadId: string, body: Bytes) {
    var n := if LastFailed(calls) then |calls| - 1 else |calls|;
    && n <= |Split(body)|
    && UploadedParts(calls[..n], uploadId, Split(body)[..n])
    && (LastFailed(calls) ==>
          var request := calls[n].request;
          if request.CompleteMultipartUpload? then
            request.uploadId == uploadId && n == |Split(body)| && Lists(request.parts, calls[..n])
          else n < |Split(body)| && request == UploadPart(uploadId, n + 1, Split(body)[n]))
  }

  /** What a healthy store lets the caller see. It only looks at what the stream contains. */
  function Verdict(chunks: seq<Chunk>, maxSize: nat): Result<nat, UploadError> {
    var body := Concat(chunks);
    if |body| > maxSize then Err(TooLarge(maxSize))
    else if !Intact(chunks) then Err(Stream(FirstError(chunks)))
    else if body == [] then Err(Empty)
    else Ok(|body|)
  }

  // ── Lemmas about streams and parts ──

  lemma {:induction false} ConcatPrefix(chunks: seq<Chunk>, i: nat)
    requires i <= |chunks| && Intact(chunks[..i])
    ensures Concat(chunks) == Concat(chunks[..i]) + Concat(chunks[i..])
    decreases i
  {
    if i > 0 {
      IntactTail(chunks, i);
      ConcatPrefix(chunks[1..], i - 1);
      assert chunks[..i][1..] == chunks[1..][..i - 1] && chunks[1..][i - 1..] == chunks[i..];
    } else {
      assert chunks[..0] == [] && chunks[0..] == chunks;
    }
  }

  lemma IntactTail(chunks: seq<Chunk>, i: nat)
    requires 0 < i <= |chunks| && Intact(chunks[..i])
    ensures chunks[0].Data? && Intact(chunks[1..][..i - 1])
  {
    assert chunks[0] in chunks[..i];
    assert forall c :: c in chunks[1..][..i - 1] ==> c in chunks[..i];
  }

  /** Reading one more intact chunk. */
  lemma ConcatNext(chunks: seq<Chunk>, i: nat)
    requires i < |chunks| && Intact(chunks[..i]) && chunks[i].Data?
    ensures Intact(chunks[..i + 1])
    ensures Concat(chunks[..i + 1]) == Concat(chunks[..i]) + chunks[i].bytes
  {
    assert chunks[..i + 1][..i] == chunks[..i];
    assert chunks[..i + 1][i..] == [chunks[i]];
    assert chunks[..i + 1] == chunks[..i] + [chunks[i]];
    ConcatPrefix(chunks[..i + 1], i);
    assert Concat([chunks[i]]) == chunks[i].bytes + Concat([chunks[i]][1..]);
  }

  lemma {:induction false} FirstErrorAt(chunks: seq<Chunk>, i: nat)
    requires i < |chunks| && Intact(chunks[..i]) && chunks[i].Broken?
    ensures !Intact(chunks) && FirstError(chunks) == chunks[i].message
    ensures Concat(chunks) == Concat(chunks[..i])
    decreases i
  {
    assert chunks[i] in chunks;
    ConcatPrefix(chunks, i);
    if i > 0 {
      assert chunks[0] in chunks[..i];
      assert forall c :: c in chunks[1..][..i - 1] ==> c in chunks[..i];
      FirstErrorAt(chunks[1..], i - 1);
    }
  }

  /** What reading chunk i tells about the whole stream. */
  lemma ReadNext(chunks: seq<Chunk>, i: nat, maxSize: nat)
    requires i < |chunks| && Intact(chunks[..i])
    ensures Concat(chunks) == Concat(chunks[..i]) + Concat(chunks[i..])
    ensures chunks[i].Broken? && |Concat(chunks[..i])| <= maxSize ==>
            Verdict(chunks, maxSize) == Err(Stream(chunks[i].message))
    ensures chunks[i].Data? ==>
              && Intact(chunks[..i + 1])
              && Concat(chunks[..i + 1]) == Concat(chunks[..i]) + chunks[i].bytes
              && Concat(chunks) == Concat(chunks[..i + 1]) + Concat(chunks[i + 1..])
              && (|Concat(chunks[..i + 1])| > maxSize ==> Verdict(chunks, maxSize) == Err(TooLarge(maxSize)))
  {
    ConcatPrefix(chunks, i);
    if chunks[i].Broken? {
      FirstErrorAt(chunks, i);
    } else {
      ConcatNext(chunks, i);
      ConcatPrefix(chunks, i + 1);
    }
  }

  function Flatten(parts: seq<Bytes>): Bytes {
    if parts == [] then [] else parts[0] + Flatten(parts[1..])
  }

  ghost predicate AllFull(parts: seq<Bytes>) {
    forall i {:trigger parts[i]} :: 0 <= i < |parts| ==> |parts[i]| == PART_SIZE
  }

  lemma SplitFirst(part: Bytes, tail: Bytes)
    requires |part| == PART_SIZE
    ensures Split(part + tail) == [part] + Split(tail)
  {
    if tail == [] {
      assert part + tail == part;
    } else {
      assert (part + tail)[..PART_SIZE] == part && (part + tail)[PART_SIZE..] == tail;
    }
  }

  /** Full parts cut off at the front are the first parts, whatever bytes follow. */
  lemma {:induction false} SplitAfterFull(full: seq<Bytes>, rest: Bytes)
    requires AllFull(full)
    ensures Split(Flatten(full) + rest) == full + Split(rest)
    decreases full
  {
    if full == [] {
      assert Flatten(full) + rest == rest;
    } else {
      var tail := Flatten(full[1..]) + rest;
      SplitAfterFull(full[1..], rest);
      assert Flatten(full) + rest == full[0] + tail;
      SplitFirst(full[0], tail);
      assert full == [full[0]] + full[1..];
    }
  }

  lemma {:induction false} FlattenAppend(a: seq<Bytes>, b: seq<Bytes>)
    ensures Flatten(a + b) == Flatten(a) + Flatten(b)
    decreases a
  {
    if a == [] {
      assert a + b == b;
    } else {
      assert (a + b)[1..] == a[1..] + b;
      FlattenAppend(a[1..], b);
    }
  }

  lemma FlattenOneMore(full: seq<Bytes>, part: Bytes, rest: Bytes)
    ensures Flatten(full + [part]) + rest == Flatten(full) + (part + rest)
  {
    FlattenAppend(full, [part]);
    assert Flatten([part]) == part + Flatten([part][1..]);
  }

  // ── The upload ──

  method PutPart(store: ObjectStore, uploadId: string, partNumber: nat, body: Bytes)
    returns (etag: Option<string>, ghost call: Call)
    modifies store
    ensures store.log == old(store.log) + [call]
    ensures call.request == UploadPart(uploadId, partNumber, body)
    ensures Honoured(call) <==> etag.Some?
    ensures etag.Some? ==> call.answer == Success(etag)
  {
    var answer := store.Ask(UploadPart(uploadId, partNumber, body));
    call := Call(UploadPart(uploadId, partNumber, body), answer);
    match answer {
      case Success(tag) => etag := tag;
      case Failure(_) => etag := None;
    }
  }

  /** The full parts uploaded so far and the list that will complete the upload. */
  ghost predicate Progress(calls: seq<Call>, uploadId: string, full: seq<Bytes>, parts: seq<CompletedPart>,
                           partNumber: nat)
  {
    AllFull(full) && UploadedParts(calls, uploadId, full) && Lists(parts, calls) && partNumber == |full| + 1
  }

  /** `body` has been read; its full parts are uploaded and `buf` is what is left of it. */
  ghost predicate Reading(calls: seq<Call>, uploadId: string, full: seq<Bytes>, buf: Bytes, parts: seq<CompletedPart>,
                          partNumber: nat, body: Bytes)
  {
    Progress(calls, uploadId, full, parts, partNumber) && Flatten(full) + buf == body && |buf| < PART_SIZE
  }

  /** A request failed, and everything before it was in order. */
  ghost predicate Failed(calls: seq<Call>, uploadId: string, body: Bytes) {
    LastFailed(calls) && Halted(calls, uploadId, body)
  }

  /** One more part: either it joins the uploaded ones, or it is the request that failed. */
  lemma OnePart(calls: seq<Call>, call: Call, uploadId: string, full: seq<Bytes>, part: Bytes, rest: Bytes)
    requires AllFull(full) && UploadedParts(calls, uploadId, full)
    requires call.request == UploadPart(uploadId, |full| + 1, part)
    requires Split(part + rest) != [] && Split(part + rest)[0] == part
    ensures Honoured(call) ==> UploadedParts(calls + [call], uploadId, full + [part])
    ensures !Honoured(call) ==> Failed(calls + [call], uploadId, Flatten(full) + (part + rest))
  {
    SplitAfterFull(full, part + rest);
    var parts := full + Split(part + rest);
    assert parts[..|full|] == full && parts[|full|] == part;
    assert (calls + [call])[..|full|] == calls;
  }

  /** Stopping between requests. */
  lemma ReadingHalts(calls: seq<Call>, uploadId: string, full: seq<Bytes>, buf: Bytes, parts: seq<CompletedPart>,
                     partNumber: nat, body: Bytes, rest: Bytes)
    requires Reading(calls, uploadId, full, buf, parts, partNumber, body)
    ensures !LastFailed(calls) && Halted(calls, uploadId, body + rest)
  {
    assert body + rest == Flatten(full) + (buf + rest);
    SplitAfterFull(full, buf + rest);
    assert (full + Split(buf + rest))[..|full|] == full;
    assert calls[..|calls|] == calls;
  }

  /** One turn of the flush loop. */
  lemma FullPartSent(calls: seq<Call>, call: Call, uploadId: string, full: seq<Bytes>, buf: Bytes,
                     parts: seq<CompletedPart>, partNumber: nat, body: Bytes, unread: Bytes)
    requires Progress(calls, uploadId, full, parts, partNumber) && Flatten(full) + buf == body && |buf| >= PART_SIZE
    requires call.request == UploadPart(uploadId, partNumber, buf[..PART_SIZE])
    ensures Honoured(call) ==>
              && Flatten(full + [buf[..PART_SIZE]]) + buf[PART_SIZE..] == body
              && Progress(calls + [call], uploadId, full + [buf[..PART_SIZE]],
                          parts + [CompletedPart(partNumber, call.answer.tag.value)], partNumber + 1)
    ensures !Honoured(call) ==> Failed(calls + [call], uploadId, body + unread)
  {
    var part, rest := buf[..PART_SIZE], buf[PART_SIZE..] + unread;
    assert part + buf[PART_SIZE..] == buf && part + rest == buf + unread;
    assert Flatten(full) + (part + rest) == body + unread;
    SplitFirst(part, rest);
    OnePart(calls, call, uploadId, full, part, rest);
    FlattenOneMore(full, part, buf[PART_SIZE..]);
  }

  /**
   * Upload full parts while the buffer holds one. `body` is what has been read, `unread`
   * what is still to come; `before` and `calls0` split the log at the upload's creation.
   */
  method FlushFullParts(store: ObjectStore, uploadId: string, buf0: Bytes, parts0: seq<CompletedPart>, partNumber0: nat,
                        ghost full0: seq<Bytes>, ghost body: Bytes, ghost unread: Bytes,
                        ghost before: seq<Call>, ghost calls0: seq<Call>)
    returns (ok: bool, buf: Bytes, parts: seq<CompletedPart>, partNumber: nat, ghost full: seq<Bytes>,
             ghost calls: seq<Call>)
    requires store.log == before + calls0 && Progress(calls0, uploadId, full0, parts0, partNumber0)
    requires Flatten(full0) + buf0 == body
    modifies store
    ensures store.log == before + calls
    ensures ok ==> Reading(calls, uploadId, full, buf, parts, partNumber, body)
    ensures !ok ==> Failed(calls, uploadId, body + unread)
  {
    buf, parts, partNumber, full, calls := buf0, parts0, partNumber0, full0, calls0;
    while |buf| >= PART_SIZE
      invariant store.log == before + calls
      invariant Progress(calls, uploadId, full, parts, partNumber)
      invariant Flatten(full) + buf == body
      decreases |buf|
    {
      var part := buf[..PART_SIZE];
      ghost var call;
      var etag;
      etag, call := PutPart(store, uploadId, partNumber, part);
      FullPartSent(calls, call, uploadId, full, buf, parts, partNumber, body, unread);
      buf := buf[PART_SIZE..];
      calls := calls + [call];
      if etag == None {
        return false, buf, parts, partNumber, full, calls;
      }
      parts := parts + [CompletedPart(partNumber, etag.value)];
      partNumber := partNumber + 1;
      full := full + [part];
    }
    ok := true;
  }

  /** The trailing part, if any bytes are left. */
  method PutTrailingPart(store: ObjectStore, uploadId: string, buf: Bytes, parts0: seq<CompletedPart>, partNumber: nat,
                         ghost full: seq<Bytes>, ghost body: Bytes, ghost before: seq<Call>, ghost calls0: seq<Call>)
    returns (ok: bool, parts: seq<CompletedPart>, ghost calls: seq<Call>)
    requires store.log == before + calls0 && Reading(calls0, uploadId, full, buf, parts0, partNumber, body)
    modifies store
    ensures store.log == before + calls
    ensures ok ==> UploadedParts(calls, uploadId, Split(body)) && Lists(parts, calls)
    ensures !ok ==> Failed(calls, uploadId, body)
  {
    parts, calls := parts0, calls0;
    SplitAfterFull(full, buf);
    if buf == [] {
      assert full + Split(buf) == full;
      return true, parts, calls;
    }
    ghost var call;
    var etag;
    etag, call := PutPart(store, uploadId, partNumber, buf);
    assert buf + [] == buf;
    OnePart(calls, call, uploadId, full, buf, []);
    calls := calls + [call];
    if etag == None {
      return false, parts, calls;
    }
    return true, parts + [CompletedPart(partNumber, etag.value)], calls;
  }

  lemma CompletionDecides(calls: seq<Call>, call: Call, uploadId: string, body: Bytes)
    requires UploadedParts(calls, uploadId, Split(body))
    requires call.request.CompleteMultipartUpload? && call.request.uploadId == uploadId
             && Lists(call.request.parts, calls)
    ensures Honoured(call) ==> Finished(calls + [call], uploadId, body)
    ensures !Honoured(call) ==> Failed(calls + [call], uploadId, body)
  {
    assert (calls + [call])[..|calls|] == calls;
    assert Split(body)[..|calls|] == Split(body);
  }

  method FinishUpload(store: ObjectStore, uploadId: string, buf: Bytes, parts0: seq<CompletedPart>, partNumber: nat,
                      ghost full: seq<Bytes>, ghost body: Bytes, ghost before: seq<Call>, ghost calls0: seq<Call>)
    returns (ok: bool, ghost calls: seq<Call>)
    requires store.log == before + calls0 && Reading(calls0, uploadId, full, buf, parts0, partNumber, body)
    modifies store
    ensures store.log == before + calls
    ensures if ok then Finished(calls, uploadId, body) else Failed(calls, uploadId, body)
  {
    var parts;
    ok, parts, calls := PutTrailingPart(store, uploadId, buf, parts0, partNumber, full, body, before, calls0);
    if ok {
      var answer := store.Ask(CompleteMultipartUpload(uploadId, parts));
      ghost var call := Call(CompleteMultipartUpload(uploadId, parts), answer);
      CompletionDecides(calls, call, uploadId, body);
      calls := calls + [call];
      ok := answer.Success?;
    }
  }

  /** The requests and the outcome of the multipart phase agree. */
  ghost predicate Outcome(r: Result<nat, UploadError>, calls: seq<Call>, uploadId: string, chunks: seq<Chunk>,
                          maxSize: nat)
  {
    if r.Ok? then Finished(calls, uploadId, Concat(chunks)) && r == Verdict(chunks, maxSize)
    else Halted(calls, uploadId, Concat(chunks)) && r == if LastFailed(calls) then Err(S3) else Verdict(chunks, maxSize)
  }

  /** Between two chunks: a bad chunk ends the upload here, a good one extends the body. */
  lemma NextChunk(chunks: seq<Chunk>, i: nat, maxSize: nat,
                  calls: seq<Call>, uploadId: string, full: seq<Bytes>, buf: Bytes,
                  parts: seq<CompletedPart>, partNumber: nat)
    requires i < |chunks| && Intact(chunks[..i]) && |Concat(chunks[..i])| <= maxSize
    requires Reading(calls, uploadId, full, buf, parts, partNumber, Concat(chunks[..i]))
    ensures chunks[i].Broken? ==> Outcome(Err(Stream(chunks[i].message)), calls, uploadId, chunks, maxSize)
    ensures chunks[i].Data? ==>
              && Intact(chunks[..i + 1])
              && |Concat(chunks[..i + 1])| == |Concat(chunks[..i])| + |chunks[i].bytes|
              && Flatten(full) + (buf + chunks[i].bytes) == Concat(chunks[..i + 1])
              && Concat(chunks) == Concat(chunks[..i + 1]) + Concat(chunks[i + 1..])
              && (|Concat(chunks[..i + 1])| > maxSize ==>
                   Outcome(Err(TooLarge(maxSize)), calls, uploadId, chunks, maxSize))
  {
    ReadNext(chunks, i, maxSize);
    ReadingHalts(calls, uploadId, full, buf, parts, partNumber, Concat(chunks[..i]), Concat(chunks[i..]));
  }

  /** Re-chunk the rest of the stream from `start` on. */
  method DrainStream(store: ObjectStore, uploadId: string, buf0: Bytes, parts0: seq<CompletedPart>, partNumber0: nat,
                     ghost full0: seq<Bytes>, chunks: seq<Chunk>, start: nat, total0: nat, maxSize: nat,
                     ghost before: seq<Call>, ghost calls0: seq<Call>)
    returns (failure: Option<UploadError>, buf: Bytes, parts: seq<CompletedPart>, partNumber: nat,
             ghost full: seq<Bytes>, total: nat, ghost calls: seq<Call>)
    requires start <= |chunks| && Intact(chunks[..start])
    requires store.log == before + calls0 && total0 == |Concat(chunks[..start])| <= maxSize
    requires Reading(calls0, uploadId, full0, buf0, parts0, partNumber0, Concat(chunks[..start]))
    modifies store
    ensures store.log == before + calls
    ensures failure.Some? ==> Outcome(Err(failure.value), calls, uploadId, chunks, maxSize)
    ensures failure == None ==> Intact(chunks) && total0 <= total == |Concat(chunks)| <= maxSize
    ensures failure == None ==> Reading(calls, uploadId, full, buf, parts, partNumber, Concat(chunks))
  {
    buf, parts, partNumber, full, total, calls := buf0, parts0, partNumber0, full0, total0, calls0;
    var i := start;
    while i < |chunks|
      invariant start <= i <= |chunks| && Intact(chunks[..i])
      invariant store.log == before + calls
      invariant total0 <= total == |Concat(chunks[..i])| <= maxSize
      invariant Reading(calls, uploadId, full, buf, parts, partNumber, Concat(chunks[..i]))
    {
      NextChunk(chunks, i, maxSize, calls, uploadId, full, buf, parts, partNumber);
      if chunks[i].Broken? {
        failure := Some(Stream(chunks[i].message));
        return;
      }
      total := total + |chunks[i].bytes|;
      if total > maxSize {
        failure := Some(TooLarge(maxSize));
        return;
      }
      var ok;
      ok, buf, parts, partNumber, full, calls :=
        FlushFullParts(store, uploadId, buf + chunks[i].bytes, parts, partNumber, full,
                       Concat(chunks[..i + 1]), Concat(chunks[i + 1..]), before, calls);
      if !ok {
        failure := Some(S3);
        return;
      }
      i := i + 1;
    }
    assert chunks[..|chunks|] == chunks;
    failure := None;
  }

  /** Upload what was buffered, re-chunk the rest of the stream, and finish. */
  method RunMultipart(store: ObjectStore, uploadId: string, buf0: Bytes, chunks: seq<Chunk>, start: nat, total0: nat,
                      maxSize: nat)
    returns (r: Result<nat, UploadError>, ghost calls: seq<Call>)
    requires start <= |chunks| && Intact(chunks[..start]) && buf0 == Concat(chunks[..start])
    requires PART_SIZE <= total0 == |buf0| <= maxSize
    modifies store
    ensures store.log == old(store.log) + calls
    ensures Outcome(r, calls, uploadId, chunks, maxSize)
  {
    ghost var before := store.log;
    ConcatPrefix(chunks, start);
    var buf, parts: seq<CompletedPart>, partNumber := buf0, [], 1;
    ghost var full: seq<Bytes> := [];
    calls := [];
    assert Flatten(full) + buf0 == buf0;
    var ok;
    ok, buf, parts, partNumber, full, calls :=
      FlushFullParts(store, uploadId, buf, parts, partNumber, full, buf0, Concat(chunks[start..]), before, calls);
    if !ok {
      return Err(S3), calls;
    }
    var failure, total;
    failure, buf, parts, partNumber, full, total, calls :=
      DrainStream(store, uploadId, buf, parts, partNumber, full, chunks, start, total0, maxSize, before, calls);
    if failure.Some? {
      return Err(failure.value), calls;
    }
    ok, calls := FinishUpload(store, uploadId, buf, parts, partNumber, full, Concat(chunks), before, calls);
    r := if ok then Ok(total) else Err(S3);
  }

  predicate AskFailed(calls: seq<Call>) {
    exists c :: c in calls && !Honoured(c)
  }

  /** The requests of a successful upload, a function of the body alone. */
  ghost predicate Stored(calls: seq<Call>, body: Bytes) {
    if |body| < PART_SIZE then |calls| == 1 && calls[0].request == PutObject(body) && Honoured(calls[0])
    else
      && calls != [] && calls[0].request.CreateMultipartUpload? && Honoured(calls[0])
      && Finished(calls[1..], calls[0].answer.tag.value, body)
  }

  /**
   * The requests of a failed upload: nothing, one refused opening request, or a started
   * multipart upload that halted and was then aborted under its own id.
   */
  ghost predicate Abandoned(calls: seq<Call>, body: Bytes) {
    || calls == []
    || (|calls| == 1 && !Honoured(calls[0])
         && (calls[0].request == PutObject(body) || calls[0].request.CreateMultipartUpload?))
    || (&& |calls| >= 2 && calls[0].request.CreateMultipartUpload? && Honoured(calls[0])
        && calls[|calls| - 1].request == AbortMultipartUpload(calls[0].answer.tag.value)
        && Halted(calls[1..|calls| - 1], calls[0].answer.tag.value, body))
  }

  /** Buffer until a full part is there or the stream ends or goes wrong. */
  method FillFirstPart(chunks: seq<Chunk>, maxSize: nat) returns (failure: Option<UploadError>, buf: Bytes, read: nat)
    ensures read <= |chunks|
    ensures failure == None ==> Intact(chunks[..read]) && buf == Concat(chunks[..read]) && |buf| <= maxSize
    ensures failure == None && |buf| < PART_SIZE ==> read == |chunks|
    ensures failure.Some? ==> Verdict(chunks, maxSize) == Err(failure.value)
  {
    buf, read := [], 0;
    var total := 0;
    while |buf| < PART_SIZE && read < |chunks|
      invariant read <= |chunks| && Intact(chunks[..read])
      invariant buf == Concat(chunks[..read]) && total == |buf| <= maxSize
      decreases |chunks| - read
    {
      ReadNext(chunks, read, maxSize);
      if chunks[read].Broken? {
        return Some(Stream(chunks[read].message)), buf, read;
      }
      total := total + |chunks[read].bytes|;
      if total > maxSize {
        return Some(TooLarge(maxSize)), buf, read;
      }
      buf := buf + chunks[read].bytes;
      read := read + 1;
    }
    failure := None;
  }

  /** Requests and result of a whole upload agree. */
  ghost predicate Settled(r: Result<nat, UploadError>, calls: seq<Call>, chunks: seq<Chunk>, maxSize: nat) {
    && r == (if AskFailed(calls) then Err(S3) else Verdict(chunks, maxSize))
    && (r.Ok? ==> Stored(calls, Concat(chunks)))
    && (r.Err? ==> Abandoned(calls, Concat(chunks)))
  }

  lemma AbortSettles(r: Result<nat, UploadError>, create: Call, calls: seq<Call>, abort: Call, chunks: seq<Chunk>,
                     maxSize: nat)
    requires create.request.CreateMultipartUpload? && Honoured(create) && r.Err?
    requires Outcome(r, calls, create.answer.tag.value, chunks, maxSize)
    requires abort.request == AbortMultipartUpload(create.answer.tag.value)
    ensures Settled(r, [create] + calls + [abort], chunks, maxSize)
  {
    var all := [create] + calls + [abort];
    assert all[1..|all| - 1] == calls;
    HaltedFailure(calls, create.answer.tag.value, Concat(chunks));
    assert forall c :: c in calls ==> c in all;
  }

  lemma CompletionSettles(r: Result<nat, UploadError>, create: Call, calls: seq<Call>, chunks: seq<Chunk>, maxSize: nat)
    requires create.request.CreateMultipartUpload? && Honoured(create) && r.Ok?
    requires Outcome(r, calls, create.answer.tag.value, chunks, maxSize) && |Concat(chunks)| >= PART_SIZE
    ensures Settled(r, [create] + calls, chunks, maxSize)
  {
    assert ([create] + calls)[1..] == calls;
    FinishedHasNoFailure(calls, create.answer.tag.value, Concat(chunks));
  }

  lemma LogInOrder(log: seq<Call>, create: Call, calls: seq<Call>, abort: Call)
    ensures log + [create] + calls == log + ([create] + calls)
    ensures log + [create] + calls + [abort] == log + ([create] + calls + [abort])
  {
  }

  lemma HaltedFailure(calls: seq<Call>, uploadId: string, body: Bytes)
    requires Halted(calls, uploadId, body)
    ensures AskFailed(calls) <==> LastFailed(calls)
  {
    var n := if LastFailed(calls) then |calls| - 1 else |calls|;
    forall i | 0 <= i < n ensures Honoured(calls[i]) {
      assert calls[i] == calls[..n][i];
    }
  }

  lemma FinishedHasNoFailure(calls: seq<Call>, uploadId: string, body: Bytes)
    requires Finished(calls, uploadId, body)
    ensures !AskFailed(calls)
  {
    var n := |Split(body)|;
    forall i | 0 <= i < n ensures Honoured(calls[i]) {
      assert calls[i] == calls[..n][i];
    }
  }

  lemma OneRequestSettles(r: Result<nat, UploadError>, call: Call, chunks: seq<Chunk>, maxSize: nat)
    requires call.request == PutObject(Concat(chunks)) || (call.request.CreateMultipartUpload? && !Honoured(call))
    requires r == if Honoured(call) then Verdict(chunks, maxSize) else Err(S3)
    requires Honoured(call) ==> r.Ok? && |Concat(chunks)| < PART_SIZE
    ensures Settled(r, [call], chunks, maxSize)
  {
    assert call in [call];
  }

  /** The large-file path: any failure after the upload was created aborts it. */
  method UploadInParts(store: ObjectStore, buf: Bytes, chunks: seq<Chunk>, read: nat, maxSize: nat)
    returns (r: Result<nat, UploadError>, ghost calls: seq<Call>)
    requires read <= |chunks| && Intact(chunks[..read]) && buf == Concat(chunks[..read])
    requires PART_SIZE <= |buf| <= maxSize
    modifies store
    ensures store.log == old(store.log) + calls
    ensures Settled(r, calls, chunks, maxSize)
  {
    ConcatPrefix(chunks, read);
    var answer := store.Ask(CreateMultipartUpload);
    ghost var create := Call(CreateMultipartUpload, answer);
    if answer.Failure? || answer.tag == None {
      OneRequestSettles(Err(S3), create, chunks, maxSize);
      return Err(S3), [create];
    }
    var uploadId := answer.tag.value;
    r, calls := RunMultipart(store, uploadId, buf, chunks, read, |buf|, maxSize);
    if r.Err? {
      var answer := store.Ask(AbortMultipartUpload(uploadId));
      ghost var abort := Call(AbortMultipartUpload(uploadId), answer);
      AbortSettles(r, create, calls, abort, chunks, maxSize);
      LogInOrder(old(store.log), create, calls, abort);
      calls := [create] + calls + [abort];
    } else {
      CompletionSettles(r, create, calls, chunks, maxSize);
      calls := [create] + calls;
    }
  }

  /**
   * Any stream, any store. Unless the store fails a request, the outcome is the verdict on
   * the bytes alone, however they were chunked; a success stored exactly those bytes, and
   * every failure after an upload was created aborted that upload.
   */
  method UploadStream(store: ObjectStore, chunks: seq<Chunk>, maxSize: nat)
    returns (r: Result<nat, UploadError>, ghost calls: seq<Call>)
    modifies store
    ensures store.log == old(store.log) + calls
    ensures r == (if AskFailed(calls) then Err(S3) else Verdict(chunks, maxSize))
    ensures Intact(chunks) && Concat(chunks) == [] ==> r == Err(Empty) && calls == []
    ensures |Concat(chunks)| > maxSize ==> r == if AskFailed(calls) then Err(S3) else Err(TooLarge(maxSize))
    ensures !Intact(chunks) && |Concat(chunks)| <= maxSize ==>
              r == if AskFailed(calls) then Err(S3) else Err(Stream(FirstError(chunks)))
    ensures Intact(chunks) && 0 < |Concat(chunks)| <= maxSize ==>
              r == if AskFailed(calls) then Err(S3) else Ok(|Concat(chunks)|)
    ensures r.Ok? ==> Stored(calls, Concat(chunks)) && ObjectAfter(calls) == Some(Concat(chunks))
    ensures r.Err? ==> Abandoned(calls, Concat(chunks))
    ensures r.Err? ==> forall i :: 0 <= i < |calls| - 2 ==> Honoured(calls[i])
    ensures r.Err? && calls != [] && calls[0].request.CreateMultipartUpload? && Honoured(calls[0]) ==>
              |calls| >= 2 && calls[|calls| - 1].request == AbortMultipartUpload(calls[0].answer.tag.value)
    ensures r.Err? ==>
              ObjectAfter(calls) == if exists c :: c in calls && LostAnswer(c) then Some(Concat(chunks)) else None
  {
    r, calls := UploadChunks(store, chunks, maxSize);
    if r.Ok? {
      StoredObjectIsTheStream(calls, Concat(chunks));
    } else {
      AbandonedLeavesObjectIff(calls, Concat(chunks));
      FailureIsLast(calls, Concat(chunks));
    }
  }

  method UploadChunks(store: ObjectStore, chunks: seq<Chunk>, maxSize: nat)
    returns (r: Result<nat, UploadError>, ghost calls: seq<Call>)
    modifies store
    ensures store.log == old(store.log) + calls
    ensures Settled(r, calls, chunks, maxSize)
    ensures Intact(chunks) && Concat(chunks) == [] ==> r == Err(Empty) && calls == []
  {
    calls := [];
    var failure, buf, read := FillFirstPart(chunks, maxSize);
    if failure.Some? {
      return Err(failure.value), [];
    }
    if |buf| >= PART_SIZE {
      ConcatPrefix(chunks, read);
      r, calls := UploadInParts(store, buf, chunks, read, maxSize);
      return;
    }
    assert chunks[..|chunks|] == chunks;
    if buf == [] {
      return Err(Empty), [];
    }
    var answer := store.Ask(PutObject(buf));
    calls := [Call(PutObject(buf), answer)];
    r := if answer.Success? then Ok(|buf|) else Err(S3);
    OneRequestSettles(r, calls[0], chunks, maxSize);
  }

  // ── What a reader of the object gets back ──

  /** Together the parts are the body. */
  lemma {:induction false} PartsMakeTheBody(body: Bytes)
    ensures Flatten(Split(body)) == body
    decreases |body|
  {
    if |body| > PART_SIZE {
      var tail := Split(body[PART_SIZE..]);
      PartsMakeTheBody(body[PART_SIZE..]);
      assert Split(body)[0] == body[..PART_SIZE] && Split(body)[1..] == tail;
      assert body[..PART_SIZE] + body[PART_SIZE..] == body;
    } else if body != [] {
      assert Flatten([body]) == body + Flatten([body][1..]);
    }
  }

  /** All parts but the last are full, and none is empty. */
  lemma {:induction false} PartSizes(body: Bytes, i: nat)
    requires i < |Split(body)|
    ensures i < |Split(body)| - 1 ==> |Split(body)[i]| == PART_SIZE
    ensures 0 < |Split(body)[i]| <= PART_SIZE
    decreases |body|
  {
    if |body| > PART_SIZE && i > 0 {
      PartSizes(body[PART_SIZE..], i - 1);
    } else if |body| > PART_SIZE {
      assert Split(body)[0] == body[..PART_SIZE];
    }
  }

  /**
   * The requests of a successful upload. Below 8 MiB it is one PutObject of the body;
   * otherwise one upload is created, its parts 1, 2, ... are sent in order, all full but the
   * last, and it is completed with each of them under the ETag it came back with.
   */
  lemma RequestsOfSuccess(calls: seq<Call>, body: Bytes)
    requires Stored(calls, body)
    ensures |body| < 8_388_608 ==> |calls| == 1 && calls[0].request == PutObject(body)
    ensures |body| >= 8_388_608 ==>
              var n := (|body| + 8_388_607) / 8_388_608;
              && |calls| == n + 2 && calls[0].request.CreateMultipartUpload? && calls[0].answer.Success?
              && calls[0].answer.tag.Some?
              && (forall i :: 1 <= i <= n ==>
                    && calls[i].request.UploadPart? && calls[i].request.uploadId == calls[0].answer.tag.value
                    && calls[i].request.number == i
                    && 0 < |calls[i].request.body| <= 8_388_608 && (i < n ==> |calls[i].request.body| == 8_388_608))
              && calls[n + 1].request.CompleteMultipartUpload?
              && calls[n + 1].request.uploadId == calls[0].answer.tag.value
              && |calls[n + 1].request.parts| == n
              && forall i :: 1 <= i <= n ==>
                   && calls[n + 1].request.parts[i - 1].number == i
                   && calls[i].answer == Success(Some(calls[n + 1].request.parts[i - 1].etag))
  {
    if |body| >= PART_SIZE {
      var n := |Split(body)|;
      PartCount(body);
      assert calls[n + 1] == calls[1..][n];
      forall i {:trigger calls[i]} | 1 <= i <= n
        ensures calls[i] == calls[1..][..n][i - 1]
        ensures 0 < |Split(body)[i - 1]| <= PART_SIZE && (i < n ==> |Split(body)[i - 1]| == PART_SIZE)
      {
        PartSizes(body, i - 1);
      }
    }
  }

  /** There are as many parts as it takes: the quotient of the sizes, rounded up. */
  lemma {:induction false} PartCount(body: Bytes)
    ensures |Split(body)| == (|body| + PART_SIZE - 1) / PART_SIZE
    decreases |body|
  {
    if |body| > PART_SIZE {
      PartCount(body[PART_SIZE..]);
    }
  }

  /** The bytes the store keeps for a listed part: those last uploaded under its number and ETag. */
  function PartBytes(calls: seq<Call>, part: CompletedPart): Bytes {
    if calls == [] then []
    else
      var last := calls[|calls| - 1];
      if last.request.UploadPart? && last.request.number == part.number && last.answer == Success(Some(part.etag))
      then last.request.body
      else PartBytes(calls[..|calls| - 1], part)
  }

  function Assembled(calls: seq<Call>, parts: seq<CompletedPart>): Bytes {
    if parts == [] then []
    else Assembled(calls, parts[..|parts| - 1]) + PartBytes(calls, parts[|parts| - 1])
  }

  /** The store has carried the request out, whether or not the caller has been told. */
  predicate CarriedOut(call: Call) {
    call.answer.Success? || call.answer.applied
  }

  /** The object a reader sees after a sequence of requests, if one was created. */
  function ObjectAfter(calls: seq<Call>): Option<Bytes> {
    if calls == [] then None
    else
      var last, before := calls[|calls| - 1], calls[..|calls| - 1];
      match last.request
      case PutObject(body) => if CarriedOut(last) then Some(body) else ObjectAfter(before)
      case CompleteMultipartUpload(_, parts) =>
        if CarriedOut(last) then Some(Assembled(before, parts)) else ObjectAfter(before)
      case _ => ObjectAfter(before)
  }

  lemma {:induction false} PartBytesFound(calls: seq<Call>, uploadId: string, bodies: seq<Bytes>, part: CompletedPart,
                                          prefix: seq<Call>)
    requires UploadedParts(calls, uploadId, bodies) && 1 <= part.number <= |calls|
    requires calls[part.number - 1].answer == Success(Some(part.etag))
    ensures PartBytes(prefix + calls, part) == bodies[part.number - 1]
    decreases |calls|
  {
    var all, n := prefix + calls, |calls|;
    assert all[|all| - 1] == calls[n - 1];
    if part.number < n {
      assert all[..|all| - 1] == prefix + calls[..n - 1];
      PartBytesFound(calls[..n - 1], uploadId, bodies[..n - 1], part, prefix);
    }
  }

  lemma {:induction false} AssembledIsFlat(calls: seq<Call>, uploadId: string, bodies: seq<Bytes>,
                                           parts: seq<CompletedPart>, k: nat, prefix: seq<Call>)
    requires k <= |parts| && UploadedParts(calls, uploadId, bodies) && Lists(parts, calls)
    ensures Assembled(prefix + calls, parts[..k]) == Flatten(bodies[..k])
    decreases k
  {
    if k > 0 {
      assert parts[..k][..k - 1] == parts[..k - 1] && bodies[..k] == bodies[..k - 1] + [bodies[k - 1]];
      AssembledIsFlat(calls, uploadId, bodies, parts, k - 1, prefix);
      PartBytesFound(calls, uploadId, bodies, parts[k - 1], prefix);
      FlattenAppend(bodies[..k - 1], [bodies[k - 1]]);
      assert Flatten([bodies[k - 1]]) == bodies[k - 1] + Flatten([bodies[k - 1]][1..]);
    }
  }

  /** After a successful upload the object is the stream's bytes. */
  lemma StoredObjectIsTheStream(calls: seq<Call>, body: Bytes)
    requires Stored(calls, body)
    ensures ObjectAfter(calls) == Some(body)
  {
    if |body| >= PART_SIZE {
      var n := |Split(body)|;
      var uploads := calls[1..][..n];
      var last := calls[|calls| - 1];
      assert last == calls[1..][n];
      assert calls[..|calls| - 1] == [calls[0]] + uploads;
      var parts := last.request.parts;
      assert parts[..n] == parts && Split(body)[..n] == Split(body);
      AssembledIsFlat(uploads, calls[0].answer.tag.value, Split(body), parts, n, [calls[0]]);
      PartsMakeTheBody(body);
    }
  }

  /**
   * Chunk boundaries leave no trace: two successful uploads of the same bytes, to stores
   * that answer alike, made the very same requests. (A failed one may have uploaded more
   * or fewer parts before the failure was seen.)
   */
  lemma SameBytesSameRequests(a: seq<Call>, b: seq<Call>, body: Bytes)
    requires Stored(a, body) && Stored(b, body)
    requires forall i {:trigger a[i]} :: 0 <= i < |a| && i < |b| ==> a[i].answer == b[i].answer
    ensures a == b
  {
    if |body| >= PART_SIZE {
      var n, id := |Split(body)|, a[0].answer.tag.value;
      SameUploads(a[1..][..n], b[1..][..n], id, Split(body));
      SameList(a[1..][n].request.parts, b[1..][n].request.parts, a[1..][..n]);
      assert a == [a[0]] + a[1..][..n] + [a[1..][n]];
      assert b == [b[0]] + b[1..][..n] + [b[1..][n]];
      assert a[1..][n] == b[1..][n];
    }
  }

  lemma SameUploads(a: seq<Call>, b: seq<Call>, uploadId: string, bodies: seq<Bytes>)
    requires UploadedParts(a, uploadId, bodies) && UploadedParts(b, uploadId, bodies)
    requires forall i {:trigger a[i]} :: 0 <= i < |a| && i < |b| ==> a[i].answer == b[i].answer
    ensures a == b
  {
    forall i | 0 <= i < |a| ensures a[i] == b[i] {
    }
  }

  /** The answers determine the part list. */
  lemma SameList(p: seq<CompletedPart>, q: seq<CompletedPart>, calls: seq<Call>)
    requires Lists(p, calls) && Lists(q, calls)
    ensures p == q
  {
    forall i | 0 <= i < |p| ensures p[i] == q[i] {
      assert calls[i].answer.tag == Some(p[i].etag);
    }
  }

  /** Nothing is asked after a refused request but to abort. */
  lemma FailureIsLast(calls: seq<Call>, body: Bytes)
    requires Abandoned(calls, body)
    ensures forall i :: 0 <= i < |calls| - 2 ==> Honoured(calls[i])
  {
    if |calls| >= 2 {
      var middle := calls[1..|calls| - 1];
      var n := if LastFailed(middle) then |middle| - 1 else |middle|;
      forall i | 1 <= i < |calls| - 2 ensures Honoured(calls[i]) {
        assert calls[i] == middle[i - 1] == middle[..n][i - 1];
      }
    }
  }

  /** A PutObject or a completion that the store carried out although the caller saw it fail. */
  predicate LostAnswer(call: Call) {
    (call.request.PutObject? || call.request.CompleteMultipartUpload?) && call.answer.Failure? && call.answer.applied
  }

  /**
   * After a failed upload there is no object, unless the answer to the final request was
   * lost: then the object is the whole stream, although the caller was told otherwise.
   */
  lemma AbandonedLeavesObjectIff(calls: seq<Call>, body: Bytes)
    requires Abandoned(calls, body)
    ensures ObjectAfter(calls) == if exists c :: c in calls && LostAnswer(c) then Some(body) else None
  {
    if |calls| == 1 {
      assert calls[0] in calls && ObjectAfter(calls[..0]) == None;
    } else if |calls| >= 2 {
      var front, last := calls[..|calls| - 1], calls[|calls| - 1];
      assert front == [calls[0]] + calls[1..|calls| - 1];
      assert forall c :: c in calls <==> c in front || c == last;
      HaltedLeavesObjectIff(calls[0], calls[1..|calls| - 1], calls[0].answer.tag.value, body);
    }
  }

  lemma HaltedLeavesObjectIff(create: Call, calls: seq<Call>, uploadId: string, body: Bytes)
    requires Halted(calls, uploadId, body) && create.request.CreateMultipartUpload?
    ensures ObjectAfter([create] + calls)
         == if exists c :: c in [create] + calls && LostAnswer(c) then Some(body) else None
  {
    var all := [create] + calls;
    if calls != [] && LostAnswer(calls[|calls| - 1]) {
      LostCompletion(create, calls, uploadId, body);
      assert calls[|calls| - 1] in all;
    } else {
      HaltedCompletesNothing(calls, uploadId, body);
      forall c | c in all && (c.request.PutObject? || c.request.CompleteMultipartUpload?) ensures !CarriedOut(c) {
        assert c in calls;
      }
      NothingStored(all);
    }
  }

  /** A completion whose answer was lost has assembled the body. */
  lemma LostCompletion(create: Call, calls: seq<Call>, uploadId: string, body: Bytes)
    requires Halted(calls, uploadId, body) && calls != [] && LostAnswer(calls[|calls| - 1])
    ensures ObjectAfter([create] + calls) == Some(body)
  {
    var n, last := |calls| - 1, calls[|calls| - 1];
    var all, uploads, parts := [create] + calls, calls[..|calls| - 1], last.request.parts;
    assert all[|all| - 1] == last && all[..|all| - 1] == [create] + uploads;
    assert Split(body)[..n] == Split(body) && parts[..n] == parts;
    AssembledIsFlat(uploads, uploadId, Split(body), parts, n, [create]);
    PartsMakeTheBody(body);
  }

  /** Before the last request of a halted upload, only parts were asked for. */
  lemma HaltedCompletesNothing(calls: seq<Call>, uploadId: string, body: Bytes)
    requires Halted(calls, uploadId, body) && (calls != [] ==> !LostAnswer(calls[|calls| - 1]))
    ensures forall c :: c in calls && !c.request.UploadPart? ==> !CarriedOut(c)
  {
    var n := if LastFailed(calls) then |calls| - 1 else |calls|;
    forall i | 0 <= i < n ensures calls[i].request.UploadPart? {
      assert calls[i] == calls[..n][i];
    }
  }

  lemma {:induction false} NothingStored(calls: seq<Call>)
    requires forall c :: c in calls && (c.request.PutObject? || c.request.CompleteMultipartUpload?) ==> !CarriedOut(c)
    ensures ObjectAfter(calls) == None
    decreases calls
  {
    if calls != [] {
      assert calls[|calls| - 1] in calls;
      NothingStored(calls[..|calls| - 1]);
    }
  }
}
