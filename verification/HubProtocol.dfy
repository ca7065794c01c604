/** One delivery attempt of HubTransport, as a chain of stages.

    The environment is a script: one answer for every request, every durable write and
    every place where the process can die. `wire` is what left or reached the process. */
module HubProtocol {
  import opened Prelude

  type UploadId = string

  datatype Status = AwaitingUpload | VerificationPending | TransferFailed | Verified | Quarantined | OtherStatus

  datatype Receipt = Receipt(schema: string, status: Status, contentId: string, manifestDigest: string,
      receiptId: string)

  /** `putAllowed` says that the upload URL, method and headers pass every check. */
  datatype Response = Response(uploadId: Option<string>, status: Status, receipt: Option<Receipt>, putAllowed: bool)

  datatype AuthStatus = Unauthorized401 | Forbidden403

  datatype HubReply =
    | Replied(response: Response)
    | AuthRejected(httpStatus: AuthStatus)
    | Unavailable   // retryable transport failure, an OSError
    | Refused       // a ValueError
    | DiedWaiting

  datatype WriteReply = Written | WriteFailed | DiedBefore | DiedAfter

  datatype BuildReply = Built | BuildUnavailable | BuildRefused | DiedBuilding | DiedPublished

  datatype PutReply = Stored | PutUnavailable | PutRefused | DiedUploading

  datatype Archive = Archive(digest: string, bytes: nat)

  /** The `.upload.json` file beside the archive. */
  datatype Sidecar = Sidecar(uploadId: UploadId, archive: Archive, status: Status)

  /** The durable files of one transfer manifest. Replacing a file is atomic. */
  datatype Cache = Cache(archive: Option<Archive>, sidecar: Option<Sidecar>)

  datatype Script = Script(
    archive: Archive, build: BuildReply,
    poll: HubReply, pollWrite: WriteReply,
    intent: HubReply, intentWrite: WriteReply,
    query: HubReply, queryWrite: WriteReply,
    put: PutReply,
    complete: HubReply, completeWrite: WriteReply)

  datatype Wire =
    | HubAnswer(status: Status, putAllowed: bool)
    | PutSent(uploadId: UploadId, archive: Archive, sidecar: Option<Sidecar>)

  datatype Outcome =
    | Terminal(receipt: Receipt)
    | Pending
    | AuthBlocked(httpStatus: AuthStatus, uploadId: Option<UploadId>, archive: Archive)
    | RetryLater
    | Rejected
    | Died

  /** Where an attempt stands. `verdict` is set once it is over. */
  datatype Attempt = Attempt(
    cache: Cache, archive: Archive, persisted: Option<UploadId>, wire: seq<Wire>, verdict: Option<Outcome>)

  function Stop(a: Attempt, outcome: Outcome): Attempt {
    a.(verdict := Some(outcome))
  }

  predicate IdCharacter(c: char) {
    'a' <= c <= 'z' || 'A' <= c <= 'Z' || '0' <= c <= '9' || c == '-' || c == '_'
  }

  predicate ValidId(id: UploadId) {
    id != "" && forall i :: 0 <= i < |id| ==> IdCharacter(id[i])
  }

  /** _disposition: Ok(None) asks for an upload, Ok(Some(receipt)) ends the attempt. */
  function Disposition(r: Response, allowUpload: bool): (d: Result<Option<Receipt>, Outcome>)
    ensures d.Ok? && d.value.Some? <==>
        r.receipt.Some? && r.receipt.value.status == r.status && (r.status.Verified? || r.status.Quarantined?)
    ensures d.Ok? && d.value.Some? ==> d.value == r.receipt
    ensures d.Ok? && d.value.None? <==> r.status.AwaitingUpload? && allowUpload
    ensures d.Err? ==> d.error == Pending || d.error == Rejected
    ensures d == Err(Pending) <==> r.status.VerificationPending?
  {
    match r.status
    case TransferFailed => Err(Rejected)
    case VerificationPending => Err(Pending)
    case AwaitingUpload => if allowUpload then Ok(None) else Err(Rejected)
    case OtherStatus => Err(Rejected)
    case _ =>
      if r.receipt.Some? && r.receipt.value.status == r.status then Ok(r.receipt) else Err(Rejected)
  }

  /** `observe`: check the identity, persist the sidecar, remember what is durable. */
  function Observe(a: Attempt, id: UploadId, r: Response, w: WriteReply): Attempt {
    var saved := a.(cache := a.cache.(sidecar := Some(Sidecar(id, a.archive, r.status))));
    if r.uploadId.Some? && r.uploadId.value != id then Stop(a, Rejected)
    else match w
      case Written => saved.(persisted := Some(id))
      case WriteFailed => if a.persisted == Some(id) then a else Stop(a, RetryLater)
      case DiedBefore => Stop(a, Died)
      case DiedAfter => Stop(saved, Died)
  }

  /** An answer of the Hub, as it is seen from outside. */
  function Heard(r: Response): Wire {
    HubAnswer(r.status, r.putAllowed)
  }

  /** A Hub request that does not answer. `hub_json` attaches the transport identity. */
  function Unanswered(a: Attempt, reply: HubReply): Attempt
    requires !reply.Replied?
  {
    match reply
    case AuthRejected(status) => Stop(a, AuthBlocked(status, a.persisted, a.archive))
    case Unavailable => Stop(a, RetryLater)
    case Refused => Stop(a, Rejected)
    case DiedWaiting => Stop(a, Died)
  }

  /** A Hub request about `id`, and the observation of its answer. */
  function Exchange(a: Attempt, id: UploadId, reply: HubReply, w: WriteReply): Attempt {
    if !reply.Replied? then Unanswered(a, reply)
    else Observe(a.(wire := a.wire + [Heard(reply.response)]), id, reply.response, w)
  }

  /** Ends the attempt unless the answer asks for an upload. */
  function Decide(a: Attempt, r: Response, allowUpload: bool): Attempt {
    match Disposition(r, allowUpload)
    case Err(outcome) => Stop(a, outcome)
    case Ok(None) => a
    case Ok(Some(receipt)) => Stop(a, Terminal(receipt))
  }

  /** `_archive`: an archive that exists is used as it is. */
  function Prepare(cache: Cache, s: Script): Attempt {
    if cache.archive.Some? then Attempt(cache, cache.archive.value, None, [], None)
    else
      var published := Attempt(cache.(archive := Some(s.archive)), s.archive, None, [], None);
      var failed := Attempt(cache, s.archive, None, [], None);
      match s.build
      case Built => published
      case DiedPublished => Stop(published, Died)
      case BuildUnavailable => Stop(failed, RetryLater)
      case BuildRefused => Stop(failed, Rejected)
      case DiedBuilding => Stop(failed, Died)
  }

  /** A sidecar from an earlier attempt: ask for its status before anything else. */
  function Poll(a: Attempt, s: Script): Attempt {
    if a.verdict.Some? || a.cache.sidecar.None? then a
    else
      var previous := a.cache.sidecar.value;
      if previous.archive.digest != a.archive.digest then Stop(a, Rejected)
      else
        var b := Exchange(a.(persisted := Some(previous.uploadId)), previous.uploadId, s.poll, s.pollWrite);
        if s.poll.Replied? then Settle(b, s.poll.response, true) else b
  }

  /** The upload id of an intent answer that passes the checks. */
  predicate AcceptableIntent(a: Attempt, r: Response) {
    && r.uploadId.Some? && ValidId(r.uploadId.value)
    && (a.persisted.Some? ==> r.uploadId == a.persisted)
  }

  /** The intent status may come without its receipt; then the upload is queried. */
  predicate NeedsQuery(r: Response) {
    (r.status.Verified? || r.status.Quarantined?) && r.receipt.None?
  }

  /** An answer that asks for no upload ends the attempt. */
  function Settle(a: Attempt, r: Response, allowUpload: bool): Attempt {
    if a.verdict.Some? then a else Decide(a, r, allowUpload)
  }

  /** The query for the durable receipt, when the intent answer came without it. */
  function Query(a: Attempt, id: UploadId, s: Script): Attempt
    requires s.intent.Replied?
  {
    if a.verdict.Some? then a
    else if !NeedsQuery(s.intent.response) then Decide(a, s.intent.response, true)
    else
      var b := Exchange(a, id, s.query, s.queryWrite);
      if s.query.Replied? then Settle(b, s.query.response, true) else b
  }

  /** POST /v1/uploads. */
  function Request(a: Attempt, s: Script): Attempt {
    if a.verdict.Some? then a
    else if !s.intent.Replied? then Unanswered(a, s.intent)
    else
      var r := s.intent.response;
      var b := a.(wire := a.wire + [Heard(r)]);
      if !AcceptableIntent(b, r) then Stop(b, Rejected)
      else Query(Observe(b, r.uploadId.value, r, s.intentWrite), r.uploadId.value, s)
  }

  function LastResponse(s: Script): Response
    requires s.intent.Replied? && (NeedsQuery(s.intent.response) ==> s.query.Replied?)
  {
    if NeedsQuery(s.intent.response) then s.query.response else s.intent.response
  }

  /** The answer to the completion call. */
  function Complete(a: Attempt, id: UploadId, s: Script): Attempt {
    var b := Exchange(a, id, s.complete, s.completeWrite);
    if s.complete.Replied? then Settle(b, s.complete.response, false) else b
  }

  /** The PUT and its completion. The upload target comes from the last answer. */
  function Upload(a: Attempt, s: Script): Attempt
    requires a.verdict.None? ==>
               s.intent.Replied? && s.intent.response.uploadId.Some?
                   && (NeedsQuery(s.intent.response) ==> s.query.Replied?)
  {
    if a.verdict.Some? then a
    else
      var id := s.intent.response.uploadId.value;
      if !LastResponse(s).putAllowed then Stop(a, Rejected)
      else
        var b := a.(wire := a.wire + [PutSent(id, a.archive, a.cache.sidecar)]);
        match s.put
        case PutUnavailable => Stop(b, RetryLater)
        case PutRefused => Stop(b, Rejected)
        case DiedUploading => Stop(b, Died)
        case Stored => Complete(b, id, s)
  }

  lemma RequestReplied(a: Attempt, s: Script)
    ensures Request(a, s).verdict.None? ==>
              && s.intent.Replied? && s.intent.response.uploadId.Some?
              && (NeedsQuery(s.intent.response) ==> s.query.Replied?)
  {
  }

  /** `__call__`. */
  function Deliver(cache: Cache, s: Script): Attempt {
    var a := Request(Poll(Prepare(cache, s), s), s);
    RequestReplied(Poll(Prepare(cache, s), s), s);
    Upload(a, s)
  }

  // ---- One attempt ----

  /** Files are only ever added, and a sidecar never changes its upload or its archive. */
  predicate Extends(before: Cache, after: Cache) {
    && (before.archive.Some? ==> after.archive == before.archive)
    && (before.sidecar.Some? ==>
          && after.sidecar.Some?
          && after.sidecar.value.uploadId == before.sidecar.value.uploadId
          && after.sidecar.value.archive.digest == before.sidecar.value.archive.digest)
  }

  /** What is remembered as persisted is what the sidecar holds. */
  predicate Durable(a: Attempt) {
    && (a.verdict.None? ==> a.cache.archive == Some(a.archive))
    && (a.persisted.Some? ==>
          && a.cache.archive == Some(a.archive)
          && a.cache.sidecar.Some? && a.cache.sidecar.value.uploadId == a.persisted.value
          && a.cache.sidecar.value.archive.digest == a.archive.digest)
    && (a.verdict.Some? && a.verdict.value.AuthBlocked? ==>
          && a.cache.archive == Some(a.archive)
          && a.verdict.value.archive == a.archive
          && a.verdict.value.uploadId == a.persisted
          && (a.persisted.None? ==> a.cache.sidecar.None?))
    && (a.verdict.Some? && a.verdict.value.Terminal? ==>
          a.persisted.Some?
              && (a.verdict.value.receipt.status.Verified? || a.verdict.value.receipt.status.Quarantined?))
  }

  function Puts(wire: seq<Wire>): nat {
    CountIf(wire, IsPut)
  }

  predicate IsPut(w: Wire) {
    w.PutSent?
  }

  /** A PUT uses the persisted identity and comes right after an answer that awaits and allows the upload. */
  predicate PutJustified(wire: seq<Wire>, q: nat)
    requires q < |wire| && wire[q].PutSent?
  {
    && q > 0 && wire[q - 1] == HubAnswer(AwaitingUpload, true)
    && wire[q].sidecar.Some?
    && wire[q].sidecar.value.uploadId == wire[q].uploadId
    && wire[q].sidecar.value.archive.digest == wire[q].archive.digest
  }

  predicate PutUses(cache: Cache, w: Wire) {
    && w.PutSent? && cache.archive == Some(w.archive)
    && cache.sidecar.Some? && cache.sidecar.value.uploadId == w.uploadId
    && cache.sidecar.value.archive.digest == w.archive.digest
  }

  predicate NoPut(wire: seq<Wire>) {
    forall q :: 0 <= q < |wire| ==> !wire[q].PutSent?
  }

  /** Facts every step of an attempt keeps. */
  predicate StepOk(cache: Cache, a: Attempt) {
    Extends(cache, a.cache) && Durable(a)
  }

  /** The attempt knows the upload id exactly when a sidecar holds one. */
  predicate Tracks(a: Attempt) {
    a.verdict.None? ==> (a.persisted.None? <==> a.cache.sidecar.None?)
  }

  /** The wire grew by nothing or by one hub answer. */
  predicate Answered(before: seq<Wire>, after: seq<Wire>) {
    after == before || (|after| == |before| + 1 && after[..|before|] == before && after[|before|].HubAnswer?)
  }

  predicate LastAnswer(wire: seq<Wire>, status: Status) {
    wire != [] && wire[|wire| - 1].HubAnswer? && wire[|wire| - 1].status == status
  }

  predicate LastHeard(wire: seq<Wire>, r: Response) {
    wire != [] && wire[|wire| - 1] == Heard(r)
  }

  predicate NotTerminal(a: Attempt) {
    a.verdict.Some? ==> !a.verdict.value.Terminal?
  }

  lemma ObserveStep(cache: Cache, a: Attempt, id: UploadId, r: Response, w: WriteReply)
    requires StepOk(cache, a) && Tracks(a) && a.verdict.None? && (a.persisted.Some? ==> a.persisted.value == id)
    ensures var b := Observe(a, id, r, w);
            && StepOk(cache, b) && NotTerminal(b) && b.wire == a.wire
            && (b.verdict.None? ==> b.persisted == Some(id) && Tracks(b))
  {
  }

  lemma ExchangeStep(cache: Cache, a: Attempt, id: UploadId, reply: HubReply, w: WriteReply)
    requires StepOk(cache, a) && Tracks(a) && a.verdict.None? && (a.persisted.Some? ==> a.persisted.value == id)
    ensures var b := Exchange(a, id, reply, w);
            && StepOk(cache, b) && NotTerminal(b) && Answered(a.wire, b.wire)
            && (b.verdict.None? ==>
                  reply.Replied? && LastHeard(b.wire, reply.response) && b.persisted == Some(id) && Tracks(b))
  {
    if reply.Replied? {
      ObserveStep(cache, a.(wire := a.wire + [Heard(reply.response)]), id, reply.response, w);
    }
  }

  /** A decision reads only the last answer. */
  lemma SettleStep(cache: Cache, a: Attempt, r: Response, allowUpload: bool)
    requires StepOk(cache, a) && NotTerminal(a)
        && (a.verdict.None? ==> LastAnswer(a.wire, r.status) && a.persisted.Some?)
    ensures var b := Settle(a, r, allowUpload);
            && StepOk(cache, b) && b.wire == a.wire && b.cache == a.cache && b.persisted == a.persisted
            && (b.verdict.None? ==> a.verdict.None? && allowUpload && LastAnswer(b.wire, AwaitingUpload))
            && (b.verdict.Some? && b.verdict.value.Terminal? ==> LastAnswer(b.wire, b.verdict.value.receipt.status))
  {
  }

  /** Facts every stage before the upload keeps. */
  predicate StageOk(cache: Cache, a: Attempt) {
    && StepOk(cache, a) && Tracks(a) && NoPut(a.wire)
    && (a.verdict.Some? && a.verdict.value.Terminal? ==> LastAnswer(a.wire, a.verdict.value.receipt.status))
  }

  lemma PrepareStage(cache: Cache, s: Script)
    ensures var a := Prepare(cache, s);
            && StepOk(cache, a) && a.wire == [] && a.persisted.None?
            && (a.verdict.Some? ==> !a.verdict.value.AuthBlocked? && NotTerminal(a))
  {
  }

  lemma PollStage(cache: Cache, a: Attempt, s: Script)
    requires StepOk(cache, a) && a.wire == [] && a.persisted.None?
    requires a.verdict.Some? ==> !a.verdict.value.AuthBlocked? && NotTerminal(a)
    ensures StageOk(cache, Poll(a, s))
  {
    if a.verdict.None? && a.cache.sidecar.Some? && a.cache.sidecar.value.archive.digest == a.archive.digest {
      var id := a.cache.sidecar.value.uploadId;
      var b := a.(persisted := Some(id));
      ExchangeStep(cache, b, id, s.poll, s.pollWrite);
      if s.poll.Replied? {
        SettleStep(cache, Exchange(b, id, s.poll, s.pollWrite), s.poll.response, true);
      }
    }
  }

  lemma QueryStage(cache: Cache, a: Attempt, id: UploadId, s: Script)
    requires s.intent.Replied? && StageOk(cache, a) && NotTerminal(a)
    requires a.verdict.None? ==> a.persisted == Some(id) && LastHeard(a.wire, s.intent.response)
    ensures StageOk(cache, Query(a, id, s))
    ensures var b := Query(a, id, s);
            b.verdict.None? ==>
              && b.persisted == Some(id) && (NeedsQuery(s.intent.response) ==> s.query.Replied?)
              && LastAnswer(b.wire, AwaitingUpload) && LastHeard(b.wire, LastResponse(s))
  {
    if a.verdict.None? {
      if NeedsQuery(s.intent.response) {
        ExchangeStep(cache, a, id, s.query, s.queryWrite);
        if s.query.Replied? {
          SettleStep(cache, Exchange(a, id, s.query, s.queryWrite), s.query.response, true);
        }
      } else {
        SettleStep(cache, a, s.intent.response, true);
      }
    }
  }

  lemma RequestStage(cache: Cache, a: Attempt, s: Script)
    requires StageOk(cache, a)
    ensures StageOk(cache, Request(a, s))
    ensures var b := Request(a, s);
            b.verdict.None? ==>
              && s.intent.Replied? && (NeedsQuery(s.intent.response) ==> s.query.Replied?)
              && b.persisted.Some? && b.persisted == s.intent.response.uploadId
              && LastAnswer(b.wire, AwaitingUpload) && LastHeard(b.wire, LastResponse(s))
  {
    if a.verdict.None? && s.intent.Replied? {
      var r := s.intent.response;
      var b := a.(wire := a.wire + [Heard(r)]);
      if AcceptableIntent(b, r) {
        ObserveStep(cache, b, r.uploadId.value, r, s.intentWrite);
        QueryStage(cache, Observe(b, r.uploadId.value, r, s.intentWrite), r.uploadId.value, s);
      }
    }
  }

  lemma {:induction false} NoPutsCounted(wire: seq<Wire>)
    requires NoPut(wire)
    ensures Puts(wire) == 0
  {
    if wire != [] {
      NoPutsCounted(wire[..|wire| - 1]);
    }
  }

  /** What one attempt did with the upload. */
  ghost predicate AttemptOk(cache: Cache, a: Attempt) {
    && StepOk(cache, a) && a.verdict.Some?
    && Puts(a.wire) <= 1
    && (forall q :: 0 <= q < |a.wire| && a.wire[q].PutSent? ==>
          PutJustified(a.wire, q) && PutUses(a.cache, a.wire[q]))
    && (a.verdict.value.Terminal? ==> LastAnswer(a.wire, a.verdict.value.receipt.status))
  }

  /** A wire with one justified PUT, possibly followed by one answer. */
  lemma {:induction false} OnePut(before: seq<Wire>, put: Wire, after: seq<Wire>)
    requires NoPut(before) && put.PutSent? && Answered(before + [put], after)
    ensures Puts(after) == 1
    ensures after[|before|] == put && forall q :: 0 <= q < |after| && after[q].PutSent? ==> q == |before|
    ensures before != [] ==> after[|before| - 1] == before[|before| - 1]
  {
    var rest := after[|before| + 1..];
    assert after == before + [put] + rest;
    CountAppend(before + [put], rest, IsPut);
    CountAppend(before, [put], IsPut);
    NoPutsCounted(before);
    NoPutsCounted(rest);
    assert CountIf([put], IsPut) == 1;
  }

  lemma CompleteStage(cache: Cache, a: Attempt, id: UploadId, s: Script)
    requires StepOk(cache, a) && Tracks(a) && a.verdict.None? && a.persisted == Some(id)
    ensures var b := Complete(a, id, s);
            && StepOk(cache, b) && b.verdict.Some? && Answered(a.wire, b.wire) && Extends(a.cache, b.cache)
            && (b.verdict.value.Terminal? ==> LastAnswer(b.wire, b.verdict.value.receipt.status))
  {
    ExchangeStep(cache, a, id, s.complete, s.completeWrite);
    ExchangeStep(a.cache, a, id, s.complete, s.completeWrite);
    if s.complete.Replied? {
      SettleStep(cache, Exchange(a, id, s.complete, s.completeWrite), s.complete.response, false);
    }
  }

  lemma {:induction false} UploadStage(cache: Cache, a: Attempt, s: Script)
    requires StageOk(cache, a)
    requires a.verdict.None? ==>
               && s.intent.Replied? && s.intent.response.uploadId.Some?
               && (NeedsQuery(s.intent.response) ==> s.query.Replied?)
               && a.persisted == s.intent.response.uploadId
               && LastAnswer(a.wire, AwaitingUpload) && LastHeard(a.wire, LastResponse(s))
    ensures AttemptOk(cache, Upload(a, s))
  {
    NoPutsCounted(a.wire);
    if a.verdict.None? && LastResponse(s).putAllowed {
      var id := s.intent.response.uploadId.value;
      var put := PutSent(id, a.archive, a.cache.sidecar);
      var b := a.(wire := a.wire + [put]);
      OnePut(a.wire, put, b.wire);
      if s.put.Stored? {
        CompleteStage(cache, b, id, s);
        OnePut(a.wire, put, Complete(b, id, s).wire);
      }
    }
  }

  /** One call makes at most one PUT, always justified, and ends with a verdict. */
  lemma {:induction false} OneAttempt(cache: Cache, s: Script)
    ensures AttemptOk(cache, Deliver(cache, s))
  {
    var a := Prepare(cache, s);
    var b := Poll(a, s);
    PrepareStage(cache, s);
    PollStage(cache, a, s);
    RequestStage(cache, b, s);
    RequestReplied(b, s);
    UploadStage(cache, Request(b, s), s);
  }

  /** Upload ids on disk have passed the character check, and a sidecar is about the archive beside it. */
  predicate SidecarNamed(cache: Cache) {
    cache.sidecar.Some? ==> ValidId(cache.sidecar.value.uploadId) && cache.archive == Some(cache.sidecar.value.archive)
  }

  lemma ExchangeNamed(a: Attempt, id: UploadId, reply: HubReply, w: WriteReply)
    requires SidecarNamed(a.cache) && ValidId(id) && a.cache.archive == Some(a.archive)
    ensures SidecarNamed(Exchange(a, id, reply, w).cache)
  {
  }

  lemma {:induction false} AttemptNamed(cache: Cache, s: Script)
    requires SidecarNamed(cache)
    ensures SidecarNamed(Deliver(cache, s).cache)
  {
    var a := Prepare(cache, s);
    var b := Poll(a, s);
    if a.verdict.None? && a.cache.sidecar.Some? {
      var id := a.cache.sidecar.value.uploadId;
      ExchangeNamed(a.(persisted := Some(id)), id, s.poll, s.pollWrite);
    }
    RequestNamed(b, s);
    var c := Request(b, s);
    RequestReplied(b, s);
    if c.verdict.None? {
      OneAttempt(cache, s);
      PrepareStage(cache, s);
      PollStage(cache, a, s);
      RequestStage(cache, b, s);
      var id := s.intent.response.uploadId.value;
      ExchangeNamed(c.(wire := c.wire + [PutSent(id, c.archive, c.cache.sidecar)]), id, s.complete, s.completeWrite);
    }
  }

  lemma RequestNamed(a: Attempt, s: Script)
    requires SidecarNamed(a.cache) && (a.verdict.None? ==> a.cache.archive == Some(a.archive))
    ensures SidecarNamed(Request(a, s).cache)
    ensures Request(a, s).verdict.None? ==> a.verdict.None? && AcceptableIntent(a, s.intent.response)
  {
    if a.verdict.None? && s.intent.Replied? && AcceptableIntent(a, s.intent.response) {
      var r := s.intent.response;
      var b := Observe(a.(wire := a.wire + [Heard(r)]), r.uploadId.value, r, s.intentWrite);
      ExchangeNamed(b, r.uploadId.value, s.query, s.queryWrite);
    }
  }

  // ---- Any number of attempts, crashes and restarts ----

  function CacheAfter(cache: Cache, scripts: seq<Script>): Cache {
    if scripts == [] then cache
    else Deliver(CacheAfter(cache, scripts[..|scripts| - 1]), scripts[|scripts| - 1]).cache
  }

  function WireOf(cache: Cache, scripts: seq<Script>): seq<Wire> {
    if scripts == [] then []
    else
      var before := scripts[..|scripts| - 1];
      WireOf(cache, before) + Deliver(CacheAfter(cache, before), scripts[|scripts| - 1]).wire
  }

  /** Every PUT of the wire is justified and uses the upload on disk. */
  ghost predicate PutsFit(cache: Cache, wire: seq<Wire>) {
    forall q :: 0 <= q < |wire| && wire[q].PutSent? ==> PutJustified(wire, q) && PutUses(cache, wire[q])
  }

  /** What fitted earlier still fits when files are added and the wire goes on. */
  lemma {:induction false} PutsStillFit(before: Cache, after: Cache, earlier: seq<Wire>, now: seq<Wire>)
    requires Extends(before, after) && PutsFit(before, earlier) && PutsFit(after, now)
    ensures PutsFit(after, earlier + now)
  {
    var wire := earlier + now;
    forall q | 0 <= q < |wire| && wire[q].PutSent? ensures PutJustified(wire, q) && PutUses(after, wire[q]) {
      if q < |earlier| {
        assert wire[q] == earlier[q] && PutJustified(earlier, q);
      } else {
        assert wire[q] == now[q - |earlier|] && PutJustified(now, q - |earlier|);
      }
    }
  }

  lemma {:induction false} RunUsesOneUpload(cache: Cache, scripts: seq<Script>)
    ensures Extends(cache, CacheAfter(cache, scripts)) && PutsFit(CacheAfter(cache, scripts), WireOf(cache, scripts))
  {
    if scripts != [] {
      var n := |scripts| - 1;
      var before := CacheAfter(cache, scripts[..n]);
      RunUsesOneUpload(cache, scripts[..n]);
      OneAttempt(before, scripts[n]);
      PutsStillFit(before, CacheAfter(cache, scripts), WireOf(cache, scripts[..n]), Deliver(before, scripts[n]).wire);
    }
  }

  /** Over every run of attempts, crashes and restarts all PUTs of a manifest carry one upload
      id and one archive, whatever files were there to begin with. */
  lemma {:induction false} OneUploadPerManifest(cache: Cache, scripts: seq<Script>, p: nat, q: nat)
    requires p < |WireOf(cache, scripts)| && q < |WireOf(cache, scripts)|
    requires WireOf(cache, scripts)[p].PutSent? && WireOf(cache, scripts)[q].PutSent?
    ensures WireOf(cache, scripts)[p].uploadId == WireOf(cache, scripts)[q].uploadId
    ensures WireOf(cache, scripts)[p].archive == WireOf(cache, scripts)[q].archive
    ensures PutJustified(WireOf(cache, scripts), p)
  {
    RunUsesOneUpload(cache, scripts);
  }

  /** An authentication block names exactly what is on disk. */
  lemma {:induction false} AuthBlockNamesDisk(cache: Cache, s: Script)
    requires Deliver(cache, s).verdict.Some? && Deliver(cache, s).verdict.value.AuthBlocked?
    ensures var a := Deliver(cache, s);
            && a.cache.archive == Some(a.verdict.value.archive)
            && (match a.verdict.value.uploadId
                case None => a.cache.sidecar.None?
                case Some(id) =>
                  && a.cache.sidecar.Some? && a.cache.sidecar.value.uploadId == id
                  && a.cache.sidecar.value.archive.digest == a.verdict.value.archive.digest)
  {
    OneAttempt(cache, s);
  }

  /** The archive and a sidecar for it are on disk. */
  predicate UploadRecorded(cache: Cache) {
    cache.archive.Some? && cache.sidecar.Some? && cache.sidecar.value.archive.digest == cache.archive.value.digest
  }

  /** A returned receipt is terminal, its status is the last thing the hub answered, and the archive
      it is about is on disk with its upload id. */
  lemma {:induction false} OnlyTerminalReceipts(cache: Cache, s: Script, receipt: Receipt)
    requires Deliver(cache, s).verdict == Some(Terminal(receipt))
    ensures receipt.status.Verified? || receipt.status.Quarantined?
    ensures LastAnswer(Deliver(cache, s).wire, receipt.status)
    ensures UploadRecorded(Deliver(cache, s).cache)
  {
    OneAttempt(cache, s);
  }

  // ---- Answers that no receiver refuses ----

  /** An answer about `id`. It may ask for an upload only where one can follow, and a terminal status
      brings its receipt unless the receipt can still be queried. */
  predicate SoundResponse(r: Response, id: UploadId, mayUpload: bool, receiptDue: bool) {
    && (r.uploadId.Some? ==> r.uploadId.value == id)
    && match r.status
       case AwaitingUpload => mayUpload
       case VerificationPending => true
       case Verified => if r.receipt.Some? then r.receipt.value.status == r.status else !receiptDue
       case Quarantined => if r.receipt.Some? then r.receipt.value.status == r.status else !receiptDue
       case _ => false
  }

  predicate SoundReply(reply: HubReply, id: UploadId, mayUpload: bool, receiptDue: bool) {
    match reply
    case Refused => false
    case Replied(r) => SoundResponse(r, id, mayUpload, receiptDue)
    case _ => true
  }

  /** The upload id the answers have to be about. */
  function ExpectedId(cache: Cache, s: Script): UploadId {
    if cache.sidecar.Some? then cache.sidecar.value.uploadId
    else if s.intent.Replied? && s.intent.response.uploadId.Some? then s.intent.response.uploadId.value
    else ""
  }

  /** An answer to the intent names the upload, and whatever asks for the PUT allows it. */
  predicate SoundIntent(s: Script, id: UploadId) {
    s.intent.Replied? ==>
      && ValidId(id) && s.intent.response.uploadId == Some(id)
      && (s.intent.response.status.AwaitingUpload? ==> s.intent.response.putAllowed)
      && (s.query.Replied? && s.query.response.status.AwaitingUpload? ==> s.query.response.putAllowed)
  }

  /** Everything that answers is sound: requests may fail for a while, but nothing is refused. */
  predicate SoundReceiver(cache: Cache, s: Script) {
    var id := ExpectedId(cache, s);
    && !s.build.BuildRefused? && !s.put.PutRefused?
    && SoundReply(s.poll, id, true, true)
    && SoundReply(s.intent, id, true, false) && SoundIntent(s, id)
    && SoundReply(s.query, id, true, true)
    && SoundReply(s.complete, id, false, true)
  }

  /** Receipts of terminal answers. */
  predicate Answers(s: Script, receipt: Receipt) {
    exists reply ::
        reply in {s.poll, s.intent, s.query, s.complete} && reply.Replied? && reply.response.receipt == Some(receipt)
  }

  /** The attempt was not refused, and a receipt it returns is one of the answers. */
  predicate NotRefused(s: Script, a: Attempt) {
    a.verdict.Some? ==>
        !a.verdict.value.Rejected? && (a.verdict.value.Terminal? ==> Answers(s, a.verdict.value.receipt))
  }

  lemma ExchangeSound(s: Script, a: Attempt, id: UploadId, reply: HubReply, w: WriteReply, mayUpload: bool,
      receiptDue: bool)
    requires a.verdict.None? && SoundReply(reply, id, mayUpload, receiptDue)
    ensures NotRefused(s, Exchange(a, id, reply, w)) && Exchange(a, id, reply, w).archive == a.archive
  {
  }

  lemma SettleSound(s: Script, a: Attempt, reply: HubReply, id: UploadId, mayUpload: bool)
    requires reply in {s.poll, s.intent, s.query, s.complete} && reply.Replied?
    requires NotRefused(s, a) && SoundReply(reply, id, mayUpload, true)
    ensures NotRefused(s, Settle(a, reply.response, mayUpload))
  {
  }

  lemma {:induction false} PollSound(cache: Cache, s: Script)
    requires SidecarNamed(cache) && SoundReceiver(cache, s)
    ensures var a := Poll(Prepare(cache, s), s);
            && NotRefused(s, a)
            && (a.verdict.None? ==> (a.persisted.Some? ==> a.persisted.value == ExpectedId(cache, s)))
  {
    var a, id := Prepare(cache, s), ExpectedId(cache, s);
    if a.verdict.None? && a.cache.sidecar.Some? {
      var b := a.(persisted := Some(id));
      ExchangeSound(s, b, id, s.poll, s.pollWrite, true, true);
      if s.poll.Replied? {
        SettleSound(s, Exchange(b, id, s.poll, s.pollWrite), s.poll, id, true);
      }
    }
  }

  lemma {:induction false} QuerySound(s: Script, a: Attempt, id: UploadId)
    requires s.intent.Replied? && SoundReply(s.intent, id, true, false) && SoundReply(s.query, id, true, true)
    requires NotRefused(s, a)
    ensures NotRefused(s, Query(a, id, s))
    ensures Query(a, id, s).verdict.None? ==>
              (NeedsQuery(s.intent.response) ==> s.query.Replied?) && LastResponse(s).status.AwaitingUpload?
  {
    if a.verdict.None? {
      if NeedsQuery(s.intent.response) {
        ExchangeSound(s, a, id, s.query, s.queryWrite, true, true);
        if s.query.Replied? {
          SettleSound(s, Exchange(a, id, s.query, s.queryWrite), s.query, id, true);
        }
      } else {
        assert SoundReply(s.intent, id, true, true);
        SettleSound(s, a, s.intent, id, true);
      }
    }
  }

  lemma {:induction false} RequestSound(cache: Cache, s: Script, a: Attempt)
    requires SoundReceiver(cache, s) && NotRefused(s, a)
    requires a.verdict.None? ==> (a.persisted.Some? ==> a.persisted.value == ExpectedId(cache, s))
    ensures NotRefused(s, Request(a, s))
    ensures Request(a, s).verdict.None? ==>
              && s.intent.Replied? && s.intent.response.uploadId == Some(ExpectedId(cache, s))
              && (NeedsQuery(s.intent.response) ==> s.query.Replied?) && LastResponse(s).putAllowed
  {
    if a.verdict.None? && s.intent.Replied? {
      var r, id := s.intent.response, ExpectedId(cache, s);
      var b := a.(wire := a.wire + [Heard(r)]);
      assert AcceptableIntent(b, r);
      assert NotRefused(s, Observe(b, id, r, s.intentWrite));
      QuerySound(s, Observe(b, id, r, s.intentWrite), id);
    }
  }

  /** A sound receiver is never refused: the call ends with one of its receipts, waits, blocks on
      credentials, asks for a retry or dies. */
  lemma {:induction false} SoundReceiverNotRefused(cache: Cache, s: Script)
    requires SidecarNamed(cache) && SoundReceiver(cache, s)
    ensures NotRefused(s, Deliver(cache, s))
  {
    PollSound(cache, s);
    var a := Poll(Prepare(cache, s), s);
    RequestSound(cache, s, a);
    RequestReplied(a, s);
    var b, id := Request(a, s), ExpectedId(cache, s);
    if b.verdict.None? {
      var c := b.(wire := b.wire + [PutSent(id, b.archive, b.cache.sidecar)]);
      ExchangeSound(s, c, id, s.complete, s.completeWrite, false, true);
      if s.complete.Replied? {
        SettleSound(s, Exchange(c, id, s.complete, s.completeWrite), s.complete, id, false);
      }
    }
  }

  // ---- Why an attempt ended ----

  predicate SomeReply(s: Script, reply: HubReply) {
    s.poll == reply || s.intent == reply || s.query == reply || s.complete == reply
  }

  predicate SomeWrite(s: Script, w: WriteReply) {
    s.pollWrite == w || s.intentWrite == w || s.queryWrite == w || s.completeWrite == w
  }

  predicate HasStatus(reply: HubReply, status: Status) {
    reply.Replied? && reply.response.status == status
  }

  predicate SomeStatus(s: Script, status: Status) {
    HasStatus(s.poll, status) || HasStatus(s.intent, status) || HasStatus(s.query, status)
    || HasStatus(s.complete, status)
  }

  /** Transient outcomes have a transient cause, and the others the cause they name. */
  predicate Caused(s: Script, a: Attempt) {
    a.verdict.Some? ==>
      match a.verdict.value
      case RetryLater => s.build.BuildUnavailable? || SomeReply(s, Unavailable) || SomeWrite(s, WriteFailed)
          || s.put.PutUnavailable?
      case AuthBlocked(status, _, _) => SomeReply(s, AuthRejected(status))
      case Pending => LastAnswer(a.wire, VerificationPending) && SomeStatus(s, VerificationPending)
      case Died =>
        || s.build.DiedBuilding? || s.build.DiedPublished? || SomeReply(s, DiedWaiting)
        || SomeWrite(s, DiedBefore) || SomeWrite(s, DiedAfter) || s.put.DiedUploading?
      case _ => true
  }

  lemma ExchangeCaused(s: Script, a: Attempt, id: UploadId, reply: HubReply, w: WriteReply)
    requires a.verdict.None? && SomeReply(s, reply) && SomeWrite(s, w)
    ensures Caused(s, Exchange(a, id, reply, w))
    ensures Exchange(a, id, reply, w).verdict.None? ==>
        reply.Replied? && LastAnswer(Exchange(a, id, reply, w).wire, reply.response.status)
  {
  }

  lemma SettleCaused(s: Script, a: Attempt, r: Response, allowUpload: bool)
    requires Caused(s, a) && SomeStatus(s, r.status) && (a.verdict.None? ==> LastAnswer(a.wire, r.status))
    ensures Caused(s, Settle(a, r, allowUpload))
  {
  }

  lemma {:induction false} PollCaused(s: Script, a: Attempt)
    requires Caused(s, a)
    ensures Caused(s, Poll(a, s))
  {
    if a.verdict.None? && a.cache.sidecar.Some? {
      var id := a.cache.sidecar.value.uploadId;
      var b := a.(persisted := Some(id));
      ExchangeCaused(s, b, id, s.poll, s.pollWrite);
      if s.poll.Replied? {
        SettleCaused(s, Exchange(b, id, s.poll, s.pollWrite), s.poll.response, true);
      }
    }
  }

  lemma {:induction false} RequestCaused(s: Script, a: Attempt)
    requires Caused(s, a)
    ensures Caused(s, Request(a, s))
  {
    if a.verdict.None? && s.intent.Replied? {
      var r := s.intent.response;
      var b := a.(wire := a.wire + [Heard(r)]);
      if AcceptableIntent(b, r) {
        var c := Observe(b, r.uploadId.value, r, s.intentWrite);
        assert c.wire == b.wire && Caused(s, c);
        if c.verdict.None? {
          ExchangeCaused(s, c, r.uploadId.value, s.query, s.queryWrite);
          if s.query.Replied? {
            SettleCaused(s, Exchange(c, r.uploadId.value, s.query, s.queryWrite), s.query.response, true);
          }
          SettleCaused(s, c, r, true);
        }
      }
    }
  }

  /** A call asks for a retry, waits, blocks on credentials or dies only for the reason it gives, and
      is refused only when some answer was unsound. */
  lemma {:induction false} VerdictHasCause(cache: Cache, s: Script)
    ensures Caused(s, Deliver(cache, s))
    ensures SidecarNamed(cache) && Deliver(cache, s).verdict == Some(Rejected) ==> !SoundReceiver(cache, s)
  {
    if SidecarNamed(cache) && SoundReceiver(cache, s) {
      SoundReceiverNotRefused(cache, s);
    }
    var a := Prepare(cache, s);
    PollCaused(s, a);
    RequestCaused(s, Poll(a, s));
    var b := Request(Poll(a, s), s);
    RequestReplied(Poll(a, s), s);
    if b.verdict.None? {
      var id := s.intent.response.uploadId.value;
      var c := b.(wire := b.wire + [PutSent(id, b.archive, b.cache.sidecar)]);
      ExchangeCaused(s, c, id, s.complete, s.completeWrite);
      if s.complete.Replied? {
        SettleCaused(s, Exchange(c, id, s.complete, s.completeWrite), s.complete.response, false);
      }
    }
  }
  /** Nothing fails and nothing dies; an answer may still say anything, or reject the credentials. */
  predicate Prompt(s: Script) {
    && s.build.Built? && s.put.Stored?
    && (forall w :: SomeWrite(s, w) ==> w.Written?)
    && !SomeReply(s, Unavailable) && !SomeReply(s, DiedWaiting)
  }

  /** With a sound receiver and no failure, a call ends with a receipt among the answers, waits because it
      was told to, or blocks because its credentials were rejected. */
  lemma {:induction false} PromptCallEnds(cache: Cache, s: Script)
    requires SidecarNamed(cache) && SoundReceiver(cache, s) && Prompt(s)
    ensures var a := Deliver(cache, s);
            && a.verdict.Some?
            && match a.verdict.value
               case Terminal(receipt) => Answers(s, receipt)
               case Pending => SomeStatus(s, VerificationPending)
               case AuthBlocked(status, _, _) => SomeReply(s, AuthRejected(status))
               case _ => false
  {
    OneAttempt(cache, s);
    SoundReceiverNotRefused(cache, s);
    VerdictHasCause(cache, s);
  }
}
