/** Exactly which answers lead to which outcome of a call, and when the archive is sent: a description of
    the requests the call makes and of what each answer may be, independent of how the call proceeds. */
module HubOutcomes {
  import opened Prelude
  import opened HubProtocol

  /** The requests a call may make, in this order. */
  datatype Question = Polling | Intending | Querying | Completing

  function ReplyTo(s: Script, q: Question): HubReply {
    match q
    case Polling => s.poll
    case Intending => s.intent
    case Querying => s.query
    case Completing => s.complete
  }

  function RecordOf(s: Script, q: Question): WriteReply {
    match q
    case Polling => s.pollWrite
    case Intending => s.intentWrite
    case Querying => s.queryWrite
    case Completing => s.completeWrite
  }

  predicate ArchiveReady(cache: Cache, s: Script) {
    cache.archive.Some? || s.build.Built?
  }

  function ArchiveOf(cache: Cache, s: Script): Archive {
    if cache.archive.Some? then cache.archive.value else s.archive
  }

  /** A name of letters, digits, dashes and underscores. */
  predicate UploadName(id: UploadId) {
    id != "" && forall c :: c in id ==> 'a' <= c <= 'z' || 'A' <= c <= 'Z' || '0' <= c <= '9' || c == '-' || c == '_'
  }

  /** A terminal status has come without its receipt. */
  predicate ReceiptMissing(r: Response) {
    (r.status.Verified? || r.status.Quarantined?) && r.receipt.None?
  }

  /** The answer is about the upload of this call; an intent must name it. */
  predicate AboutUpload(cache: Cache, s: Script, q: Question) {
    && ReplyTo(s, q).Replied?
    && var named := ReplyTo(s, q).response.uploadId;
       && (named.Some? ==> named.value == ExpectedId(cache, s))
       && (q.Intending? ==> named.Some? && UploadName(named.value))
  }

  /** The upload id was on disk before this answer. */
  predicate IdKnown(cache: Cache, q: Question) {
    q.Intending? ==> cache.sidecar.Some?
  }

  /** The answer is recorded, or could not be but the upload id is on disk already. */
  predicate Recorded(cache: Cache, s: Script, q: Question) {
    RecordOf(s, q).Written? || (RecordOf(s, q).WriteFailed? && IdKnown(cache, q))
  }

  predicate Accepted(cache: Cache, s: Script, q: Question) {
    AboutUpload(cache, s, q) && Recorded(cache, s, q)
  }

  predicate Awaits(cache: Cache, s: Script, q: Question) {
    Accepted(cache, s, q) && ReplyTo(s, q).response.status.AwaitingUpload?
  }

  // ---- Which requests are made ----

  predicate PollAsked(cache: Cache, s: Script) {
    ArchiveReady(cache, s) && cache.sidecar.Some? && cache.sidecar.value.archive.digest == ArchiveOf(cache, s).digest
  }

  predicate IntentAsked(cache: Cache, s: Script) {
    if cache.sidecar.Some? then PollAsked(cache, s) && Awaits(cache, s, Polling) else ArchiveReady(cache, s)
  }

  predicate QueryAsked(cache: Cache, s: Script) {
    IntentAsked(cache, s) && Accepted(cache, s, Intending) && ReceiptMissing(s.intent.response)
  }

  /** The receiver asks for the archive: in its answer to the intent, or to the query that followed. */
  predicate UploadAsked(cache: Cache, s: Script) {
    (IntentAsked(cache, s) && Awaits(cache, s, Intending)) || (QueryAsked(cache, s) && Awaits(cache, s, Querying))
  }

  /** That answer brings an upload target which passes every check. */
  predicate UploadAllowed(s: Script) {
    var asking := if s.intent.Replied? && ReceiptMissing(s.intent.response) then s.query else s.intent;
    asking.Replied? && asking.response.putAllowed
  }

  predicate UploadMade(cache: Cache, s: Script) {
    UploadAsked(cache, s) && UploadAllowed(s)
  }

  predicate Asked(cache: Cache, s: Script, q: Question) {
    match q
    case Polling => PollAsked(cache, s)
    case Intending => IntentAsked(cache, s)
    case Querying => QueryAsked(cache, s)
    case Completing => UploadMade(cache, s) && s.put.Stored?
  }

  // ---- What an answer may be ----

  /** A terminal status brings the receipt of that status; only the intent may come without one. */
  predicate LacksReceipt(r: Response, q: Question) {
    && (r.status.Verified? || r.status.Quarantined?)
    && (if r.receipt.Some? then r.receipt.value.status != r.status else !q.Intending?)
  }

  predicate UnsoundState(r: Response, q: Question) {
    || r.status.TransferFailed? || r.status.OtherStatus? || LacksReceipt(r, q)
    || (r.status.AwaitingUpload? && q.Completing?)
  }

  /** The request was refused, or answered about another upload or with a status it cannot have. */
  predicate RefusedOrUnsound(cache: Cache, s: Script, q: Question) {
    match ReplyTo(s, q)
    case Refused => true
    case Replied(r) => !AboutUpload(cache, s, q) || (Recorded(cache, s, q) && UnsoundState(r, q))
    case _ => false
  }

  predicate BringsReceipt(cache: Cache, s: Script, q: Question, receipt: Receipt) {
    && Accepted(cache, s, q)
    && var r := ReplyTo(s, q).response;
       && (r.status.Verified? || r.status.Quarantined?)
       && r.receipt == Some(receipt) && receipt.status == r.status
  }

  // ---- The outcomes ----

  /** Where a call can end: building the archive, comparing it with the sidecar, at an answer, looking
      at the upload target, or sending the archive. */
  datatype Place = Building | Comparing | Answering(question: Question) | Targeting | Sending

  predicate BuildGives(s: Script, outcome: Outcome) {
    match outcome
    case Rejected => s.build.BuildRefused?
    case RetryLater => s.build.BuildUnavailable?
    case Died => s.build.DiedBuilding? || s.build.DiedPublished?
    case _ => false
  }

  predicate AnswerGives(cache: Cache, s: Script, q: Question, outcome: Outcome) {
    match outcome
    case Rejected => RefusedOrUnsound(cache, s, q)
    case Terminal(receipt) => BringsReceipt(cache, s, q, receipt)
    case Pending => Accepted(cache, s, q) && ReplyTo(s, q).response.status.VerificationPending?
    case AuthBlocked(status, _, _) => ReplyTo(s, q) == AuthRejected(status)
    case RetryLater =>
      ReplyTo(s, q).Unavailable? || (AboutUpload(cache, s, q) && RecordOf(s, q).WriteFailed? && !IdKnown(cache, q))
    case Died =>
      || ReplyTo(s, q).DiedWaiting?
      || (AboutUpload(cache, s, q) && (RecordOf(s, q).DiedBefore? || RecordOf(s, q).DiedAfter?))
  }

  predicate PutGives(s: Script, outcome: Outcome) {
    match outcome
    case Rejected => s.put.PutRefused?
    case RetryLater => s.put.PutUnavailable?
    case Died => s.put.DiedUploading?
    case _ => false
  }

  /** The call gets to this place, and what it meets there gives this outcome. */
  predicate Reason(cache: Cache, s: Script, place: Place, outcome: Outcome) {
    match place
    case Building => cache.archive.None? && BuildGives(s, outcome)
    case Comparing =>
      outcome.Rejected? && ArchiveReady(cache, s) && cache.sidecar.Some? && !PollAsked(cache, s)
    case Answering(q) => Asked(cache, s, q) && AnswerGives(cache, s, q, outcome)
    case Targeting => outcome.Rejected? && UploadAsked(cache, s) && !UploadAllowed(s)
    case Sending => UploadMade(cache, s) && PutGives(s, outcome)
  }

  ghost predicate Explains(cache: Cache, s: Script, outcome: Outcome) {
    exists place :: Reason(cache, s, place, outcome)
  }

  /** The call is over at this place: it is reached and nothing after it is. */
  predicate EndsAt(cache: Cache, s: Script, place: Place) {
    match place
    case Building => !ArchiveReady(cache, s)
    case Comparing => ArchiveReady(cache, s) && cache.sidecar.Some? && !PollAsked(cache, s)
    case Answering(Polling) => PollAsked(cache, s) && !IntentAsked(cache, s)
    case Answering(Intending) => IntentAsked(cache, s) && !QueryAsked(cache, s) && !UploadAsked(cache, s)
    case Answering(Querying) => QueryAsked(cache, s) && !UploadAsked(cache, s)
    case Targeting => UploadAsked(cache, s) && !UploadAllowed(s)
    case Sending => UploadMade(cache, s) && !s.put.Stored?
    case Answering(Completing) => UploadMade(cache, s) && s.put.Stored?
  }

  lemma ReasonEnds(cache: Cache, s: Script, place: Place, outcome: Outcome)
    requires Reason(cache, s, place, outcome)
    ensures EndsAt(cache, s, place)
  {
  }

  lemma EndsOnce(cache: Cache, s: Script, p: Place, q: Place)
    requires EndsAt(cache, s, p) && EndsAt(cache, s, q)
    ensures p == q
  {
  }

  /** The same outcome, whatever archive and upload id a block names. */
  predicate SameOutcome(v: Outcome, w: Outcome) {
    v == w || (v.AuthBlocked? && w.AuthBlocked? && v.httpStatus == w.httpStatus)
  }

  lemma ReasonUnique(cache: Cache, s: Script, place: Place, v: Outcome, w: Outcome)
    requires Reason(cache, s, place, v) && Reason(cache, s, place, w)
    ensures SameOutcome(v, w)
  {
  }

  lemma {:induction false} OneExplanation(cache: Cache, s: Script, v: Outcome, w: Outcome)
    requires Explains(cache, s, v) && Explains(cache, s, w)
    ensures SameOutcome(v, w)
  {
    var p :| Reason(cache, s, p, v);
    var q :| Reason(cache, s, q, w);
    ReasonEnds(cache, s, p, v);
    ReasonEnds(cache, s, q, w);
    EndsOnce(cache, s, p, q);
    ReasonUnique(cache, s, p, v, w);
  }

  // ---- The call ends for that reason ----

  /** The attempt is over for a reason at `place`. */
  predicate OverAt(cache: Cache, s: Script, a: Attempt, place: Place) {
    a.verdict.Some? && Reason(cache, s, place, a.verdict.value)
  }

  /** The upload ids an attempt remembers before its intent is answered. */
  predicate Remembers(cache: Cache, a: Attempt) {
    a.persisted == if cache.sidecar.Some? then Some(cache.sidecar.value.uploadId) else None
  }

  lemma PrepareEnds(cache: Cache, s: Script)
    ensures var a := Prepare(cache, s);
            if ArchiveReady(cache, s) then
              && a.verdict.None? && a.archive == ArchiveOf(cache, s)
              && a.cache.sidecar == cache.sidecar && a.persisted.None?
            else OverAt(cache, s, a, Building)
  {
  }

  lemma {:induction false} PollEnds(cache: Cache, s: Script)
    requires ArchiveReady(cache, s)
    ensures var a := Poll(Prepare(cache, s), s);
            if IntentAsked(cache, s) then a.verdict.None? && Remembers(cache, a)
            else OverAt(cache, s, a, if PollAsked(cache, s) then Answering(Polling) else Comparing)
  {
    PrepareEnds(cache, s);
  }

  lemma NameIffValid(id: UploadId)
    ensures ValidId(id) <==> UploadName(id)
  {
    assert forall i :: 0 <= i < |id| ==> id[i] in id;
  }

  lemma {:induction false} IntentEnds(cache: Cache, s: Script, a: Attempt)
    requires a.verdict.None? && IntentAsked(cache, s) && Remembers(cache, a)
    ensures var r := Request(a, s);
            if Accepted(cache, s, Intending) then
              && AcceptableIntent(a, s.intent.response) && s.intent.response.uploadId.value == ExpectedId(cache, s)
              && Observe(a.(wire := a.wire + [Heard(s.intent.response)]), ExpectedId(cache, s), s.intent.response,
                         s.intentWrite).verdict.None?
            else OverAt(cache, s, r, Answering(Intending))
  {
    if s.intent.Replied? && s.intent.response.uploadId.Some? {
      NameIffValid(s.intent.response.uploadId.value);
    }
  }

  lemma {:induction false} QueryEnds(cache: Cache, s: Script, a: Attempt)
    requires a.verdict.None? && a.persisted == Some(ExpectedId(cache, s)) && IntentAsked(cache, s)
    requires Accepted(cache, s, Intending)
    ensures var b := Query(a, ExpectedId(cache, s), s);
            if UploadAsked(cache, s) then b.verdict.None?
            else OverAt(cache, s, b, Answering(if QueryAsked(cache, s) then Querying else Intending))
  {
  }

  lemma {:induction false} RequestEnds(cache: Cache, s: Script, a: Attempt)
    requires a.verdict.None? && IntentAsked(cache, s) && Remembers(cache, a)
    ensures var b := Request(a, s);
            if UploadAsked(cache, s) then b.verdict.None?
            else OverAt(cache, s, b, Answering(if QueryAsked(cache, s) then Querying else Intending))
  {
    IntentEnds(cache, s, a);
    if Accepted(cache, s, Intending) {
      var b := Observe(a.(wire := a.wire + [Heard(s.intent.response)]), ExpectedId(cache, s), s.intent.response,
                       s.intentWrite);
      QueryEnds(cache, s, b);
    }
  }

  function UploadPlace(cache: Cache, s: Script): Place {
    if !UploadAllowed(s) then Targeting else if !s.put.Stored? then Sending else Answering(Completing)
  }

  lemma {:induction false} CompleteEnds(cache: Cache, s: Script, a: Attempt)
    requires a.verdict.None? && a.persisted == Some(ExpectedId(cache, s)) && UploadMade(cache, s) && s.put.Stored?
    ensures OverAt(cache, s, Complete(a, ExpectedId(cache, s), s), Answering(Completing))
  {
  }

  lemma {:induction false} UploadEnds(cache: Cache, s: Script, a: Attempt)
    requires a.verdict.None? && a.persisted == Some(ExpectedId(cache, s)) && UploadAsked(cache, s)
    requires s.intent.Replied? && s.intent.response.uploadId == Some(ExpectedId(cache, s))
        && (NeedsQuery(s.intent.response) ==> s.query.Replied?)
    ensures OverAt(cache, s, Upload(a, s), UploadPlace(cache, s))
  {
    if UploadMade(cache, s) && s.put.Stored? {
      var id := ExpectedId(cache, s);
      CompleteEnds(cache, s, a.(wire := a.wire + [PutSent(id, a.archive, a.cache.sidecar)]));
    }
  }

  lemma {:induction false} CallExplained(cache: Cache, s: Script)
    ensures Deliver(cache, s).verdict.Some? && Explains(cache, s, Deliver(cache, s).verdict.value)
  {
    PrepareEnds(cache, s);
    if ArchiveReady(cache, s) {
      PollEnds(cache, s);
      var a := Poll(Prepare(cache, s), s);
      if IntentAsked(cache, s) {
        RequestEnds(cache, s, a);
        RequestReplied(a, s);
        var b := Request(a, s);
        if UploadAsked(cache, s) {
          PrepareStage(cache, s);
          PollStage(cache, Prepare(cache, s), s);
          RequestStage(cache, a, s);
          UploadEnds(cache, s, b);
        }
      }
    }
  }

  /** A call has an outcome exactly when a request, a durable write or a check of the receiver's answers
      gives that outcome at a place the call gets to. */
  lemma {:induction false} OutcomeIff(cache: Cache, s: Script, outcome: Outcome)
    ensures Deliver(cache, s).verdict.Some?
    ensures Explains(cache, s, outcome) <==> SameOutcome(Deliver(cache, s).verdict.value, outcome)
  {
    CallExplained(cache, s);
    var v := Deliver(cache, s).verdict.value;
    if Explains(cache, s, outcome) {
      OneExplanation(cache, s, v, outcome);
    } else if v.AuthBlocked? && outcome.AuthBlocked? && v.httpStatus == outcome.httpStatus {
      var p :| Reason(cache, s, p, v);
      assert Reason(cache, s, p, outcome);
    }
  }
  // ---- When the archive is sent ----

  ghost predicate SomePut(wire: seq<Wire>) {
    exists q :: 0 <= q < |wire| && wire[q].PutSent?
  }

  /** The archive is sent exactly when the answer to the intent, or to the query after it, asks for it and
      brings an upload target that passes the checks. A target that does not pass refuses the call. */
  lemma {:induction false} UploadIff(cache: Cache, s: Script)
    ensures SomePut(Deliver(cache, s).wire) <==> UploadMade(cache, s)
    ensures UploadAsked(cache, s) && !UploadAllowed(s) ==>
              Deliver(cache, s).verdict == Some(Rejected) && !SomePut(Deliver(cache, s).wire)
  {
    var a := Poll(Prepare(cache, s), s);
    PrepareStage(cache, s);
    PollStage(cache, Prepare(cache, s), s);
    RequestStage(cache, a, s);
    RequestReplied(a, s);
    RequestReached(cache, s);
    var b := Request(a, s);
    if b.verdict.None? {
      PutsArchive(b, s);
    }
    if UploadAsked(cache, s) && !UploadAllowed(s) {
      assert Reason(cache, s, Targeting, Rejected);
      OutcomeIff(cache, s, Rejected);
    }
  }

  /** The call gets past its intent exactly when the receiver asks for the archive. */
  lemma {:induction false} RequestReached(cache: Cache, s: Script)
    ensures Request(Poll(Prepare(cache, s), s), s).verdict.None? <==> UploadAsked(cache, s)
  {
    PrepareEnds(cache, s);
    if ArchiveReady(cache, s) {
      PollEnds(cache, s);
      if IntentAsked(cache, s) {
        RequestEnds(cache, s, Poll(Prepare(cache, s), s));
      }
    }
  }

  lemma {:induction false} PutsArchive(a: Attempt, s: Script)
    requires a.verdict.None? && NoPut(a.wire) && s.intent.Replied? && s.intent.response.uploadId.Some?
    requires NeedsQuery(s.intent.response) ==> s.query.Replied?
    ensures SomePut(Upload(a, s).wire) <==> UploadAllowed(s)
  {
    if UploadAllowed(s) {
      assert Upload(a, s).wire[|a.wire|].PutSent?;
    }
  }
  // ---- What the sidecar shows ----

  predicate AllRecorded(s: Script) {
    s.pollWrite.Written? && s.intentWrite.Written? && s.queryWrite.Written? && s.completeWrite.Written?
  }

  /** The sidecar shows the status of the receipt, if the attempt ended with one. */
  predicate ShowsStatus(a: Attempt) {
    a.verdict.Some? && a.verdict.value.Terminal? ==>
      a.cache.sidecar.Some? && a.cache.sidecar.value.status == a.verdict.value.receipt.status
  }

  lemma ExchangeShows(a: Attempt, id: UploadId, reply: HubReply, w: WriteReply, allowUpload: bool)
    requires a.verdict.None? && w.Written?
    ensures ShowsStatus(Exchange(a, id, reply, w))
    ensures reply.Replied? ==> ShowsStatus(Settle(Exchange(a, id, reply, w), reply.response, allowUpload))
  {
  }

  lemma {:induction false} RequestShows(a: Attempt, s: Script)
    requires ShowsStatus(a) && AllRecorded(s)
    ensures ShowsStatus(Request(a, s))
  {
    if a.verdict.None? && s.intent.Replied? && s.intent.response.uploadId.Some? {
      var r := s.intent.response;
      var b := Observe(a.(wire := a.wire + [Heard(r)]), r.uploadId.value, r, s.intentWrite);
      if b.verdict.None? {
        ExchangeShows(b, r.uploadId.value, s.query, s.queryWrite, true);
      }
    }
  }

  /** When every answer could be recorded, the sidecar of a delivered transfer shows the final status. */
  lemma {:induction false} SidecarShowsStatus(cache: Cache, s: Script)
    requires AllRecorded(s)
    ensures ShowsStatus(Deliver(cache, s))
  {
    var a := Prepare(cache, s);
    if a.verdict.None? && a.cache.sidecar.Some? {
      var id := a.cache.sidecar.value.uploadId;
      ExchangeShows(a.(persisted := Some(id)), id, s.poll, s.pollWrite, true);
    }
    RequestShows(Poll(a, s), s);
    RequestReplied(Poll(a, s), s);
    var b := Request(Poll(a, s), s);
    if b.verdict.None? {
      var id := s.intent.response.uploadId.value;
      var c := b.(wire := b.wire + [PutSent(id, b.archive, b.cache.sidecar)]);
      ExchangeShows(c, id, s.complete, s.completeWrite, false);
    }
  }
}
