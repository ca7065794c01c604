/** HubTransport itself: the durable files of one manifest and the call that delivers it.

    Call is written as the source writes it, with early exits and a sidecar replaced in
    place, and is proved against the stages of HubProtocol. */
module HubTransport {
  import opened Prelude
  import opened HubProtocol

  /** What is remembered as persisted is the upload id on disk. */
  predicate SidecarHolds(cache: Cache, persisted: Option<UploadId>) {
    persisted.Some? ==> cache.sidecar.Some? && cache.sidecar.value.uploadId == persisted.value
  }

  class HubTransport {
    var cache: Cache
    ghost var wire: seq<Wire>  // of the latest call

    constructor (files: Cache)
      ensures cache == files && wire == []
    {
      cache, wire := files, [];
    }

    /** Reads the archive, building and publishing it first if it is absent. */
    method OpenArchive(s: Script) returns (archive: Archive, stop: Option<Outcome>)
      modifies this
      ensures Attempt(cache, archive, None, wire, stop) == Prepare(old(cache), s)
    {
      wire := [];
      archive, stop := s.archive, None;
      if cache.archive.Some? {
        archive := cache.archive.value;
        return;
      }
      match s.build {
        case Built => cache := cache.(archive := Some(s.archive));
        case DiedPublished =>
          cache := cache.(archive := Some(s.archive));
          stop := Some(Died);
        case BuildUnavailable => stop := Some(RetryLater);
        case BuildRefused => stop := Some(Rejected);
        case DiedBuilding => stop := Some(Died);
      }
    }

    /** The nested function `observe`. The attempt goes on only with this very identity on disk, and a
        failed write stops it unless it was there already. */
    method Observe(persisted: Option<UploadId>, archive: Archive, id: UploadId, r: Response, w: WriteReply)
      returns (now: Option<UploadId>, stop: Option<Outcome>)
      modifies this`cache
      ensures stop.None? && SidecarHolds(old(cache), persisted) ==> now == Some(id) && SidecarHolds(cache, Some(id))
      ensures w.WriteFailed? ==> cache == old(cache) && (stop.None? ==> persisted == Some(id))
      ensures r.uploadId.Some? && r.uploadId.value != id ==> cache == old(cache) && stop == Some(Rejected)
      ensures Attempt(cache, archive, now, wire, stop)
           == HubProtocol.Observe(Attempt(old(cache), archive, persisted, wire, None), id, r, w)
    {
      now, stop := persisted, None;
      if r.uploadId.Some? && r.uploadId.value != id {
        return persisted, Some(Rejected);
      }
      var sidecar := Sidecar(id, archive, r.status);
      match w {
        case Written =>
          cache := cache.(sidecar := Some(sidecar));
          now := Some(id);
        case WriteFailed =>
          if persisted != Some(id) {
            stop := Some(RetryLater);
          }
        case DiedBefore => stop := Some(Died);
        case DiedAfter =>
          cache := cache.(sidecar := Some(sidecar));
          stop := Some(Died);
      }
    }

    /** One Hub request about a known upload, and the observation of its answer. */
    method Exchange(persisted: Option<UploadId>, archive: Archive, id: UploadId, reply: HubReply, w: WriteReply)
      returns (now: Option<UploadId>, stop: Option<Outcome>)
      modifies this
      ensures Attempt(cache, archive, now, wire, stop)
           == HubProtocol.Exchange(Attempt(old(cache), archive, persisted, old(wire), None), id, reply, w)
    {
      now, stop := persisted, None;
      match reply {
        case AuthRejected(status) => stop := Some(AuthBlocked(status, persisted, archive));
        case Unavailable => stop := Some(RetryLater);
        case Refused => stop := Some(Rejected);
        case DiedWaiting => stop := Some(Died);
        case Replied(response) =>
          wire := wire + [Heard(response)];
          now, stop := Observe(persisted, archive, id, response, w);
      }
    }

    static method Verdict(r: Response, allowUpload: bool) returns (stop: Option<Outcome>)
      ensures forall a: Attempt :: a.verdict.None? ==> a.(verdict := stop) == Decide(a, r, allowUpload)
    {
      match Disposition(r, allowUpload) {
        case Err(outcome) => stop := Some(outcome);
        case Ok(receipt) => stop := if receipt.Some? then Some(Terminal(receipt.value)) else None;
      }
    }

    /** The first request of a call that finds a sidecar. */
    method PollPrevious(archive: Archive, s: Script) returns (persisted: Option<UploadId>, stop: Option<Outcome>)
      requires cache.sidecar.Some?
      modifies this
      ensures Attempt(cache, archive, persisted, wire, stop)
           == Poll(Attempt(old(cache), archive, None, old(wire), None), s)
    {
      var previous := cache.sidecar.value;
      if previous.archive.digest != archive.digest {
        return None, Some(Rejected);
      }
      persisted, stop := Exchange(Some(previous.uploadId), archive, previous.uploadId, s.poll, s.pollWrite);
      if stop.None? {
        stop := Verdict(s.poll.response, true);
      }
    }

    /** The intent request up to the decision whether to upload. */
    method RequestIntent(persisted: Option<UploadId>, archive: Archive, s: Script)
      returns (now: Option<UploadId>, stop: Option<Outcome>)
      modifies this
      ensures Attempt(cache, archive, now, wire, stop)
           == Request(Attempt(old(cache), archive, persisted, old(wire), None), s)
    {
      now := persisted;
      if !s.intent.Replied? {
        now, stop := Exchange(persisted, archive, "", s.intent, s.intentWrite);
        return;
      }
      var intent := s.intent.response;
      wire := wire + [Heard(intent)];
      var acceptable := intent.uploadId.Some? && ValidId(intent.uploadId.value);
      if !acceptable || (persisted.Some? && intent.uploadId != persisted) {
        return persisted, Some(Rejected);
      }
      var id := intent.uploadId.value;
      now, stop := Observe(persisted, archive, id, intent, s.intentWrite);
      if stop.Some? {
        return;
      }
      if NeedsQuery(intent) {
        now, stop := Exchange(now, archive, id, s.query, s.queryWrite);
        if stop.Some? {
          return;
        }
        intent := s.query.response;
      }
      stop := Verdict(intent, true);
    }

    /** PUT the archive and complete the upload. */
    method UploadArchive(persisted: Option<UploadId>, archive: Archive, s: Script)
      returns (now: Option<UploadId>, outcome: Outcome)
      requires s.intent.Replied? && s.intent.response.uploadId.Some?
          && (NeedsQuery(s.intent.response) ==> s.query.Replied?)
      modifies this
      ensures var a := Upload(Attempt(old(cache), archive, persisted, old(wire), None), s);
              a.verdict.Some? ==> Attempt(cache, archive, now, wire, Some(outcome)) == a
    {
      now, outcome := persisted, Rejected;
      var id := s.intent.response.uploadId.value;
      if !LastResponse(s).putAllowed {
        return;
      }
      wire := wire + [PutSent(id, archive, cache.sidecar)];
      match s.put {
        case PutUnavailable => outcome := RetryLater;
        case PutRefused => outcome := Rejected;
        case DiedUploading => outcome := Died;
        case Stored =>
          var stop: Option<Outcome>;
          now, stop := Exchange(persisted, archive, id, s.complete, s.completeWrite);
          if stop.None? {
            stop := Verdict(s.complete.response, false);
          }
          outcome := if stop.Some? then stop.value else Rejected;
      }
    }

    /** `__call__`. */
    method Call(s: Script) returns (outcome: Outcome)
      modifies this
      ensures var a := Deliver(old(cache), s); cache == a.cache && wire == a.wire && a.verdict == Some(outcome)
      ensures AttemptOk(old(cache), Deliver(old(cache), s))
    {
      OneAttempt(cache, s);
      var archive, stop := OpenArchive(s);
      if stop.Some? {
        return stop.value;
      }
      var persisted: Option<UploadId> := None;
      if cache.sidecar.Some? {
        persisted, stop := PollPrevious(archive, s);
        if stop.Some? {
          return stop.value;
        }
      }
      RequestReplied(Attempt(cache, archive, persisted, wire, None), s);
      persisted, stop := RequestIntent(persisted, archive, s);
      if stop.Some? {
        return stop.value;
      }
      persisted, outcome := UploadArchive(persisted, archive, s);
    }
  }
}
