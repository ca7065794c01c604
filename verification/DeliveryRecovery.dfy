/** Credential recovery: which held rows may be requeued, and what requeueing keeps. */
module DeliveryRecovery {
  import opened Prelude
  import opened HubProtocol
  import opened DeliveryRows
  import opened DeliveryRuns

  /** What re-reading the sealed source answers. */
  datatype Recheck = Resealed(identity: SourceIdentity) | NotSealed | Unreadable

  datatype Rejection =
    IdentityUnavailable | StateInconsistent | IdentityMismatch | EvidenceInvalid | IoUnavailable | IdentityInvalid

  const MAX_UPLOAD_ID := 128

  /** A check that fails for the given reason. */
  function Need(condition: bool, reason: Rejection): Result<(), Rejection> {
    if condition then Ok(()) else Err(reason)
  }

  function Then(first: Result<(), Rejection>, second: Result<(), Rejection>): Result<(), Rejection> {
    if first.Ok? then second else first
  }

  function CheckSourceAgain(row: Row, reply: Recheck): Result<(), Rejection> {
    match reply
    case Resealed(identity) => Need(Some(identity) == row.identity, IdentityMismatch)
    case NotSealed => Err(IdentityInvalid)
    case Unreadable => Err(IoUnavailable)
  }

  /** The bundle, its transfer and the recorded block speak of one content. */
  function CheckEvidence(files: Files, key: Key, row: Row): Result<(), Rejection> {
    if key !in files.bundles || !files.bundles[key].valid then Err(EvidenceInvalid)
    else if key !in files.transfers then Err(IoUnavailable)
    else
      var bundle := files.bundles[key];
      var m := bundle.manifest;
      Need(
        && files.transfers[key] == m
        && row.identity.Some? && bundle.sessionId == row.identity.value.sessionId
        && row.contentId == Some(m.contentId)
        && row.authContext.Some? && row.authContext.value.contentId == m.contentId
        && row.authContext.value.manifestDigest == m.digest
        && bundle.rawFiles == row.identity.value.rawFiles, IdentityMismatch)
  }

  function CheckMetadata(files: Files, outboxId: string, key: Key, row: Row): Result<(), Rejection> {
    if key !in files.metadata then Err(IoUnavailable)
    else
      Need(Some(files.metadata[key].source) == row.identity && files.metadata[key].config == outboxId,
           IdentityMismatch)
  }

  predicate UsableId(id: Option<UploadId>) {
    id.Some? ==> ValidId(id.value) && |id.value| <= MAX_UPLOAD_ID
  }

  /** The archive and the sidecar on disk are those of the recorded block. */
  function CheckTransport(cache: Cache, c: AuthContext): Result<(), Rejection> {
    if c.archive.bytes == 0 || !UsableId(c.uploadId) then Err(IdentityUnavailable)
    else if cache.archive.None? then Err(IoUnavailable)
    else if cache.archive.value != c.archive then Err(IdentityMismatch)
    else match c.uploadId
      case None => Need(cache.sidecar.None?, IdentityMismatch)
      case Some(id) =>
        if cache.sidecar.None? then Err(IoUnavailable)
        else
          Need(cache.sidecar.value.uploadId == id && cache.sidecar.value.archive.digest == c.archive.digest,
               IdentityMismatch)
  }

  /** _check_identity. */
  function CheckIdentity(files: Files, outboxId: string, key: Key, row: Row, reply: Recheck): Result<(), Rejection> {
    if !row.authError || row.authContext.None? then Err(IdentityUnavailable)
    else if row.receipt.Some? || key in files.receipts then Err(StateInconsistent)
    else
      var context := row.authContext.value;
      Then(CheckSourceAgain(row, reply),
      Then(CheckEvidence(files, key, row),
      Then(CheckMetadata(files, outboxId, key, row),
           CheckTransport(CacheOf(files, context.manifestDigest), context))))
  }

  // ---- What every held row carries ----

  /** The block names an archive and, if it has one, an upload that are still on disk. */
  ghost predicate ContextOnDisk(files: Files, m: Manifest, c: AuthContext) {
    && c.contentId == m.contentId && c.manifestDigest == m.digest
    && m.digest in files.caches && files.caches[m.digest].archive == Some(c.archive)
    && (c.uploadId.Some? ==>
          && files.caches[m.digest].sidecar.Some? && files.caches[m.digest].sidecar.value.uploadId == c.uploadId.value
          && files.caches[m.digest].sidecar.value.archive.digest == c.archive.digest)
  }

  ghost predicate MetadataOf(files: Files, outboxId: string, key: Key, row: Row) {
    row.identity.Some? && key in files.metadata
    && files.metadata[key].config == outboxId && files.metadata[key].source == row.identity.value
  }

  ghost predicate HeldSound(files: Files, outboxId: string, key: Key, row: Row) {
    row.status.AuthHeld? ==>
      && row.authError && row.authContext.Some? && row.contentId.Some? && row.receipt.None?
      && TransferSealed(files, key, row.contentId) && MetadataOf(files, outboxId, key, row)
      && ContextOnDisk(files, files.transfers[key], row.authContext.value)
  }

  ghost predicate AllHeldSound(o: Outbox, outboxId: string) {
    forall k :: k in o.rows ==> HeldSound(o.files, outboxId, k, o.rows[k])
  }

  /** What the outside has to keep, for a held row to be requeued. */
  ghost predicate SourceKept(files: Files, key: Key, row: Row, reply: Recheck) {
    && row.identity.Some? && row.authContext.Some? && key in files.bundles
    && reply == Resealed(row.identity.value)
    && files.bundles[key].sessionId == row.identity.value.sessionId
    && files.bundles[key].rawFiles == row.identity.value.rawFiles
    && key !in files.receipts
    && row.authContext.value.archive.bytes > 0
    && (row.authContext.value.uploadId.Some? ==> |row.authContext.value.uploadId.value| <= MAX_UPLOAD_ID)
  }

  /** No other session with the same manifest has obtained an upload since. */
  ghost predicate NoLateSidecar(files: Files, row: Row) {
    row.authContext.Some? && row.authContext.value.uploadId.None? ==>
      CacheOf(files, row.authContext.value.manifestDigest).sidecar.None?
  }

  /** A held row passes exactly when its source, its pack and its receipt file are as they should be. */
  lemma {:induction false} RequeuedIff(files: Files, outboxId: string, key: Key, row: Row, reply: Recheck)
    requires FilesSound(files) && row.status.AuthHeld? && HeldSound(files, outboxId, key, row)
    ensures CheckIdentity(files, outboxId, key, row, reply).Ok? <==>
        SourceKept(files, key, row, reply) && NoLateSidecar(files, row)
  {
    var c := row.authContext.value;
    var cache := CacheOf(files, c.manifestDigest);
    assert SidecarNamed(cache);
    assert CheckTransport(cache, c).Ok? <==>
        c.archive.bytes > 0 && (c.uploadId.Some? ==> |c.uploadId.value| <= MAX_UPLOAD_ID) && NoLateSidecar(files, row);
  }

  // ---- Draining keeps it ----

  lemma {:induction false} UpdateHeld(before: Files, config: Config, t: Trial, key: Key, row: Row, env: Env, now: real)
    requires VerdictSound(before, config, t, key, row) && Concluded(t, key)
    requires RowSound(before, key, row) && row.status.Waiting?
    ensures var next := UpdateRow(row, t, key, env, now);
            next.Some? ==> HeldSound(t.files, config.outbox, key, next.value)
    ensures var next := UpdateRow(row, t, key, env, now);
            next.Some? && next.value.status.AuthHeld? ==>
                NoLateSidecar(t.files, next.value) && t.files.receipts == before.receipts
  {
  }

  lemma OtherHeld(before: Files, after: Files, outboxId: string, key: Key, other: Key, row: Row)
    requires FilesExtend(before, after, key) && other != key && HeldSound(before, outboxId, other, row)
    ensures HeldSound(after, outboxId, other, row)
  {
    if row.status.AuthHeld? {
      var d := row.authContext.value.manifestDigest;
      assert Extends(before.caches[d], after.caches[d]);
    }
  }

  lemma {:induction false} DrainHeld(o: Outbox, config: Config, now: real, env: Env)
    requires Sound(o) && AllHeldSound(o, config.outbox)
    ensures AllHeldSound(DrainOne(o, config, now, env).0, config.outbox)
  {
    var due := DueKeys(o, now);
    if due != {} {
      var key := Least(due);
      var row := o.rows[key];
      var t := TryRow(o.files, config, key, row, env);
      AttemptSound(o.files, config, key, row, env);
      UpdateHeld(o.files, config, t, key, row, env, now);
      var next := DrainOne(o, config, now, env).0;
      forall k | k in next.rows ensures HeldSound(next.files, config.outbox, k, next.rows[k]) {
        if k != key {
          OtherHeld(o.files, t.files, config.outbox, key, k, o.rows[k]);
        }
      }
    }
  }

  /** A row that this drain has just held can be requeued at once, given an unchanged source, a pack
      that kept the session and its raw files, and no receipt file left from before. */
  lemma {:induction false} FreshHoldRequeues(o: Outbox, config: Config, now: real, env: Env, key: Key, reply: Recheck)
    requires Sound(o) && AllHeldSound(o, config.outbox)
    requires DrainOne(o, config, now, env).1 == Some(key)
    requires DrainOne(o, config, now, env).0.rows[key].status.AuthHeld?
    ensures var next := DrainOne(o, config, now, env).0;
            && (key in next.files.receipts <==> key in o.files.receipts)
            && (CheckIdentity(next.files, config.outbox, key, next.rows[key], reply).Ok? <==>
                  SourceKept(next.files, key, next.rows[key], reply))
  {
    var row := o.rows[key];
    var t := TryRow(o.files, config, key, row, env);
    var next := DrainOne(o, config, now, env).0;
    AttemptSound(o.files, config, key, row, env);
    UpdateHeld(o.files, config, t, key, row, env, now);
    DrainSound(o, config, now, env);
    DrainHeld(o, config, now, env);
    assert UpdateRow(row, t, key, env, now).Some?;
    RequeuedIff(next.files, config.outbox, key, next.rows[key], reply);
  }

  // ---- Requeueing ----

  function Requeued(row: Row): Row {
    row.(status := Waiting, retryAt := 0.0, authError := false)
  }

  predicate Resumes(o: Outbox, outboxId: string, key: Key, reply: Recheck) {
    && key in o.rows && o.rows[key].status.AuthHeld?
    && CheckIdentity(o.files, outboxId, key, o.rows[key], reply).Ok?
  }

  /** resume_auth for one delivery id. */
  function ResumeOne(o: Outbox, outboxId: string, key: Key, reply: Recheck): Outbox {
    if Resumes(o, outboxId, key, reply) then o.(rows := o.rows[key := Requeued(o.rows[key])]) else o
  }

  /** Recovery keeps every file and every identity, and touches at most the one held row. */
  lemma {:induction false} ResumeKeeps(o: Outbox, outboxId: string, key: Key, reply: Recheck)
    requires Sound(o) && AllHeldSound(o, outboxId)
    ensures var next := ResumeOne(o, outboxId, key, reply);
            && Sound(next) && AllHeldSound(next, outboxId) && RowsKept(o, next) && next.files == o.files
            && next.rows.Keys == o.rows.Keys
            && (forall k :: k in o.rows && k != key ==> next.rows[k] == o.rows[k])
            && (next != o ==>
                  && o.rows[key].status.AuthHeld? && next.rows[key].status.Waiting? && next.rows[key].retryAt == 0.0
                  && next.rows[key].contentId == o.rows[key].contentId
                  && next.rows[key].authContext == o.rows[key].authContext
                  && next.rows[key].attempts == o.rows[key].attempts)
  {
    var next := ResumeOne(o, outboxId, key, reply);
    forall k | k in next.rows
      ensures RowSound(next.files, k, next.rows[k]) && HeldSound(next.files, outboxId, k, next.rows[k])
    {
      assert RowSound(o.files, k, o.rows[k]) && HeldSound(o.files, outboxId, k, o.rows[k]);
    }
  }

  /** A second recovery changes nothing, whatever the source answers then. */
  lemma SecondResumeIdle(o: Outbox, outboxId: string, key: Key, reply: Recheck, again: Recheck)
    requires Resumes(o, outboxId, key, reply)
    ensures ResumeOne(ResumeOne(o, outboxId, key, reply), outboxId, key, again) == ResumeOne(o, outboxId, key, reply)
  {
  }
  // ---- What a passing check vouches for, whatever happened to the files ----

  /** The block, the source and the files of the row tell one story. */
  predicate TellsOneStory(files: Files, outboxId: string, key: Key, row: Row, reply: Recheck, c: AuthContext) {
    && row.authError && row.authContext == Some(c) && row.receipt.None? && key !in files.receipts
    && row.identity.Some? && reply == Resealed(row.identity.value)
    && key in files.bundles && files.bundles[key].valid
    && files.bundles[key].sessionId == row.identity.value.sessionId
    && files.bundles[key].rawFiles == row.identity.value.rawFiles
    && files.bundles[key].manifest.contentId == c.contentId && row.contentId == Some(c.contentId)
    && files.bundles[key].manifest.digest == c.manifestDigest
    && key in files.transfers && files.transfers[key] == files.bundles[key].manifest
    && key in files.metadata && files.metadata[key].source == row.identity.value
    && files.metadata[key].config == outboxId
    && c.archive.bytes > 0 && CacheOf(files, c.manifestDigest).archive == Some(c.archive)
  }

  /** A row passes exactly when all that, and the sidecar is the block's: none if the block names no upload, and
      otherwise one for this upload, of a usable id, and this archive. */
  lemma {:induction false} PassesIff(files: Files, outboxId: string, key: Key, row: Row, reply: Recheck)
    ensures CheckIdentity(files, outboxId, key, row, reply).Ok? <==>
        && row.authContext.Some? && TellsOneStory(files, outboxId, key, row, reply, row.authContext.value)
        && var c, sidecar := row.authContext.value, CacheOf(files, row.authContext.value.manifestDigest).sidecar;
           match c.uploadId
           case None => sidecar.None?
           case Some(id) =>
             && ValidId(id) && |id| <= 128
             && sidecar.Some? && sidecar.value.uploadId == id && sidecar.value.archive.digest == c.archive.digest
  {
  }

  /** So two states of the files that both pass agree on everything the row stands for. */
  lemma {:induction false} PassingFilesAgree(files: Files, other: Files, outboxId: string, key: Key, row: Row,
      reply: Recheck)
    requires CheckIdentity(files, outboxId, key, row, reply).Ok?
    requires CheckIdentity(other, outboxId, key, row, reply).Ok?
    ensures key in files.bundles && key in other.bundles && key in files.transfers && key in other.transfers
    ensures files.bundles[key].manifest.contentId == other.bundles[key].manifest.contentId
    ensures files.transfers[key].digest == other.transfers[key].digest
    ensures row.authContext.Some?
    ensures var d := row.authContext.value.manifestDigest;
            && CacheOf(files, d).archive == CacheOf(other, d).archive
            && (CacheOf(files, d).sidecar.Some? <==> CacheOf(other, d).sidecar.Some?)
            && (CacheOf(files, d).sidecar.Some? ==>
                  CacheOf(files, d).sidecar.value.uploadId == CacheOf(other, d).sidecar.value.uploadId)
  {
    PassesIff(files, outboxId, key, row, reply);
    PassesIff(other, outboxId, key, row, reply);
  }
}
