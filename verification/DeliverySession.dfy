/** The session check of the completion receipt, and why every verified row passes it. */
module DeliverySession {
  import opened Prelude
  import opened HubProtocol
  import opened DeliveryRows
  import opened DeliveryRuns
  import opened DeliveryRecovery
  import opened DeliveryHistory

  /** What the check reads besides the outbox: the sealed source again, the tool manifest, whether the
      bundle names this timeline, worker and campaign, and whether the archive holds the transfer. */
  datatype Observed = Observed(source: Recheck, tool: string, sameOrigin: bool, archiveHolds: bool)

  /** The archive is the one the upload sidecar declares, in digest and in size. */
  predicate UploadAgrees(cache: Cache) {
    && cache.archive.Some? && cache.sidecar.Some?
    && ValidId(cache.sidecar.value.uploadId) && cache.sidecar.value.archive == cache.archive.value
  }

  /** _session: true when it returns a session entry. */
  predicate SessionCheck(files: Files, outboxId: string, key: Key, row: Row, seen: Observed) {
    && row.status.Verified?
    && row.identity.Some? && seen.source == Resealed(row.identity.value)
    && key in files.bundles && files.bundles[key].valid
    && var bundle := files.bundles[key];
       var m := bundle.manifest;
       && bundle.sessionId == row.identity.value.sessionId && seen.sameOrigin
       && row.contentId == Some(m.contentId)
       && bundle.rawFiles == row.identity.value.rawFiles
       && key in files.transfers && files.transfers[key] == m
       && key in files.metadata && files.metadata[key] == Metadata(outboxId, row.identity.value, seen.tool)
       && UploadAgrees(CacheOf(files, m.digest)) && seen.archiveHolds
       && key in files.receipts && row.receipt == Some(files.receipts[key])
       && files.receipts[key].status.Verified? && MatchingReceipt(files.receipts[key], m)
  }

  /** What every terminal row carries besides RowSound. */
  ghost predicate DeliveredSound(files: Files, outboxId: string, key: Key, row: Row) {
    Terminated(row) ==>
      && row.contentId.Some? && TransferSealed(files, key, row.contentId) && MetadataOf(files, outboxId, key, row)
      && UploadRecorded(CacheOf(files, files.transfers[key].digest))
  }

  ghost predicate AllDeliveredSound(o: Outbox, outboxId: string) {
    forall k :: k in o.rows ==> DeliveredSound(o.files, outboxId, k, o.rows[k])
  }

  lemma {:induction false} UpdateDelivered(before: Files, config: Config, t: Trial, key: Key, row: Row, env: Env,
      now: real)
    requires VerdictSound(before, config, t, key, row) && Concluded(t, key)
    requires RowSound(before, key, row) && row.status.Waiting?
    ensures var next := UpdateRow(row, t, key, env, now);
            next.Some? ==> DeliveredSound(t.files, config.outbox, key, next.value)
  {
  }

  lemma {:induction false} OtherDelivered(before: Files, after: Files, outboxId: string, key: Key, other: Key, row: Row)
    requires FilesExtend(before, after, key) && other != key && DeliveredSound(before, outboxId, other, row)
    ensures DeliveredSound(after, outboxId, other, row)
  {
    if Terminated(row) {
      var d := before.transfers[other].digest;
      assert d in before.caches && Extends(before.caches[d], after.caches[d]);
    }
  }

  lemma {:induction false} DrainDelivered(o: Outbox, config: Config, now: real, env: Env)
    requires Sound(o) && AllDeliveredSound(o, config.outbox)
    ensures AllDeliveredSound(DrainOne(o, config, now, env).0, config.outbox)
  {
    var due := DueKeys(o, now);
    if due != {} {
      var key := Least(due);
      var row := o.rows[key];
      var t := TryRow(o.files, config, key, row, env);
      AttemptSound(o.files, config, key, row, env);
      UpdateDelivered(o.files, config, t, key, row, env, now);
      var next := DrainOne(o, config, now, env).0;
      forall k | k in next.rows ensures DeliveredSound(next.files, config.outbox, k, next.rows[k]) {
        if k != key {
          OtherDelivered(o.files, t.files, config.outbox, key, k, o.rows[k]);
        }
      }
    }
  }

  lemma {:induction false} StepDelivered(o: Outbox, config: Config, step: Step)
    requires Consistent(o, config) && AllDeliveredSound(o, config.outbox)
    ensures AllDeliveredSound(Do(o, config, step), config.outbox)
  {
    match step
    case Drain(now, env) => DrainDelivered(o, config, now, env);
    case _ =>
      var next := Do(o, config, step);
      forall k | k in next.rows ensures DeliveredSound(next.files, config.outbox, k, next.rows[k]) {
        if k in o.rows {
          assert DeliveredSound(o.files, config.outbox, k, o.rows[k]);
        }
      }
  }

  lemma {:induction false} HistoryDelivered(o: Outbox, config: Config, steps: seq<Step>)
    requires Consistent(o, config) && AllDeliveredSound(o, config.outbox)
    ensures AllDeliveredSound(Run(o, config, steps), config.outbox)
    decreases |steps|
  {
    if steps == [] {
    } else {
      StepKeeps(o, config, steps[0]);
      StepDelivered(o, config, steps[0]);
      HistoryDelivered(Do(o, config, steps[0]), config, steps[1..]);
    }
  }

  /** What the outside has to keep, for a verified row to enter a completion receipt. */
  ghost predicate EvidenceKept(files: Files, key: Key, row: Row, seen: Observed) {
    && row.identity.Some? && key in files.bundles && key in files.metadata
    && seen.source == Resealed(row.identity.value)
    && files.bundles[key].sessionId == row.identity.value.sessionId
    && files.bundles[key].rawFiles == row.identity.value.rawFiles
    && seen.sameOrigin && seen.archiveHolds && seen.tool == files.metadata[key].tool
  }

  /** At the end of any history, a verified row passes the session check of the completion exactly when
      its source, its pack, its tool and its archive are as they were: nothing the outbox itself stored
      (transfer, metadata, upload sidecar, receipt) can be what fails. */
  lemma {:induction false} VerifiedRowCompletes(config: Config, steps: seq<Step>, key: Key, seen: Observed)
    requires key in Run(EMPTY, config, steps).rows && Run(EMPTY, config, steps).rows[key].status.Verified?
    ensures var o := Run(EMPTY, config, steps);
            SessionCheck(o.files, config.outbox, key, o.rows[key], seen) <==>
                EvidenceKept(o.files, key, o.rows[key], seen)
  {
    EveryHistoryConsistent(config, steps);
    HistoryDelivered(EMPTY, config, steps);
    var o := Run(EMPTY, config, steps);
    assert RowSound(o.files, key, o.rows[key]) && DeliveredSound(o.files, config.outbox, key, o.rows[key]);
    assert SidecarNamed(CacheOf(o.files, o.files.transfers[key].digest));
  }

  /** The archive of a verified row is on disk, beside a sidecar that has a well-formed upload id and
      declares this very archive. */
  lemma {:induction false} VerifiedRowHasUpload(config: Config, steps: seq<Step>, key: Key)
    requires key in Run(EMPTY, config, steps).rows && Run(EMPTY, config, steps).rows[key].status.Verified?
    ensures var files := Run(EMPTY, config, steps).files;
            key in files.transfers && UploadAgrees(CacheOf(files, files.transfers[key].digest))
  {
    EveryHistoryConsistent(config, steps);
    HistoryDelivered(EMPTY, config, steps);
    var o := Run(EMPTY, config, steps);
    assert DeliveredSound(o.files, config.outbox, key, o.rows[key]);
    assert SidecarNamed(CacheOf(o.files, o.files.transfers[key].digest));
  }
  /** What a session entry vouches for, whatever happened to the files: the row's source, content and receipt are
      those of the bundle, the transfer, the metadata and the receipt file, and the archive on disk is the
      one its upload declared. So no two states of the files give one row entries about different content. */
  lemma {:induction false} SessionEntriesAgree(files: Files, other: Files, outboxId: string, key: Key, row: Row,
      seen: Observed)
    requires SessionCheck(files, outboxId, key, row, seen) && SessionCheck(other, outboxId, key, row, seen)
    ensures key in files.receipts && key in other.receipts && files.receipts[key] == other.receipts[key]
    ensures key in files.metadata && key in other.metadata && files.metadata[key] == other.metadata[key]
    ensures key in files.transfers && key in other.transfers
    ensures files.transfers[key].contentId == other.transfers[key].contentId
    ensures files.transfers[key].digest == other.transfers[key].digest
    ensures var m := files.transfers[key];
            && row.contentId == Some(m.contentId) && row.status.Verified?
            && key in files.bundles && files.bundles[key].valid && files.bundles[key].manifest == m
            && row.identity.Some? && seen.source == Resealed(row.identity.value) && seen.sameOrigin && seen.archiveHolds
            && files.bundles[key].sessionId == row.identity.value.sessionId
            && files.bundles[key].rawFiles == row.identity.value.rawFiles
            && files.metadata[key] == Metadata(outboxId, row.identity.value, seen.tool)
            && files.receipts[key].contentId == m.contentId && files.receipts[key].status.Verified?
            && var cache := CacheOf(files, m.digest);
               && cache.archive.Some? && cache.sidecar.Some? && cache.sidecar.value.archive == cache.archive.value
               && ValidId(cache.sidecar.value.uploadId)
  {
  }
}
