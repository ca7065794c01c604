/** Exactly what one attempt makes of its row, told from what the outside answers. */
module DeliveryIncidents {
  import opened Prelude
  import opened HubProtocol
  import opened HubOutcomes
  import opened DeliveryRows
  import opened DeliveryRuns

  /** The tool or the pack refuses the bundle for good. */
  predicate BundleRefused(files: Files, key: Key, env: Env) {
    if key in files.bundles then env.tool.ToolRefused? else env.pack.PackRefused?
  }

  /** The source is as it was enrolled at both checks, and there is a bundle between them. */
  predicate Packs(files: Files, key: Key, identity: SourceIdentity, env: Env) {
    env.before == Sealed(identity) && BundleObtained(files, key, env) && env.after == Sealed(identity)
  }

  function BundleOf(files: Files, key: Key, env: Env): Bundle
    requires BundleObtained(files, key, env)
  {
    if key in files.bundles then files.bundles[key] else env.pack.bundle
  }

  /** What was prepared before still stands: the row knows no other content, and the stored transfer is the
      bundle's, or there is none and the row knows of none. */
  predicate StillPrepared(files: Files, key: Key, row: Row, m: Manifest) {
    && (row.contentId.Some? ==> row.contentId.value == m.contentId)
    && (if key in files.transfers then files.transfers[key] == m else row.contentId.None?)
  }

  /** The bundle verifies and is the one that was prepared. */
  predicate BundleStands(files: Files, key: Key, row: Row, env: Env) {
    && row.identity.Some? && Packs(files, key, row.identity.value, env)
    && BundleOf(files, key, env).valid && StillPrepared(files, key, row, BundleOf(files, key, env).manifest)
  }

  /** The attempt gets to its call: moreover its transfer and its metadata are stored. */
  predicate CallMade(files: Files, key: Key, row: Row, env: Env) {
    && BundleStands(files, key, row, env)
    && (key in files.transfers || env.transferWrite.Written?) && env.metadataWrite.Written?
  }

  /** What the call is about, and the files it starts from. */
  function CallManifest(files: Files, key: Key, env: Env): Manifest
    requires BundleObtained(files, key, env)
  {
    BundleOf(files, key, env).manifest
  }

  function CallCache(files: Files, key: Key, env: Env): Cache
    requires BundleObtained(files, key, env)
  {
    CacheOf(files, CallManifest(files, key, env).digest)
  }

  /** The call returns this receipt, and it is a terminal one of this transfer. */
  ghost predicate GoodReceipt(cache: Cache, hub: Script, m: Manifest, receipt: Receipt) {
    && Explains(cache, hub, Terminal(receipt))
    && receipt.schema == "stpd/receive-receipt-v1" && receipt.contentId == m.contentId
    && receipt.manifestDigest == m.digest && receipt.receiptId != ""
  }

  ghost predicate BadReceipt(cache: Cache, hub: Script, m: Manifest, receipt: Receipt) {
    Explains(cache, hub, Terminal(receipt)) && !GoodReceipt(cache, hub, m, receipt)
  }

  /** Before its call an attempt stops for good when the source has moved, the tool or the pack refuses, or the
      bundle does not verify or is not the one that was prepared. */
  ghost predicate RefusedBefore(files: Files, key: Key, row: Row, env: Env)
    requires row.identity.Some?
  {
    var identity := row.identity.value;
    || SourceMoved(env.before, identity)
    || (env.before == Sealed(identity) && BundleRefused(files, key, env))
    || (env.before == Sealed(identity) && BundleObtained(files, key, env) && SourceMoved(env.after, identity))
    || (Packs(files, key, identity, env) && !BundleStands(files, key, row, env))
  }

  predicate Dies(w: WriteReply) {
    w.DiedBefore? || w.DiedAfter?
  }

  /** Before its call an attempt dies while it reads the source, verifies or packs the bundle, or stores the
      transfer or the metadata. */
  ghost predicate DiedOnTheWay(files: Files, key: Key, row: Row, env: Env)
    requires row.identity.Some?
  {
    var identity := row.identity.value;
    || env.before.DiedReading?
    || (env.before == Sealed(identity) &&
          if key in files.bundles then env.tool.DiedVerifying? else env.pack.DiedPacking? || env.pack.DiedPacked?)
    || (env.before == Sealed(identity) && BundleObtained(files, key, env) && env.after.DiedReading?)
    || (BundleStands(files, key, row, env) && key !in files.transfers && Dies(env.transferWrite))
    || (BundleStands(files, key, row, env) && (key in files.transfers || env.transferWrite.Written?)
        && Dies(env.metadataWrite))
  }

  /** The attempt stops for good: before its call, or because the call is refused or brings a receipt of
      something else. */
  ghost predicate StopsForGood(files: Files, key: Key, row: Row, env: Env)
    requires row.identity.Some?
  {
    || RefusedBefore(files, key, row, env)
    || (CallMade(files, key, row, env) &&
          (Explains(CallCache(files, key, env), env.hub, Rejected) ||
           exists r :: BadReceipt(CallCache(files, key, env), env.hub, CallManifest(files, key, env), r)))
  }

  /** The attempt is cut short: before its call, in it, or while its receipt is stored. */
  ghost predicate CutShort(files: Files, key: Key, row: Row, env: Env)
    requires row.identity.Some?
  {
    || DiedOnTheWay(files, key, row, env)
    || (CallMade(files, key, row, env) &&
          (Explains(CallCache(files, key, env), env.hub, Died) ||
           (Dies(env.receiptWrite) &&
              exists r :: GoodReceipt(CallCache(files, key, env), env.hub, CallManifest(files, key, env), r))))
  }

  /** The call brings a receipt of this transfer, and it is stored. */
  ghost predicate Delivers(files: Files, key: Key, row: Row, env: Env, receipt: Receipt) {
    && CallMade(files, key, row, env) && env.receiptWrite.Written?
    && GoodReceipt(CallCache(files, key, env), env.hub, CallManifest(files, key, env), receipt)
  }

  /** A request of the call is rejected with this status. */
  ghost predicate Blocks(cache: Cache, hub: Script, status: AuthStatus) {
    exists id, archive :: Explains(cache, hub, AuthBlocked(status, id, archive))
  }

  ghost predicate Blocked(files: Files, key: Key, row: Row, env: Env, status: AuthStatus) {
    CallMade(files, key, row, env) && Blocks(CallCache(files, key, env), env.hub, status)
  }

  /** The receiver says that it is still verifying. */
  ghost predicate StillVerifying(files: Files, key: Key, row: Row, env: Env) {
    CallMade(files, key, row, env) && Explains(CallCache(files, key, env), env.hub, Pending)
  }

  /** Where the attempt stands when it comes to its call. */
  function Prepared(files: Files, config: Config, key: Key, row: Row, env: Env): Trial {
    var b := ObtainBundle(CheckSource(Trial(files, None), row.identity, env.before), key, env);
    var c := CheckSource(b, row.identity, env.after);
    SaveMetadata(SealTransfer(c, key, row.contentId, env), key, config, row.identity, env)
  }

  lemma {:induction false} PackedMeans(files: Files, key: Key, row: Row, env: Env)
    requires row.identity.Some?
    ensures var b := ObtainBundle(CheckSource(Trial(files, None), row.identity, env.before), key, env);
            var c, identity := CheckSource(b, row.identity, env.after), row.identity.value;
            && c.files.caches == files.caches && c.files.transfers == files.transfers
            && (if Packs(files, key, identity, env) then
                  c.verdict.None? && key in c.files.bundles && c.files.bundles[key] == BundleOf(files, key, env)
                else
                  && c.verdict.Some? && BeforeSending(c)
                  && (c.verdict == Some(Refuse) <==>
                        || SourceMoved(env.before, identity)
                        || (env.before == Sealed(identity) && BundleRefused(files, key, env))
                        || (env.before == Sealed(identity) && BundleObtained(files, key, env)
                            && SourceMoved(env.after, identity)))
                  && (c.verdict == Some(Crashed) <==> DiedOnTheWay(files, key, row, env)))
  {
  }

  lemma {:induction false} PreparedMeans(files: Files, config: Config, key: Key, row: Row, env: Env)
    requires row.identity.Some?
    ensures var e := Prepared(files, config, key, row, env);
            if CallMade(files, key, row, env) then
              && e.verdict.None? && key in e.files.bundles && e.files.bundles[key] == BundleOf(files, key, env)
              && e.files.caches == files.caches
              && !RefusedBefore(files, key, row, env) && !DiedOnTheWay(files, key, row, env)
            else
              && e.verdict.Some? && BeforeSending(e)
              && (e.verdict == Some(Refuse) <==> RefusedBefore(files, key, row, env))
              && (e.verdict == Some(Crashed) <==> DiedOnTheWay(files, key, row, env))
  {
    PackedMeans(files, key, row, env);
  }

  /** The outcome of the call, for each way the attempt can look at it. */
  lemma {:induction false} CallMeans(cache: Cache, hub: Script)
    ensures var v := HubProtocol.Deliver(cache, hub).verdict;
            && v.Some?
            && (Explains(cache, hub, Rejected) <==> v.value.Rejected?)
            && (Explains(cache, hub, Pending) <==> v.value.Pending?)
            && (Explains(cache, hub, Died) <==> v.value.Died?)
            && (forall r :: Explains(cache, hub, Terminal(r)) <==> v.value == Terminal(r))
            && (forall status, id, archive ::
                  Explains(cache, hub, AuthBlocked(status, id, archive)) <==>
                  v.value.AuthBlocked? && v.value.httpStatus == status)
  {
    CallExplained(cache, hub);
    var v := HubProtocol.Deliver(cache, hub).verdict.value;
    OutcomeIff(cache, hub, Rejected);
    OutcomeIff(cache, hub, Pending);
    OutcomeIff(cache, hub, Died);
    forall r ensures Explains(cache, hub, Terminal(r)) <==> v == Terminal(r) {
      OutcomeIff(cache, hub, Terminal(r));
    }
    forall status, id, archive
      ensures Explains(cache, hub, AuthBlocked(status, id, archive)) <==> v.AuthBlocked? && v.httpStatus == status
    {
      OutcomeIff(cache, hub, AuthBlocked(status, id, archive));
    }
  }

  lemma {:induction false} SentRefused(e: Trial, key: Key, env: Env)
    requires e.verdict.None? && key in e.files.bundles
    ensures var m := e.files.bundles[key].manifest;
            var cache := CacheOf(e.files, m.digest);
            Send(e, key, env).verdict == Some(Refuse) <==>
                Explains(cache, env.hub, Rejected) || exists r :: BadReceipt(cache, env.hub, m, r)
  {
    var m := e.files.bundles[key].manifest;
    var cache := CacheOf(e.files, m.digest);
    CallMeans(cache, env.hub);
    OneAttempt(cache, env.hub);
    var v := HubProtocol.Deliver(cache, env.hub).verdict.value;
    if v.Terminal? {
      assert GoodReceipt(cache, env.hub, m, v.receipt) <==> MatchingReceipt(v.receipt, m);
      assert BadReceipt(cache, env.hub, m, v.receipt) <==> !MatchingReceipt(v.receipt, m);
    }
  }

  lemma {:induction false} SentDelivered(e: Trial, key: Key, env: Env, r: Receipt)
    requires e.verdict.None? && key in e.files.bundles
    ensures var m := e.files.bundles[key].manifest;
            Send(e, key, env).verdict == Some(Verdict.Deliver(r)) <==>
                GoodReceipt(CacheOf(e.files, m.digest), env.hub, m, r) && env.receiptWrite.Written?
  {
    var cache := CacheOf(e.files, e.files.bundles[key].manifest.digest);
    CallMeans(cache, env.hub);
    OneAttempt(cache, env.hub);
  }

  lemma {:induction false} SentHeld(e: Trial, key: Key, env: Env, status: AuthStatus)
    requires e.verdict.None? && key in e.files.bundles
    ensures var m := e.files.bundles[key].manifest;
            var v := Send(e, key, env).verdict;
            v.Some? && (v.value.Hold? && v.value.context.httpStatus == status <==>
                Blocks(CacheOf(e.files, m.digest), env.hub, status))
  {
    var cache := CacheOf(e.files, e.files.bundles[key].manifest.digest);
    CallMeans(cache, env.hub);
    var v := HubProtocol.Deliver(cache, env.hub).verdict.value;
    if v.AuthBlocked? && v.httpStatus == status {
      assert Explains(cache, env.hub, AuthBlocked(status, v.uploadId, v.archive));
    }
  }

  lemma {:induction false} SentOtherwise(e: Trial, key: Key, env: Env)
    requires e.verdict.None? && key in e.files.bundles
    ensures var m := e.files.bundles[key].manifest;
            var cache, v := CacheOf(e.files, m.digest), Send(e, key, env).verdict;
            && (v == Some(AwaitReceiver) <==> Explains(cache, env.hub, Pending))
            && (v == Some(Crashed) <==>
                  || Explains(cache, env.hub, Died)
                  || (Dies(env.receiptWrite) && exists r :: GoodReceipt(cache, env.hub, m, r)))
            && Send(e, key, env).files.bundles == e.files.bundles
  {
    var m := e.files.bundles[key].manifest;
    var cache := CacheOf(e.files, m.digest);
    CallMeans(cache, env.hub);
    OneAttempt(cache, env.hub);
    var v := HubProtocol.Deliver(cache, env.hub).verdict.value;
    if v.Terminal? {
      assert GoodReceipt(cache, env.hub, m, v.receipt) <==> MatchingReceipt(v.receipt, m);
    }
  }

  /** The row is delivered with this receipt. */
  ghost predicate IsDelivered(next: Option<Row>, receipt: Receipt) {
    && next.Some? && next.value.receipt == Some(receipt)
    && (if receipt.status.Verified? then next.value.status.Verified? else next.value.status.Quarantined?)
  }

  /** The row waits for its next attempt. */
  function Waits(row: Row, now: real): Row {
    row.(attempts := row.attempts + 1, retryAt := now + Delay(row.attempts) as real, authError := false)
  }

  /** What one attempt makes of a waiting row, whatever the files. It is left as it was exactly when the attempt does
      not commit or is cut short. Committed, it becomes an incident exactly when the attempt stops for good; it is
      delivered exactly when the call brings a receipt of its transfer and it is stored; it is held exactly when
      a request of the call is rejected for its credentials; and otherwise it waits, its content known once
      the receiver says that it is verifying. */
  lemma {:induction false} RowOutcomeIff(files: Files, config: Config, key: Key, row: Row, env: Env, now: real)
    requires row.status.Waiting? && row.identity.Some? && row.receipt.None?
    ensures var next := UpdateRow(row, TryRow(files, config, key, row, env), key, env, now);
            && (next.None? <==> !env.commits || CutShort(files, key, row, env))
            && (env.commits ==>
                && (next.Some? && next.value.status.Incident? <==> StopsForGood(files, key, row, env))
                && (forall r :: IsDelivered(next, r) <==> Delivers(files, key, row, env, r))
                && (next.Some? && next.value.status.AuthHeld? <==>
                      exists status :: Blocked(files, key, row, env, status))
                && (StillVerifying(files, key, row, env) ==>
                      next == Some(Waits(row, now).(contentId := Some(CallManifest(files, key, env).contentId))))
                && (next.Some? && next.value.status.Waiting? && !StillVerifying(files, key, row, env) ==>
                      next == Some(Waits(row, now))))
  {
    var t := TryRow(files, config, key, row, env);
    RowMeans(row, t, key, env, now);
    RefusedIff(files, config, key, row, env);
    forall r ensures t.verdict == Some(Verdict.Deliver(r)) <==> Delivers(files, key, row, env, r) {
      DeliveredIff(files, config, key, row, env, r);
    }
    HeldIff(files, config, key, row, env);
    OtherwiseIff(files, config, key, row, env);
  }

  lemma {:induction false} RefusedIff(files: Files, config: Config, key: Key, row: Row, env: Env)
    requires row.identity.Some?
    ensures TryRow(files, config, key, row, env).verdict == Some(Refuse) <==> StopsForGood(files, key, row, env)
  {
    var e := Prepared(files, config, key, row, env);
    PreparedMeans(files, config, key, row, env);
    assert TryRow(files, config, key, row, env) == Send(e, key, env);
    if CallMade(files, key, row, env) {
      SentRefused(e, key, env);
    }
  }

  lemma {:induction false} DeliveredIff(files: Files, config: Config, key: Key, row: Row, env: Env, r: Receipt)
    requires row.identity.Some?
    ensures TryRow(files, config, key, row, env).verdict == Some(Verdict.Deliver(r)) <==>
        Delivers(files, key, row, env, r)
  {
    var e := Prepared(files, config, key, row, env);
    PreparedMeans(files, config, key, row, env);
    assert TryRow(files, config, key, row, env) == Send(e, key, env);
    if CallMade(files, key, row, env) {
      SentDelivered(e, key, env, r);
    }
  }

  lemma {:induction false} HeldIff(files: Files, config: Config, key: Key, row: Row, env: Env)
    requires row.identity.Some?
    ensures TryRow(files, config, key, row, env).verdict.value.Hold? <==>
        exists status :: Blocked(files, key, row, env, status)
  {
    var e := Prepared(files, config, key, row, env);
    PreparedMeans(files, config, key, row, env);
    var v := TryRow(files, config, key, row, env).verdict;
    assert v == Send(e, key, env).verdict;
    if CallMade(files, key, row, env) {
      forall status ensures v.value.Hold? && v.value.context.httpStatus == status <==>
          Blocked(files, key, row, env, status)
      {
        SentHeld(e, key, env, status);
      }
      assert v.value.Hold? ==> Blocked(files, key, row, env, v.value.context.httpStatus);
    }
  }

  lemma {:induction false} OtherwiseIff(files: Files, config: Config, key: Key, row: Row, env: Env)
    requires row.identity.Some?
    ensures var t := TryRow(files, config, key, row, env);
            && (t.verdict == Some(AwaitReceiver) <==> StillVerifying(files, key, row, env))
            && (t.verdict == Some(Crashed) <==> CutShort(files, key, row, env))
            && (StillVerifying(files, key, row, env) ==>
                  key in t.files.bundles && t.files.bundles[key].manifest == CallManifest(files, key, env))
  {
    var e := Prepared(files, config, key, row, env);
    PreparedMeans(files, config, key, row, env);
    assert TryRow(files, config, key, row, env) == Send(e, key, env);
    if CallMade(files, key, row, env) {
      SentOtherwise(e, key, env);
    }
  }

  lemma {:induction false} RowMeans(row: Row, t: Trial, key: Key, env: Env, now: real)
    requires Concluded(t, key) && row.status.Waiting? && row.receipt.None?
    ensures var next := UpdateRow(row, t, key, env, now);
            && (next.None? <==> !env.commits || t.verdict == Some(Crashed))
            && (env.commits ==>
                && (next.Some? && next.value.status.Incident? <==> t.verdict == Some(Refuse))
                && (forall r :: IsDelivered(next, r) <==> t.verdict == Some(Verdict.Deliver(r)))
                && (next.Some? && next.value.status.AuthHeld? <==> t.verdict.value.Hold?)
                && (t.verdict == Some(AwaitReceiver) ==>
                      next == Some(Waits(row, now).(contentId := Some(t.files.bundles[key].manifest.contentId))))
                && (next.Some? && next.value.status.Waiting? && t.verdict != Some(AwaitReceiver) ==>
                      next == Some(Waits(row, now))))
  {
  }

  // ---- Cases ----

  ghost predicate BecomesIncident(files: Files, config: Config, key: Key, row: Row, env: Env, now: real) {
    var next := UpdateRow(row, TryRow(files, config, key, row, env), key, env, now);
    next.Some? && next.value.status.Incident?
  }

  /** The answer to the intent names an upload and is recorded. */
  predicate IntentTaken(env: Env, r: Response) {
    env.hub.intent == Replied(r) && r.uploadId.Some? && ValidId(r.uploadId.value) && env.hub.intentWrite.Written?
  }

  /** The first call of a row makes it an incident when the intent is refused, is answered transfer_failed,
      brings a terminal receipt of another transfer, or asks for an upload that is not allowed or is refused. */
  lemma {:induction false} FirstCallIncidents(files: Files, config: Config, key: Key, row: Row, env: Env, now: real,
      r: Response)
    requires row.status.Waiting? && row.receipt.None? && env.commits && CallMade(files, key, row, env)
    requires CallCache(files, key, env).sidecar.None? && ArchiveReady(CallCache(files, key, env), env.hub)
    ensures env.hub.intent.Refused? ==> BecomesIncident(files, config, key, row, env, now)
    ensures IntentTaken(env, r) && r.status.TransferFailed? ==> BecomesIncident(files, config, key, row, env, now)
    ensures IntentTaken(env, r) && r.status.AwaitingUpload? && (!r.putAllowed || env.hub.put.PutRefused?) ==>
              BecomesIncident(files, config, key, row, env, now)
    ensures IntentTaken(env, r) && r.status.Verified? && r.receipt.Some? && r.receipt.value.status.Verified?
            && r.receipt.value.contentId != CallManifest(files, key, env).contentId ==>
              BecomesIncident(files, config, key, row, env, now)
  {
    var cache, hub, m := CallCache(files, key, env), env.hub, CallManifest(files, key, env);
    RowOutcomeIff(files, config, key, row, env, now);
    assert Asked(cache, hub, Intending);
    assert hub.intent.Refused? ==> Reason(cache, hub, Answering(Intending), Rejected);
    if IntentTaken(env, r) {
      assert Accepted(cache, hub, Intending);
      assert r.status.TransferFailed? ==> Reason(cache, hub, Answering(Intending), Rejected);
      assert r.status.AwaitingUpload? && !r.putAllowed ==> Reason(cache, hub, Targeting, Rejected);
      assert r.status.AwaitingUpload? && r.putAllowed && hub.put.PutRefused? ==> Reason(cache, hub, Sending, Rejected);
      if r.status.Verified? && r.receipt.Some? && r.receipt.value.status.Verified? {
        assert Reason(cache, hub, Answering(Intending), Terminal(r.receipt.value));
        assert r.receipt.value.contentId != m.contentId ==> BadReceipt(cache, hub, m, r.receipt.value);
      }
    }
  }

  predicate AnotherUpload(reply: HubReply, id: UploadId) {
    reply.Replied? && reply.response.uploadId.Some? && reply.response.uploadId.value != id
  }

  /** A later call makes it an incident when the answer to the poll or to the intent is about another upload
      than the one on disk. */
  lemma {:induction false} ChangedUploadIncident(files: Files, config: Config, key: Key, row: Row, env: Env, now: real)
    requires FilesSound(files) && row.status.Waiting? && row.receipt.None? && env.commits
    requires CallMade(files, key, row, env) && CallCache(files, key, env).sidecar.Some?
    requires var cache := CallCache(files, key, env);
             || AnotherUpload(env.hub.poll, cache.sidecar.value.uploadId)
             || (IntentAsked(cache, env.hub) && AnotherUpload(env.hub.intent, cache.sidecar.value.uploadId))
    ensures BecomesIncident(files, config, key, row, env, now)
  {
    var cache, hub := CallCache(files, key, env), env.hub;
    RowOutcomeIff(files, config, key, row, env, now);
    assert SidecarNamed(cache);
    assert Asked(cache, hub, Polling);
    if !RefusedOrUnsound(cache, hub, Polling) {
      assert Reason(cache, hub, Answering(Intending), Rejected);
    } else {
      assert Reason(cache, hub, Answering(Polling), Rejected);
    }
  }
}
