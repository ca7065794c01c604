/** Runs of the outbox: enrolment, drains that may crash anywhere, and credential recovery. */
module DeliveryRuns {
  import opened Prelude
  import opened HubProtocol
  import opened DeliveryRows

  datatype Outbox = Outbox(files: Files, rows: map<Key, Row>)

  predicate Terminated(row: Row) {
    row.status.Verified? || row.status.Quarantined?
  }

  /** What a row says agrees with the files. */
  ghost predicate RowSound(files: Files, key: Key, row: Row) {
    && (row.contentId.Some? ==> key in files.transfers && files.transfers[key].contentId == row.contentId.value)
    && (row.receipt.Some? <==> Terminated(row))
    && (row.receipt.Some? ==>
          && row.contentId.Some? && MatchingReceipt(row.receipt.value, files.transfers[key])
          && (row.receipt.value.status.Verified? <==> row.status.Verified?)
          && key in files.receipts && files.receipts[key] == row.receipt.value)
    && (row.status.AuthHeld? ==> row.authError && row.authContext.Some? && row.contentId.Some?)
    && (row.identity.None? ==> row.status.Incident?)
  }

  ghost predicate Sound(o: Outbox) {
    FilesSound(o.files) && forall k :: k in o.rows ==> RowSound(o.files, k, o.rows[k])
  }

  // ---- One attempt ----

  /** What the verdict of an attempt guarantees about the files. */
  ghost predicate VerdictSound(before: Files, config: Config, t: Trial, key: Key, row: Row) {
    && t.verdict.Some?
    && (t.verdict.value.AwaitReceiver? || t.verdict.value.Hold? || t.verdict.value.Deliver? ==>
          TransferSealed(t.files, key, row.contentId))
    && (t.verdict.value.Deliver? ==>
          && key in t.files.receipts && t.files.receipts[key] == t.verdict.value.receipt
          && MatchingReceipt(t.verdict.value.receipt, t.files.transfers[key])
          && UploadRecorded(CacheOf(t.files, t.files.transfers[key].digest)))
    && (t.verdict.value.Hold? ==>
          && t.files.receipts == before.receipts
          && HoldNamesDisk(t.files, t.files.transfers[key], t.verdict.value.context))
    && ((t.verdict.value.Hold? || t.verdict.value.Deliver?) && row.identity.Some? ==>
          key in t.files.metadata && t.files.metadata[key] == Metadata(config.outbox, row.identity.value, config.tool))
  }

  /** A verdict reached before anything was sent. */
  predicate BeforeSending(t: Trial) {
    t.verdict.Some? ==> t.verdict.value.Retry? || t.verdict.value.Refuse? || t.verdict.value.Crashed?
  }

  lemma {:induction false} PackedSound(files: Files, key: Key, row: Row, env: Env)
    ensures var b := ObtainBundle(CheckSource(Trial(files, None), row.identity, env.before), key, env);
            var c := CheckSource(b, row.identity, env.after);
            && FilesExtend(files, c.files, key) && (FilesSound(files) ==> FilesSound(c.files))
            && c.files.receipts == files.receipts && BeforeSending(c) && (c.verdict.None? ==> key in c.files.bundles)
  {
    var a := CheckSource(Trial(files, None), row.identity, env.before);
    assert a.files == files;
    ObtainBundleStage(a, key, env);
  }

  lemma {:induction false} SealedSound(c: Trial, key: Key, config: Config, row: Row, env: Env)
    requires BeforeSending(c) && (c.verdict.None? ==> key in c.files.bundles)
    ensures var e := SaveMetadata(SealTransfer(c, key, row.contentId, env), key, config, row.identity, env);
            && FilesExtend(c.files, e.files, key) && (FilesSound(c.files) ==> FilesSound(e.files))
            && e.files.receipts == c.files.receipts && BeforeSending(e)
            && (e.verdict.None? ==>
                  && TransferSealed(e.files, key, row.contentId)
                  && (row.identity.Some? ==>
                        key in e.files.metadata
                            && e.files.metadata[key] == Metadata(config.outbox, row.identity.value, config.tool)))
  {
    var d := SealTransfer(c, key, row.contentId, env);
    SealTransferStage(c, key, row.contentId, env);
    SaveMetadataStage(d, key, config, row.identity, env);
    ExtendTransitive(c.files, d.files, SaveMetadata(d, key, config, row.identity, env).files, key);
  }

  lemma {:induction false} AttemptSound(files: Files, config: Config, key: Key, row: Row, env: Env)
    ensures var t := TryRow(files, config, key, row, env);
            && FilesExtend(files, t.files, key) && (FilesSound(files) ==> FilesSound(t.files))
            && VerdictSound(files, config, t, key, row)
  {
    var b := ObtainBundle(CheckSource(Trial(files, None), row.identity, env.before), key, env);
    var c := CheckSource(b, row.identity, env.after);
    PackedSound(files, key, row, env);
    SealedSound(c, key, config, row, env);
    var e := SaveMetadata(SealTransfer(c, key, row.contentId, env), key, config, row.identity, env);
    ExtendTransitive(files, c.files, e.files, key);
    FinishSound(files, config, e, key, row, env);
  }

  lemma {:induction false} FinishSound(files: Files, config: Config, e: Trial, key: Key, row: Row, env: Env)
    requires FilesExtend(files, e.files, key) && (FilesSound(files) ==> FilesSound(e.files))
    requires e.verdict.None? ==>
               && TransferSealed(e.files, key, row.contentId) && e.files.receipts == files.receipts
               && (row.identity.Some? ==>
                     key in e.files.metadata
                         && e.files.metadata[key] == Metadata(config.outbox, row.identity.value, config.tool))
    requires BeforeSending(e)
    ensures var t := Send(e, key, env);
            && FilesExtend(files, t.files, key) && (FilesSound(files) ==> FilesSound(t.files))
            && VerdictSound(files, config, t, key, row)
  {
    if e.verdict.None? {
      SendStage(e, key, env);
      ExtendTransitive(files, e.files, Send(e, key, env).files, key);
    }
  }

  /** The relation between a row and its update by one attempt. */
  ghost predicate RowAdvances(row: Row, next: Row, now: real) {
    && next.identity == row.identity
    && next.attempts == row.attempts + 1
    && (row.contentId.Some? ==> next.contentId == row.contentId)
    && (next.status.Waiting? ==> next.retryAt == now + Delay(row.attempts) as real)
  }

  lemma {:induction false} UpdateSound(before: Files, config: Config, t: Trial, key: Key, row: Row, env: Env, now: real)
    requires VerdictSound(before, config, t, key, row) && Concluded(t, key)
    requires FilesExtend(before, t.files, key) && RowSound(before, key, row) && row.status.Waiting?
    ensures var next := UpdateRow(row, t, key, env, now);
            next.Some? ==> RowSound(t.files, key, next.value) && RowAdvances(row, next.value, now)
  {
  }

  lemma OtherRowsSound(before: Files, after: Files, key: Key, other: Key, row: Row)
    requires FilesExtend(before, after, key) && other != key && RowSound(before, other, row)
    ensures RowSound(after, other, row)
  {
  }

  // ---- What becomes an incident ----

  predicate SourceMoved(reply: SourceReply, identity: SourceIdentity) {
    reply.SourceInvalid? || (reply.Sealed? && reply.identity != identity)
  }

  function AsIncident(row: Row): Row {
    row.(status := Incident, attempts := row.attempts + 1, authError := false)
  }

  /** A source that is not what was enrolled stops the row for good, before anything is written. */
  lemma {:induction false} MovedSourceIsIncident(files: Files, config: Config, key: Key, row: Row, env: Env, now: real)
    requires row.identity.Some? && SourceMoved(env.before, row.identity.value)
    ensures var t := TryRow(files, config, key, row, env);
            && t.files == files
            && (env.commits ==>
                  UpdateRow(row, t, key, env, now) == Some(AsIncident(row)))
  {
    assert CheckSource(Trial(files, None), row.identity, env.before) == Trial(files, Some(Refuse));
  }

  /** The bundle is there, or is packed now. */
  predicate BundleObtained(files: Files, key: Key, env: Env) {
    if key in files.bundles then env.tool.ToolOk? else env.pack.Packed?
  }

  /** A source that has moved by the time the bundle is there also ends in an incident: the bundle
      stays, but nothing is sealed, sent or received. */
  lemma {:induction false} SourceMovedWhilePacking(files: Files, config: Config, key: Key, row: Row, env: Env,
      now: real)
    requires row.identity.Some? && env.before == Sealed(row.identity.value)
    requires BundleObtained(files, key, env) && SourceMoved(env.after, row.identity.value)
    ensures var t := TryRow(files, config, key, row, env);
            && key in t.files.bundles && (forall k :: k in files.bundles ==> t.files.bundles[k] == files.bundles[k])
            && t.files.transfers == files.transfers && t.files.metadata == files.metadata
            && t.files.caches == files.caches && t.files.receipts == files.receipts
            && (env.commits ==> UpdateRow(row, t, key, env, now) == Some(AsIncident(row)))
  {
    var b := ObtainBundle(Trial(files, None), key, env);
    assert CheckSource(Trial(files, None), row.identity, env.before) == Trial(files, None);
    assert b.verdict.None? && CheckSource(b, row.identity, env.after) == End(b, Refuse);
  }

  /** The bundle an attempt works on, if it gets one. */
  function BundleAt(files: Files, key: Key, pack: PackReply): Option<Bundle> {
    if key in files.bundles then Some(files.bundles[key])
    else if pack.Packed? then Some(pack.bundle)
    else None
  }

  predicate SourceTolerable(reply: SourceReply, identity: SourceIdentity) {
    reply.SourceUnavailable? || reply.DiedReading? || reply == Sealed(identity)
  }

  /** Terminal receipts among the answers are about this manifest. */
  ghost predicate ReceiptsMatch(hub: Script, m: Manifest) {
    forall r :: Answers(hub, r) && (r.status.Verified? || r.status.Quarantined?) ==> MatchingReceipt(r, m)
  }

  /** Every answer of the attempt is sound or a transient failure. */
  ghost predicate Tolerable(files: Files, key: Key, identity: SourceIdentity, env: Env) {
    && SourceTolerable(env.before, identity) && SourceTolerable(env.after, identity)
    && !env.tool.ToolRefused? && !env.pack.PackRefused?
    && (BundleAt(files, key, env.pack).Some? ==>
          var bundle := BundleAt(files, key, env.pack).value;
          && bundle.valid && SoundReceiver(CacheOf(files, bundle.manifest.digest), env.hub)
          && ReceiptsMatch(env.hub, bundle.manifest))
  }

  /** A sound receiver makes the transport's outcome acceptable. */
  lemma {:induction false} SoundReceiverAccepted(files: Files, m: Manifest, hub: Script)
    requires FilesSound(files) && SoundReceiver(CacheOf(files, m.digest), hub) && ReceiptsMatch(hub, m)
    ensures var a := HubProtocol.Deliver(CacheOf(files, m.digest), hub);
            a.verdict.Some? && Judge(a.verdict.value, m) != Refuse
  {
    var cache := CacheOf(files, m.digest);
    OneAttempt(cache, hub);
    SoundReceiverNotRefused(cache, hub);
  }

  lemma SealTolerable(c: Trial, key: Key, known: Option<string>, env: Env)
    requires FilesSound(c.files) && (c.verdict.None? ==> key in c.files.bundles && c.files.bundles[key].valid)
    requires c.verdict != Some(Refuse)
    requires known.Some? ==> key in c.files.transfers && c.files.transfers[key].contentId == known.value
    ensures var d := SealTransfer(c, key, known, env);
            d.verdict != Some(Refuse) && d.files.bundles == c.files.bundles && d.files.caches == c.files.caches
  {
  }

  lemma SendTolerable(e: Trial, key: Key, env: Env)
    requires e.verdict.None? ==> key in e.files.bundles
    requires e.verdict != Some(Refuse)
    requires e.verdict.None? ==>
               var m := e.files.bundles[key].manifest;
               var a := HubProtocol.Deliver(CacheOf(e.files, m.digest), env.hub);
               a.verdict.Some? && Judge(a.verdict.value, m) != Refuse
    ensures Send(e, key, env).verdict != Some(Refuse)
  {
  }

  lemma ObtainTolerable(files: Files, key: Key, row: Row, env: Env)
    requires row.identity.Some? && Tolerable(files, key, row.identity.value, env)
    ensures var b := ObtainBundle(CheckSource(Trial(files, None), row.identity, env.before), key, env);
            var c := CheckSource(b, row.identity, env.after);
            && c.verdict != Some(Refuse) && c.files.transfers == files.transfers && c.files.caches == files.caches
            && (c.verdict.None? ==>
                key in c.files.bundles && BundleAt(files, key, env.pack) == Some(c.files.bundles[key]))
  {
  }

  lemma SaveTolerable(d: Trial, key: Key, config: Config, identity: Option<SourceIdentity>, env: Env)
    requires d.verdict != Some(Refuse)
    ensures var e := SaveMetadata(d, key, config, identity, env);
            e.verdict != Some(Refuse) && e.files.bundles == d.files.bundles && e.files.caches == d.files.caches
            && (e.verdict.None? ==> d.verdict.None?)
  {
  }

  lemma {:induction false} FinishTolerable(c: Trial, config: Config, key: Key, row: Row, env: Env)
    requires FilesSound(c.files) && BeforeSending(c) && c.verdict != Some(Refuse)
    requires row.contentId.Some? ==> key in c.files.transfers && c.files.transfers[key].contentId == row.contentId.value
    requires c.verdict.None? ==>
               && key in c.files.bundles && c.files.bundles[key].valid
               && SoundReceiver(CacheOf(c.files, c.files.bundles[key].manifest.digest), env.hub)
               && ReceiptsMatch(env.hub, c.files.bundles[key].manifest)
    ensures var e := SaveMetadata(SealTransfer(c, key, row.contentId, env), key, config, row.identity, env);
            (e.verdict.None? ==> key in e.files.bundles) && Send(e, key, env).verdict != Some(Refuse)
  {
    var d := SealTransfer(c, key, row.contentId, env);
    SealTolerable(c, key, row.contentId, env);
    SaveTolerable(d, key, config, row.identity, env);
    SealedSound(c, key, config, row, env);
    if c.verdict.None? {
      SoundReceiverAccepted(c.files, c.files.bundles[key].manifest, env.hub);
    }
    SendTolerable(SaveMetadata(d, key, config, row.identity, env), key, env);
  }

  /** Transient failures make no incident: the attempt of a row whose source, bundle and receiver are
      sound leaves it waiting, held or delivered. */
  lemma {:induction false} TransientNeverIncident(files: Files, config: Config, key: Key, row: Row, env: Env, now: real)
    requires FilesSound(files) && RowSound(files, key, row) && row.status.Waiting? && row.identity.Some?
    requires Tolerable(files, key, row.identity.value, env)
    ensures var t := TryRow(files, config, key, row, env);
            && t.verdict != Some(Refuse)
            && (UpdateRow(row, t, key, env, now).Some? ==> !UpdateRow(row, t, key, env, now).value.status.Incident?)
  {
    var b := ObtainBundle(CheckSource(Trial(files, None), row.identity, env.before), key, env);
    var c := CheckSource(b, row.identity, env.after);
    PackedSound(files, key, row, env);
    ObtainTolerable(files, key, row, env);
    FinishTolerable(c, config, key, row, env);
    assert TryRow(files, config, key, row, env).verdict != Some(Refuse);
  }

  /** Nothing fails and nothing dies during the attempt. */
  predicate PromptEnv(files: Files, key: Key, env: Env) {
    && env.before.Sealed? && BundleObtained(files, key, env) && env.after.Sealed?
    && env.transferWrite.Written? && env.metadataWrite.Written? && env.receiptWrite.Written?
    && Prompt(env.hub) && env.commits
  }

  /** A verdict that advances the row, and the answer it rests on. */
  predicate Advances(verdict: Verdict, hub: Script) {
    match verdict
    case Deliver(receipt) => true
    case AwaitReceiver => SomeStatus(hub, VerificationPending)
    case Hold(context) => SomeReply(hub, AuthRejected(context.httpStatus))
    case _ => false
  }

  lemma {:induction false} PromptJudged(files: Files, m: Manifest, hub: Script)
    requires FilesSound(files) && SoundReceiver(CacheOf(files, m.digest), hub) && ReceiptsMatch(hub, m) && Prompt(hub)
    ensures var a := HubProtocol.Deliver(CacheOf(files, m.digest), hub);
            a.verdict.Some? && Advances(Judge(a.verdict.value, m), hub)
  {
    var cache := CacheOf(files, m.digest);
    PromptCallEnds(cache, hub);
    SoundReceiverAccepted(files, m, hub);
  }

  /** Before the call nothing stands in the way of a sound row. */
  lemma {:induction false} PromptPrepared(files: Files, config: Config, key: Key, row: Row, env: Env)
    requires FilesSound(files) && RowSound(files, key, row) && row.status.Waiting?
    requires Tolerable(files, key, row.identity.value, env) && PromptEnv(files, key, env)
    ensures var b := ObtainBundle(CheckSource(Trial(files, None), row.identity, env.before), key, env);
            var c := CheckSource(b, row.identity, env.after);
            var e := SaveMetadata(SealTransfer(c, key, row.contentId, env), key, config, row.identity, env);
            && e.verdict.None? && key in e.files.bundles && e.files.caches == files.caches
            && BundleAt(files, key, env.pack) == Some(e.files.bundles[key])
  {
    var b := ObtainBundle(CheckSource(Trial(files, None), row.identity, env.before), key, env);
    var c := CheckSource(b, row.identity, env.after);
    assert c == b && b.verdict.None? && b.files.transfers == files.transfers && b.files.caches == files.caches;
    assert BundleAt(files, key, env.pack) == Some(b.files.bundles[key]);
    PackedSound(files, key, row, env);
    assert SealTransfer(c, key, row.contentId, env).verdict.None?;
  }

  lemma UpdateAdvances(row: Row, t: Trial, key: Key, env: Env, now: real)
    requires Concluded(t, key) && Advances(t.verdict.value, env.hub) && env.commits && row.status.Waiting?
    ensures var next := UpdateRow(row, t, key, env, now);
            && next.Some?
            && (Terminated(next.value) <==> t.verdict.value.Deliver?)
            && (next.value.status.Waiting? <==> t.verdict.value.AwaitReceiver?)
            && (next.value.status.AuthHeld? <==> t.verdict.value.Hold?)
  {
  }

  /** The positive side: when nothing fails and source, bundle and receiver are sound, the attempt of a
      waiting row delivers it, waits because the receiver said so, or holds it because the credentials
      were rejected. */
  lemma {:induction false} PromptAttemptAdvances(files: Files, config: Config, key: Key, row: Row, env: Env, now: real)
    requires FilesSound(files) && RowSound(files, key, row) && row.status.Waiting?
    requires Tolerable(files, key, row.identity.value, env) && PromptEnv(files, key, env)
    ensures var t := TryRow(files, config, key, row, env);
            var next := UpdateRow(row, t, key, env, now);
            && Advances(t.verdict.value, env.hub) && next.Some?
            && (Terminated(next.value) <==> t.verdict.value.Deliver?)
            && (next.value.status.Waiting? <==> t.verdict.value.AwaitReceiver?)
            && (next.value.status.AuthHeld? <==> t.verdict.value.Hold?)
  {
    var b := ObtainBundle(CheckSource(Trial(files, None), row.identity, env.before), key, env);
    var c := CheckSource(b, row.identity, env.after);
    var e := SaveMetadata(SealTransfer(c, key, row.contentId, env), key, config, row.identity, env);
    PromptPrepared(files, config, key, row, env);
    var m := e.files.bundles[key].manifest;
    PromptJudged(files, m, env.hub);
    assert CacheOf(e.files, m.digest) == CacheOf(files, m.digest);
    var t := Send(e, key, env);
    assert Advances(t.verdict.value, env.hub);
    UpdateAdvances(row, t, key, env, now);
  }

  // ---- One drain ----

  ghost function DueKeys(o: Outbox, now: real): set<Key> {
    set k | k in o.rows && o.rows[k].status.Waiting? && o.rows[k].retryAt <= now
  }

  lemma {:induction false} LeastExists(keys: set<Key>)
    requires keys != {}
    ensures exists k :: k in keys && forall j :: j in keys ==> k <= j
  {
    var k :| k in keys;
    var rest := keys - {k};
    if rest == {} {
      assert keys == {k} + rest;
    } else {
      LeastExists(rest);
      var m :| m in rest && forall j :: j in rest ==> m <= j;
      var least := if k <= m then k else m;
      assert least in keys && forall j :: j in keys ==> least <= j by {
        assert forall j :: j in keys ==> j == k || j in rest;
      }
    }
  }

  /** `ORDER BY id LIMIT 1`. */
  ghost function Least(keys: set<Key>): (k: Key)
    requires keys != {}
    ensures k in keys && forall j :: j in keys ==> k <= j
  {
    LeastExists(keys);
    var k :| k in keys && forall j :: j in keys ==> k <= j;
    k
  }

  /** drain_one: at most one row is tried, and a crash rolls it back. */
  ghost function DrainOne(o: Outbox, config: Config, now: real, env: Env): (Outbox, Option<Key>) {
    var due := DueKeys(o, now);
    if due == {} then (o, None)
    else
      var key := Least(due);
      var t := TryRow(o.files, config, key, o.rows[key], env);
      var next := UpdateRow(o.rows[key], t, key, env, now);
      (Outbox(t.files, if next.Some? then o.rows[key := next.value] else o.rows), Some(key))
  }

  /** The attempt reached its commit. */
  ghost predicate Commits(o: Outbox, config: Config, now: real, env: Env) {
    DueKeys(o, now) == {} ||
    (var key := Least(DueKeys(o, now));
     env.commits && TryRow(o.files, config, key, o.rows[key], env).verdict != Some(Crashed))
  }

  /** A terminal or incident row is never touched again; a held row only by recovery;
      a content id, once known, stays. */
  ghost predicate RowKept(before: Row, after: Row) {
    && (before.contentId.Some? ==> after.contentId == before.contentId)
    && (Terminated(before) || before.status.Incident? ==> after == before)
    && after.identity == before.identity
  }

  ghost predicate RowsKept(before: Outbox, after: Outbox) {
    forall k :: k in before.rows ==> k in after.rows && RowKept(before.rows[k], after.rows[k])
  }

  ghost predicate HeldKept(before: Outbox, after: Outbox) {
    forall k :: k in before.rows && before.rows[k].status.AuthHeld? ==>
        k in after.rows && after.rows[k] == before.rows[k]
  }

  lemma {:induction false} DrainSound(o: Outbox, config: Config, now: real, env: Env)
    requires Sound(o)
    ensures var next := DrainOne(o, config, now, env).0; Sound(next) && RowsKept(o, next) && HeldKept(o, next)
  {
    var due := DueKeys(o, now);
    if due != {} {
      var key := Least(due);
      var row := o.rows[key];
      var t := TryRow(o.files, config, key, row, env);
      AttemptSound(o.files, config, key, row, env);
      UpdateSound(o.files, config, t, key, row, env, now);
      var next := DrainOne(o, config, now, env).0;
      forall k | k in next.rows ensures RowSound(next.files, k, next.rows[k]) {
        if k != key {
          OtherRowsSound(o.files, t.files, key, k, o.rows[k]);
        } else if UpdateRow(row, t, key, env, now).None? {
          RolledBackSound(o.files, t.files, key, row);
        }
      }
    }
  }

  /** A waiting row that was rolled back is still right about the files that stayed. */
  lemma RolledBackSound(before: Files, after: Files, key: Key, row: Row)
    requires FilesExtend(before, after, key) && RowSound(before, key, row) && row.status.Waiting?
    ensures RowSound(after, key, row)
  {
  }

  /** A committed attempt takes exactly the least due key out of the due set. */
  lemma {:induction false} DrainProgress(o: Outbox, config: Config, now: real, env: Env)
    requires Sound(o) && DueKeys(o, now) != {} && Commits(o, config, now, env)
    ensures var (next, tried) := DrainOne(o, config, now, env);
            tried == Some(Least(DueKeys(o, now))) && DueKeys(next, now) == DueKeys(o, now) - {Least(DueKeys(o, now))}
  {
    var key := Least(DueKeys(o, now));
    var row := o.rows[key];
    var t := TryRow(o.files, config, key, row, env);
    AttemptSound(o.files, config, key, row, env);
    UpdateSound(o.files, config, t, key, row, env, now);
    DelayBounds(row.attempts, row.attempts);
    var next := UpdateRow(row, t, key, env, now);
    assert next.Some?;
    assert next.value.status.Waiting? ==> next.value.retryAt > now;
  }

  lemma {:induction false} Pow2Grows(m: nat, n: nat)
    requires m <= n
    ensures 1 <= Pow2(m) <= Pow2(n)
    decreases n
  {
    if m < n {
      Pow2Grows(m, n - 1);
    } else if n > 0 {
      Pow2Grows(m - 1, n - 1);
    }
  }

  /** Retry delays never shrink and stay between 2 and 2048 seconds. */
  lemma {:induction false} DelayBounds(attempts: nat, later: nat)
    requires attempts <= later
    ensures 2 <= Delay(attempts) <= Delay(later) <= 2048
  {
    var i, j := if attempts + 1 < 11 then attempts + 1 else 11, if later + 1 < 11 then later + 1 else 11;
    Pow2Grows(1, i);
    Pow2Grows(i, j);
    Pow2Grows(j, 11);
    assert Pow2(11) == 2 * Pow2(10) == 4 * Pow2(9) == 8 * Pow2(8) == 16 * Pow2(7);
    assert Pow2(7) == 2 * Pow2(6) == 4 * Pow2(5) == 8 * Pow2(4) == 16 * Pow2(3);
  }

  /** The first retry comes after 2 seconds, and each further delay is twice the one before, until 2048. */
  lemma {:induction false} DelayDoubles(attempts: nat)
    ensures Delay(0) == 2
    ensures Delay(attempts + 1) == if Delay(attempts) < 2048 then 2 * Delay(attempts) else 2048
  {
    assert Pow2(11) == 2 * Pow2(10) == 4 * Pow2(9) == 8 * Pow2(8) == 16 * Pow2(7);
    assert Pow2(7) == 2 * Pow2(6) == 4 * Pow2(5) == 8 * Pow2(4) == 16 * Pow2(3);
    if attempts + 1 < 11 {
      Pow2Grows(attempts + 1, 10);
    }
  }

  // ---- Draining ----

  /** One round of the drain loop: the clock and everything the outside answers. */
  datatype Turn = Turn(now: real, env: Env)

  /** Drains until nothing is due, the rounds run out or the process dies; the keys processed, in order. */
  ghost function DrainAll(o: Outbox, config: Config, turns: seq<Turn>): (Outbox, seq<Key>)
    decreases |turns|
  {
    if turns == [] || DueKeys(o, turns[0].now) == {} then (o, [])
    else
      var (next, tried) := DrainOne(o, config, turns[0].now, turns[0].env);
      if !Commits(o, config, turns[0].now, turns[0].env) then (next, [])
      else
        var (last, rest) := DrainAll(next, config, turns[1..]);
        (last, [tried.value] + rest)
  }

  ghost predicate AllCommit(o: Outbox, config: Config, turns: seq<Turn>)
    decreases |turns|
  {
    turns == [] || DueKeys(o, turns[0].now) == {} ||
    (Commits(o, config, turns[0].now, turns[0].env) &&
     AllCommit(DrainOne(o, config, turns[0].now, turns[0].env).0, config, turns[1..]))
  }

  /** `tried` lists exactly these keys, each once, in id order. */
  ghost predicate InOrder(tried: seq<Key>, keys: set<Key>) {
    && |tried| == |keys|
    && (forall i :: 0 <= i < |tried| ==> tried[i] in keys)
    && (forall k :: k in keys ==> k in tried)
    && (forall i, j :: 0 <= i < j < |tried| ==> tried[i] < tried[j])
  }

  lemma {:induction false} LeastFirst(keys: set<Key>, rest: seq<Key>)
    requires keys != {} && InOrder(rest, keys - {Least(keys)})
    ensures InOrder([Least(keys)] + rest, keys)
  {
    var tried := [Least(keys)] + rest;
    forall k | k in keys ensures k in tried {
      if k != Least(keys) {
        assert k in rest;
      }
    }
    forall i, j | 0 <= i < j < |tried| ensures tried[i] < tried[j] {
      assert tried[j] == rest[j - 1] && rest[j - 1] in keys - {Least(keys)};
      assert i > 0 ==> tried[i] == rest[i - 1];
    }
  }

  /** At a fixed time and with no crash, each due row is tried exactly once, in id order, and nothing else is. */
  lemma {:induction false} DrainTriesEachOnce(o: Outbox, config: Config, now: real, turns: seq<Turn>)
    requires Sound(o) && AllCommit(o, config, turns) && |DueKeys(o, now)| <= |turns|
    requires forall i :: 0 <= i < |turns| ==> turns[i].now == now
    ensures var (last, tried) := DrainAll(o, config, turns);
            DueKeys(last, now) == {} && InOrder(tried, DueKeys(o, now))
    decreases |turns|
  {
    var due := DueKeys(o, now);
    if due != {} {
      var env := turns[0].env;
      var next := DrainOne(o, config, now, env).0;
      DrainSound(o, config, now, env);
      DrainProgress(o, config, now, env);
      DrainTriesEachOnce(next, config, now, turns[1..]);
      LeastFirst(due, DrainAll(next, config, turns[1..]).1);
    }
  }
}
