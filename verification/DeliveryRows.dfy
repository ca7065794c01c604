/** One delivery attempt of the outbox: durable files on one side, the SQLite row on the other.

    A crash keeps every file written so far and rolls the row back. */
module DeliveryRows {
  import opened Prelude
  import opened HubProtocol

  type Key = nat  // the row id, a fixed-length digest, in its sort order

  datatype SourceIdentity = SourceIdentity(sessionId: string, timelineId: string, manifest: string, close: string,
      rawFiles: string)

  /** A directory transfer manifest; `digest` is its manifest_sha256. */
  datatype Manifest = Manifest(contentId: string, files: string, digest: string)

  /** A packed bundle as the verifier reads it; `valid` says that it verifies and can be listed. */
  datatype Bundle = Bundle(manifest: Manifest, sessionId: string, rawFiles: string, valid: bool)

  datatype Metadata = Metadata(config: string, source: SourceIdentity, tool: string)

  datatype Files = Files(
    bundles: map<Key, Bundle>, transfers: map<Key, Manifest>, metadata: map<Key, Metadata>,
    receipts: map<Key, Receipt>, caches: map<string, Cache>)

  datatype RowStatus = Waiting | Verified | Quarantined | Incident | AuthHeld

  datatype AuthContext = AuthContext(
    httpStatus: AuthStatus, contentId: string, manifestDigest: string, uploadId: Option<UploadId>, archive: Archive)

  datatype Row = Row(
    identity: Option<SourceIdentity>, status: RowStatus, attempts: nat, retryAt: real, contentId: Option<string>,
    authError: bool, receipt: Option<Receipt>, authContext: Option<AuthContext>)

  /** worker, campaign and attestation of the outbox; the release of the collection tool. */
  datatype Config = Config(outbox: string, tool: string)

  datatype SourceReply = Sealed(identity: SourceIdentity) | SourceInvalid | SourceUnavailable | DiedReading

  datatype ToolReply = ToolOk | ToolRefused | ToolUnavailable | DiedVerifying

  datatype PackReply = Packed(bundle: Bundle) | PackRefused | PackUnavailable | DiedPacking | DiedPacked(bundle: Bundle)

  /** Everything the outside answers during one attempt. `commits` is false when the process
      dies before the SQLite transaction commits. */
  datatype Env = Env(
    before: SourceReply, tool: ToolReply, pack: PackReply, after: SourceReply, transferWrite: WriteReply,
    metadataWrite: WriteReply, hub: Script, receiptWrite: WriteReply, commits: bool)

  datatype Verdict =
    | Crashed
    | Retry                        // OSError or TimeoutError
    | Refuse                       // ValueError or RuntimeError
    | AwaitReceiver                // ReceiverVerificationPending
    | Hold(context: AuthContext)   // AuthenticationBlocked
    | Deliver(receipt: Receipt)

  datatype Trial = Trial(files: Files, verdict: Option<Verdict>)

  function End(t: Trial, verdict: Verdict): Trial {
    t.(verdict := Some(verdict))
  }

  const RECEIPT_SCHEMA := "stpd/receive-receipt-v1"

  // ---- The stages of drain_one ----

  /** The sealed source must still have its enrolled identity. */
  function CheckSource(t: Trial, enrolled: Option<SourceIdentity>, reply: SourceReply): Trial {
    if t.verdict.Some? then t
    else match reply
      case Sealed(identity) => if Some(identity) == enrolled then t else End(t, Refuse)
      case SourceInvalid => End(t, Refuse)
      case SourceUnavailable => End(t, Retry)
      case DiedReading => End(t, Crashed)
  }

  /** Pack once; an existing bundle is never packed again. */
  function ObtainBundle(t: Trial, key: Key, env: Env): Trial {
    if t.verdict.Some? then t
    else if key in t.files.bundles then
      match env.tool
      case ToolOk => t
      case ToolRefused => End(t, Refuse)
      case ToolUnavailable => End(t, Retry)
      case DiedVerifying => End(t, Crashed)
    else
      match env.pack
      case Packed(bundle) => t.(files := t.files.(bundles := t.files.bundles[key := bundle]))
      case PackRefused => End(t, Refuse)
      case PackUnavailable => End(t, Retry)
      case DiedPacking => End(t, Crashed)
      case DiedPacked(bundle) => End(t.(files := t.files.(bundles := t.files.bundles[key := bundle])), Crashed)
  }

  /** A durable write of a file that may fail or be cut short by a crash. */
  function Write(t: Trial, written: Files, w: WriteReply): Trial {
    match w
    case Written => t.(files := written)
    case WriteFailed => End(t, Retry)
    case DiedBefore => End(t, Crashed)
    case DiedAfter => Trial(written, Some(Crashed))
  }

  /** Verify the bundle and fix its transfer manifest. */
  function SealTransfer(t: Trial, key: Key, known: Option<string>, env: Env): Trial
    requires t.verdict.None? ==> key in t.files.bundles
  {
    if t.verdict.Some? then t
    else
      var bundle := t.files.bundles[key];
      var m := bundle.manifest;
      if !bundle.valid then End(t, Refuse)
      else if known.Some? && known.value != m.contentId then End(t, Refuse)
      else if key in t.files.transfers then
        (if t.files.transfers[key] == m then t else End(t, Refuse))
      else if known.Some? then End(t, Refuse)
      else Write(t, t.files.(transfers := t.files.transfers[key := m]), env.transferWrite)
  }

  function SaveMetadata(t: Trial, key: Key, config: Config, identity: Option<SourceIdentity>, env: Env): Trial {
    if t.verdict.Some? || identity.None? then t
    else
      var metadata := Metadata(config.outbox, identity.value, config.tool);
      Write(t, t.files.(metadata := t.files.metadata[key := metadata]), env.metadataWrite)
  }

  function CacheOf(files: Files, digest: string): Cache {
    if digest in files.caches then files.caches[digest] else Cache(None, None)
  }

  predicate MatchingReceipt(r: Receipt, m: Manifest) {
    && r.schema == RECEIPT_SCHEMA && r.contentId == m.contentId && r.manifestDigest == m.digest
    && (r.status.Verified? || r.status.Quarantined?) && r.receiptId != ""
  }

  /** What the transport's outcome means for the attempt. */
  function Judge(outcome: Outcome, m: Manifest): Verdict {
    match outcome
    case Terminal(receipt) => if MatchingReceipt(receipt, m) then Deliver(receipt) else Refuse
    case Pending => AwaitReceiver
    case AuthBlocked(status, uploadId, archive) =>
      Hold(AuthContext(status, m.contentId, m.digest, uploadId, archive))
    case RetryLater => Retry
    case Rejected => Refuse
    case Died => Crashed
  }

  /** A matching receipt is stored before the row says so. */
  function Conclude(t: Trial, key: Key, verdict: Verdict, w: WriteReply): Trial {
    if !verdict.Deliver? then End(t, verdict)
    else
      var stored := Write(t, t.files.(receipts := t.files.receipts[key := verdict.receipt]), w);
      if stored.verdict.Some? then stored else End(stored, verdict)
  }

  /** Call the transport and, on a matching receipt, store it. */
  function Send(t: Trial, key: Key, env: Env): Trial
    requires t.verdict.None? ==> key in t.files.bundles
  {
    if t.verdict.Some? then t
    else
      var m := t.files.bundles[key].manifest;
      var a := HubProtocol.Deliver(CacheOf(t.files, m.digest), env.hub);
      var sent := t.(files := t.files.(caches := t.files.caches[m.digest := a.cache]));
      Conclude(sent, key, Judge(if a.verdict.Some? then a.verdict.value else Died, m), env.receiptWrite)
  }

  function TryRow(files: Files, config: Config, key: Key, row: Row, env: Env): (t: Trial)
    ensures Concluded(t, key)
  {
    var a := CheckSource(Trial(files, None), row.identity, env.before);
    var b := ObtainBundle(a, key, env);
    var c := CheckSource(b, row.identity, env.after);
    var d := SealTransfer(c, key, row.contentId, env);
    var e := SaveMetadata(d, key, config, row.identity, env);
    Send(e, key, env)
  }

  function Pow2(n: nat): nat {
    if n == 0 then 1 else 2 * Pow2(n - 1)
  }

  /** min(3600, 2 ** min(attempts + 1, 11)) seconds. */
  function Delay(attempts: nat): nat {
    var power := Pow2(if attempts + 1 < 11 then attempts + 1 else 11);
    if power < 3600 then power else 3600
  }

  /** The attempt is over; verdicts that speak of the manifest have one. */
  predicate Concluded(t: Trial, key: Key) {
    && t.verdict.Some?
    && (t.verdict.value.AwaitReceiver? || t.verdict.value.Hold? || t.verdict.value.Deliver? ==> key in t.files.bundles)
  }

  /** The row after the attempt; None when the transaction was rolled back. */
  function UpdateRow(row: Row, t: Trial, key: Key, env: Env, now: real): Option<Row>
    requires Concluded(t, key)
  {
    var tried := row.(attempts := row.attempts + 1);
    var later := tried.(retryAt := now + Delay(row.attempts) as real, authError := false);
    if t.verdict.value.Crashed? || !env.commits then None
    else match t.verdict.value
      case Retry => Some(later)
      case Refuse => Some(tried.(status := Incident, authError := false))
      case AwaitReceiver => Some(later.(contentId := Some(t.files.bundles[key].manifest.contentId)))
      case Hold(context) =>
        Some(tried.(status := AuthHeld, contentId := Some(context.contentId), authError := true,
                    authContext := Some(context)))
      case Deliver(receipt) =>
        Some(tried.(status := if receipt.status.Verified? then RowStatus.Verified else RowStatus.Quarantined,
                    contentId := Some(t.files.bundles[key].manifest.contentId), receipt := Some(receipt),
                    authError := false))
      case Crashed => None
  }

  // ---- What durable files keep ----

  /** Bundles, transfers and archives are written once; other sessions' receipts are untouched. */
  ghost predicate FilesExtend(before: Files, after: Files, key: Key) {
    && (forall k :: k in before.bundles ==> k in after.bundles && after.bundles[k] == before.bundles[k])
    && (forall k :: k in before.transfers ==> k in after.transfers && after.transfers[k] == before.transfers[k])
    && (forall k :: k in before.receipts ==>
        k in after.receipts && (k != key ==> after.receipts[k] == before.receipts[k]))
    && (forall k :: k in before.metadata && k != key ==> k in after.metadata && after.metadata[k] == before.metadata[k])
    && (forall d :: d in before.caches ==> d in after.caches && Extends(before.caches[d], after.caches[d]))
  }

  /** Every prepared transfer is the manifest of its bundle. */
  ghost predicate FilesSound(files: Files) {
    && (forall k :: k in files.transfers ==> k in files.bundles && files.transfers[k] == files.bundles[k].manifest)
    && (forall d :: d in files.caches ==> SidecarNamed(files.caches[d]))
  }

  lemma ExtendTransitive(a: Files, b: Files, c: Files, key: Key)
    requires FilesExtend(a, b, key) && FilesExtend(b, c, key)
    ensures FilesExtend(a, c, key)
  {
  }

  /** What a stage guarantees, from the files it found. */
  ghost predicate StageOk(t: Trial, r: Trial, key: Key) {
    && FilesExtend(t.files, r.files, key) && (FilesSound(t.files) ==> FilesSound(r.files))
    && (r.verdict.None? ==> t.verdict.None?)
  }

  lemma AddBundle(files: Files, key: Key, bundle: Bundle)
    requires key !in files.bundles
    ensures FilesExtend(files, files.(bundles := files.bundles[key := bundle]), key)
    ensures FilesSound(files) ==> FilesSound(files.(bundles := files.bundles[key := bundle]))
  {
  }

  lemma ObtainBundleStage(t: Trial, key: Key, env: Env)
    ensures var r := ObtainBundle(t, key, env);
            && StageOk(t, r, key) && r.files.receipts == t.files.receipts
            && (r.verdict.None? ==> key in r.files.bundles)
  {
    if t.verdict.None? && key !in t.files.bundles {
      match env.pack {
        case Packed(bundle) => AddBundle(t.files, key, bundle);
        case DiedPacked(bundle) => AddBundle(t.files, key, bundle);
        case _ =>
      }
    }
  }

  lemma AddTransfer(files: Files, key: Key)
    requires key in files.bundles && key !in files.transfers
    ensures var after := files.(transfers := files.transfers[key := files.bundles[key].manifest]);
            FilesExtend(files, after, key) && (FilesSound(files) ==> FilesSound(after))
  {
  }

  lemma AddMetadata(files: Files, key: Key, metadata: Metadata)
    ensures var after := files.(metadata := files.metadata[key := metadata]);
            FilesExtend(files, after, key) && (FilesSound(files) ==> FilesSound(after))
  {
  }

  lemma AddReceipt(files: Files, key: Key, receipt: Receipt)
    ensures var after := files.(receipts := files.receipts[key := receipt]);
            FilesExtend(files, after, key) && (FilesSound(files) ==> FilesSound(after))
  {
  }

  lemma WriteStage(t: Trial, written: Files, w: WriteReply, key: Key)
    requires t.verdict.None? && FilesExtend(t.files, written, key) && (FilesSound(t.files) ==> FilesSound(written))
    ensures StageOk(t, Write(t, written, w), key)
    ensures Write(t, written, w).files == t.files || Write(t, written, w).files == written
    ensures Write(t, written, w).verdict.None? ==> Write(t, written, w).files == written
    ensures Write(t, written, w).verdict.Some? ==>
              Write(t, written, w).verdict.value.Retry? || Write(t, written, w).verdict.value.Crashed?
  {
    assert FilesExtend(t.files, t.files, key);
  }

  /** The transfer is sealed: it lists the bundle, and the row agrees if it knew the content. */
  ghost predicate TransferSealed(files: Files, key: Key, known: Option<string>) {
    && key in files.bundles && files.bundles[key].valid
    && key in files.transfers && files.transfers[key] == files.bundles[key].manifest
    && (known.Some? ==> known.value == files.transfers[key].contentId)
  }

  lemma SealTransferStage(t: Trial, key: Key, known: Option<string>, env: Env)
    requires t.verdict.None? ==> key in t.files.bundles
    ensures var r := SealTransfer(t, key, known, env);
            && StageOk(t, r, key) && r.files.receipts == t.files.receipts && r.files.bundles == t.files.bundles
            && (r.verdict.None? ==> TransferSealed(r.files, key, known))
  {
    assert FilesExtend(t.files, t.files, key);
    if t.verdict.None? && key !in t.files.transfers {
      AddTransfer(t.files, key);
      WriteStage(t, t.files.(transfers := t.files.transfers[key := t.files.bundles[key].manifest]),
          env.transferWrite, key);
    }
  }

  lemma SaveMetadataStage(t: Trial, key: Key, config: Config, identity: Option<SourceIdentity>, env: Env)
    ensures var r := SaveMetadata(t, key, config, identity, env);
            && StageOk(t, r, key) && r.files.receipts == t.files.receipts
            && r.files.bundles == t.files.bundles && r.files.transfers == t.files.transfers
            && (r.verdict.None? && identity.Some? ==>
                  key in r.files.metadata
                      && r.files.metadata[key] == Metadata(config.outbox, identity.value, config.tool))
  {
    assert FilesExtend(t.files, t.files, key);
    if t.verdict.None? && identity.Some? {
      var metadata := Metadata(config.outbox, identity.value, config.tool);
      AddMetadata(t.files, key, metadata);
      WriteStage(t, t.files.(metadata := t.files.metadata[key := metadata]), env.metadataWrite, key);
    }
  }

  /** The recorded transport identity is the one on disk. */
  ghost predicate HoldNamesDisk(files: Files, m: Manifest, c: AuthContext) {
    && c.contentId == m.contentId && c.manifestDigest == m.digest
    && m.digest in files.caches && files.caches[m.digest].archive == Some(c.archive)
    && (match c.uploadId
        case None => files.caches[m.digest].sidecar.None?
        case Some(id) =>
          && files.caches[m.digest].sidecar.Some? && files.caches[m.digest].sidecar.value.uploadId == id
          && files.caches[m.digest].sidecar.value.archive.digest == c.archive.digest)
  }

  /** What Send's verdict says about the files it leaves. */
  ghost predicate SendOk(t: Trial, r: Trial, key: Key)
    requires t.verdict.None? && key in t.files.bundles
  {
    && r.verdict.Some?
    && r.files.bundles == t.files.bundles && r.files.transfers == t.files.transfers
    && r.files.metadata == t.files.metadata
    && (r.verdict.value.Deliver? ==>
          && key in r.files.receipts && r.files.receipts[key] == r.verdict.value.receipt
          && MatchingReceipt(r.verdict.value.receipt, t.files.bundles[key].manifest)
          && UploadRecorded(CacheOf(r.files, t.files.bundles[key].manifest.digest)))
    && (r.verdict.value.Hold? ==>
          && r.files.receipts == t.files.receipts
          && HoldNamesDisk(r.files, t.files.bundles[key].manifest, r.verdict.value.context))
  }

  lemma {:induction false} UpdateCache(files: Files, digest: string, s: Script, key: Key)
    ensures var a := HubProtocol.Deliver(CacheOf(files, digest), s);
            && a.verdict.Some?
            && FilesExtend(files, files.(caches := files.caches[digest := a.cache]), key)
            && (FilesSound(files) ==> FilesSound(files.(caches := files.caches[digest := a.cache])))
  {
    OneAttempt(CacheOf(files, digest), s);
    if FilesSound(files) {
      AttemptNamed(CacheOf(files, digest), s);
    }
  }

  lemma {:induction false} HoldIsOnDisk(files: Files, m: Manifest, s: Script)
    requires HubProtocol.Deliver(CacheOf(files, m.digest), s).verdict.Some?
    requires Judge(HubProtocol.Deliver(CacheOf(files, m.digest), s).verdict.value, m).Hold?
    ensures var a := HubProtocol.Deliver(CacheOf(files, m.digest), s);
            HoldNamesDisk(files.(caches := files.caches[m.digest := a.cache]), m, Judge(a.verdict.value, m).context)
  {
    AuthBlockNamesDisk(CacheOf(files, m.digest), s);
  }

  lemma ConcludeStage(t: Trial, key: Key, verdict: Verdict, w: WriteReply)
    requires t.verdict.None?
    ensures var r := Conclude(t, key, verdict, w);
            && StageOk(t, r, key) && r.verdict.Some?
            && r.files.bundles == t.files.bundles && r.files.transfers == t.files.transfers
            && r.files.metadata == t.files.metadata && r.files.caches == t.files.caches
            && (r.verdict.value.Deliver? ==>
                  r.verdict.value == verdict && key in r.files.receipts && r.files.receipts[key] == verdict.receipt)
            && (r.verdict.value.Hold? || r.verdict.value.AwaitReceiver? ==>
                r.verdict.value == verdict && r.files == t.files)
  {
    assert FilesExtend(t.files, t.files, key);
    if verdict.Deliver? {
      AddReceipt(t.files, key, verdict.receipt);
      WriteStage(t, t.files.(receipts := t.files.receipts[key := verdict.receipt]), w, key);
    }
  }

  lemma {:induction false} SendStage(t: Trial, key: Key, env: Env)
    requires t.verdict.None? && key in t.files.bundles
    ensures StageOk(t, Send(t, key, env), key) && SendOk(t, Send(t, key, env), key)
  {
    var m := t.files.bundles[key].manifest;
    UpdateCache(t.files, m.digest, env.hub, key);
    var a := HubProtocol.Deliver(CacheOf(t.files, m.digest), env.hub);
    var sent := t.(files := t.files.(caches := t.files.caches[m.digest := a.cache]));
    var verdict := Judge(a.verdict.value, m);
    ConcludeStage(sent, key, verdict, env.receiptWrite);
    ExtendTransitive(t.files, sent.files, Send(t, key, env).files, key);
    if verdict.Hold? {
      HoldIsOnDisk(t.files, m, env.hub);
    } else if verdict.Deliver? {
      OnlyTerminalReceipts(CacheOf(t.files, m.digest), env.hub, verdict.receipt);
    }
  }
}
