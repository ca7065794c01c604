/** Which rows can still be delivered: at any point of any history, exactly when some way the outside
    can answer from then on ends with a receipt. */
module DeliveryLiveness {
  import opened Prelude
  import opened HubProtocol
  import opened DeliveryRows
  import opened DeliveryRuns
  import opened DeliveryRecovery
  import opened DeliveryHistory

  // ---- Reaching the row ----

  const GOOD_ARCHIVE := Archive("archive", 1)

  function GoodReceipt(m: Manifest): Receipt {
    Receipt(RECEIPT_SCHEMA, HubProtocol.Verified, m.contentId, m.digest, "receipt")
  }

  /** The hub has verified the content and says so whatever it is asked. */
  function GoodReply(id: UploadId, m: Manifest): HubReply {
    Replied(Response(Some(id), HubProtocol.Verified, Some(GoodReceipt(m)), false))
  }

  function GoodScript(id: UploadId, m: Manifest): Script {
    var reply := GoodReply(id, m);
    Script(GOOD_ARCHIVE, Built, reply, Written, reply, Written, reply, Written, Stored, reply, Written)
  }

  function KnownId(cache: Cache): UploadId {
    if cache.sidecar.Some? then cache.sidecar.value.uploadId else "u"
  }

  /** The bundle on disk, or the one that packing would give. */
  function GoodBundle(files: Files, key: Key): Bundle {
    if key in files.bundles then files.bundles[key]
    else Bundle(Manifest("content", "files", "digest"), "session", "raw", true)
  }

  /** An environment in which nothing fails. */
  function GoodEnv(files: Files, key: Key, identity: SourceIdentity): Env {
    var bundle := GoodBundle(files, key);
    var id := KnownId(CacheOf(files, bundle.manifest.digest));
    Env(Sealed(identity), ToolOk, Packed(bundle), Sealed(identity), Written, Written,
        GoodScript(id, bundle.manifest), Written, true)
  }

  lemma {:induction false} GoodScriptSound(cache: Cache, m: Manifest)
    requires SidecarNamed(cache)
    ensures var s := GoodScript(KnownId(cache), m); SoundReceiver(cache, s) && Prompt(s) && ReceiptsMatch(s, m)
    ensures var s := GoodScript(KnownId(cache), m);
            !SomeStatus(s, VerificationPending) && forall status :: !SomeReply(s, AuthRejected(status))
  {
    assert IdCharacter("u"[0]) && ValidId("u");
  }

  /** A waiting row whose bundle, if there is one, verifies is delivered by one attempt in which nothing
      fails. */
  lemma {:induction false} GoodAttemptDelivers(files: Files, config: Config, key: Key, row: Row, now: real)
    requires FilesSound(files) && RowSound(files, key, row) && row.status.Waiting?
    requires key in files.bundles ==> files.bundles[key].valid
    ensures var env := GoodEnv(files, key, row.identity.value);
            var next := UpdateRow(row, TryRow(files, config, key, row, env), key, env, now);
            next.Some? && Terminated(next.value)
  {
    var m := GoodBundle(files, key).manifest;
    var env := GoodEnv(files, key, row.identity.value);
    GoodScriptSound(CacheOf(files, m.digest), m);
    PromptAttemptAdvances(files, config, key, row, env, now);
  }

  /** The source cannot be read for now. */
  const UNREADABLE := GoodEnv(EMPTY.files, 0, SourceIdentity("", "", "", "", "")).(before := SourceUnavailable)

  lemma {:induction false} UnreadableDefers(o: Outbox, config: Config, now: real)
    requires Sound(o) && DueKeys(o, now) != {}
    ensures var next := DrainOne(o, config, now, UNREADABLE).0;
            var key := Least(DueKeys(o, now));
            && next.files == o.files && DueKeys(next, now) == DueKeys(o, now) - {key}
            && next.rows.Keys == o.rows.Keys && forall k :: k in o.rows && k != key ==> next.rows[k] == o.rows[k]
  {
    var key := Least(DueKeys(o, now));
    assert TryRow(o.files, config, key, o.rows[key], UNREADABLE) == Trial(o.files, Some(Retry));
    DrainProgress(o, config, now, UNREADABLE);
  }

  ghost predicate Reaches(o: Outbox, config: Config, key: Key, steps: seq<Step>) {
    key in Run(o, config, steps).rows && Terminated(Run(o, config, steps).rows[key])
  }

  lemma RunSteps(o: Outbox, config: Config, step: Step, steps: seq<Step>)
    ensures Run(o, config, [step] + steps) == Run(Do(o, config, step), config, steps)
  {
    assert ([step] + steps)[1..] == steps;
  }

  /** Earlier due rows are deferred until the drain comes to `key`. */
  lemma {:induction false} DueIsDelivered(o: Outbox, config: Config, key: Key, now: real) returns (steps: seq<Step>)
    requires Consistent(o, config) && key in DueKeys(o, now)
    requires key in o.files.bundles ==> o.files.bundles[key].valid
    ensures Reaches(o, config, key, steps)
    decreases |DueKeys(o, now)|
  {
    var due := DueKeys(o, now);
    if Least(due) == key {
      var env := GoodEnv(o.files, key, o.rows[key].identity.value);
      GoodAttemptDelivers(o.files, config, key, o.rows[key], now);
      RunSteps(o, config, Step.Drain(now, env), []);
      steps := [Step.Drain(now, env)] + [];
    } else {
      var next := Do(o, config, Step.Drain(now, UNREADABLE));
      UnreadableDefers(o, config, now);
      StepKeeps(o, config, Step.Drain(now, UNREADABLE));
      var rest := DueIsDelivered(next, config, key, now);
      RunSteps(o, config, Step.Drain(now, UNREADABLE), rest);
      steps := [Step.Drain(now, UNREADABLE)] + rest;
    }
  }

  // ---- What no later step repairs ----

  /** Files that are written once, and a sidecar once there, stay. */
  ghost predicate FilesGrow(before: Files, after: Files) {
    && (forall k :: k in before.bundles ==> k in after.bundles && after.bundles[k] == before.bundles[k])
    && (forall k :: k in before.receipts ==> k in after.receipts)
    && (forall d :: d in before.caches ==> d in after.caches && Extends(before.caches[d], after.caches[d]))
  }

  lemma {:induction false} StepGrows(o: Outbox, config: Config, step: Step)
    ensures FilesGrow(o.files, Do(o, config, step).files)
  {
    match step
    case Drain(now, env) =>
      var due := DueKeys(o, now);
      if due != {} {
        AttemptSound(o.files, config, Least(due), o.rows[Least(due)], env);
      }
    case _ =>
  }

  /** An unchanged source would let recovery requeue the row. */
  ghost predicate ResumesUnchanged(o: Outbox, config: Config, key: Key)
    requires key in o.rows && o.rows[key].identity.Some?
  {
    Resumes(o, config.outbox, key, Resealed(o.rows[key].identity.value))
  }

  /** What can be delivered from here on, read off the row and the files. */
  ghost predicate Deliverable(o: Outbox, config: Config, key: Key)
    requires key in o.rows
  {
    match o.rows[key].status
    case Waiting => key in o.files.bundles ==> o.files.bundles[key].valid
    case AuthHeld => o.rows[key].identity.Some? && ResumesUnchanged(o, config, key)
    case Incident => false
    case _ => true
  }

  /** Only an unchanged source is ever accepted. */
  lemma {:induction false} OnlyUnchanged(o: Outbox, config: Config, key: Key, reply: Recheck)
    requires Consistent(o, config) && Resumes(o, config.outbox, key, reply)
    ensures o.rows[key].identity.Some? && reply == Resealed(o.rows[key].identity.value)
  {
    assert HeldSound(o.files, config.outbox, key, o.rows[key]);
    RequeuedIff(o.files, config.outbox, key, o.rows[key], reply);
  }

  /** A recovery that a later outbox allows is allowed now, as long as the row is the same. */
  lemma {:induction false} ResumesEarlier(o: Outbox, after: Outbox, config: Config, key: Key)
    requires Consistent(o, config) && Consistent(after, config) && FilesGrow(o.files, after.files)
    requires key in o.rows && o.rows[key].status.AuthHeld? && key in after.rows && after.rows[key] == o.rows[key]
    requires o.rows[key].identity.Some? && ResumesUnchanged(after, config, key)
    ensures ResumesUnchanged(o, config, key)
  {
    var row := o.rows[key];
    var reply := Resealed(row.identity.value);
    RequeuedIff(o.files, config.outbox, key, row, reply);
    RequeuedIff(after.files, config.outbox, key, row, reply);
    assert HeldSound(o.files, config.outbox, key, row);
    var d := row.authContext.value.manifestDigest;
    assert d in o.files.caches && Extends(o.files.caches[d], after.files.caches[d]);
  }

  lemma {:induction false} DrainKeepsStuck(o: Outbox, config: Config, now: real, env: Env, key: Key)
    requires Consistent(o, config) && key in o.rows && o.rows[key].status.Waiting?
    requires key in o.files.bundles && !o.files.bundles[key].valid
    ensures var next := DrainOne(o, config, now, env).0;
            key in next.rows && !Terminated(next.rows[key]) && !next.rows[key].status.AuthHeld?
  {
    var due := DueKeys(o, now);
    if due != {} && Least(due) == key {
      AttemptSound(o.files, config, key, o.rows[key], env);
    }
  }

  /** No step makes a row deliverable that was not. */
  lemma {:induction false} StepKeepsUndeliverable(o: Outbox, config: Config, step: Step, key: Key)
    requires Consistent(o, config) && key in o.rows && !Deliverable(o, config, key)
    ensures key in Do(o, config, step).rows && !Deliverable(Do(o, config, step), config, key)
  {
    var next := Do(o, config, step);
    StepKeeps(o, config, step);
    StepGrows(o, config, step);
    assert RowKept(o.rows[key], next.rows[key]);
    match o.rows[key].status
    case Waiting =>
      if step.Drain? {
        DrainKeepsStuck(o, config, step.now, step.env, key);
      }
    case AuthHeld =>
      HeldStays(o, config, step, key);
      if o.rows[key].identity.Some? && ResumesUnchanged(next, config, key) {
        ResumesEarlier(o, next, config, key);
      }
    case _ =>
  }

  /** A held row that no recovery accepts stays as it is. */
  lemma {:induction false} HeldStays(o: Outbox, config: Config, step: Step, key: Key)
    requires Consistent(o, config) && key in o.rows && o.rows[key].status.AuthHeld?
    requires !Deliverable(o, config, key)
    ensures key in Do(o, config, step).rows && Do(o, config, step).rows[key] == o.rows[key]
  {
    match step
    case Drain(now, env) => DrainSound(o, config, now, env);
    case Resume(other, reply) =>
      if other == key && Resumes(o, config.outbox, key, reply) {
        OnlyUnchanged(o, config, key, reply);
      }
    case _ =>
  }

  lemma {:induction false} UndeliverableForever(o: Outbox, config: Config, steps: seq<Step>, key: Key)
    requires Consistent(o, config) && key in o.rows && !Deliverable(o, config, key)
    ensures !Reaches(o, config, key, steps)
    decreases |steps|
  {
    if steps == [] {
    } else {
      StepKeeps(o, config, steps[0]);
      StepKeepsUndeliverable(o, config, steps[0], key);
      UndeliverableForever(Do(o, config, steps[0]), config, steps[1..], key);
    }
  }

  // ---- The exact condition ----

  lemma {:induction false} WaitingIsDelivered(o: Outbox, config: Config, key: Key) returns (steps: seq<Step>)
    requires Consistent(o, config) && key in o.rows && o.rows[key].status.Waiting?
    requires key in o.files.bundles ==> o.files.bundles[key].valid
    ensures Reaches(o, config, key, steps)
  {
    steps := DueIsDelivered(o, config, key, o.rows[key].retryAt);
  }

  lemma {:induction false} HeldIsDelivered(o: Outbox, config: Config, key: Key) returns (steps: seq<Step>)
    requires Consistent(o, config) && key in o.rows && o.rows[key].identity.Some? && ResumesUnchanged(o, config, key)
    ensures Reaches(o, config, key, steps)
  {
    var step := Step.Resume(key, Resealed(o.rows[key].identity.value));
    var next := Do(o, config, step);
    StepKeeps(o, config, step);
    assert HeldSound(o.files, config.outbox, key, o.rows[key]);
    var rest := WaitingIsDelivered(next, config, key);
    RunSteps(o, config, step, rest);
    steps := [step] + rest;
  }

  /** At any point of any history a row can still reach a terminal status exactly when it has one, waits
      and its bundle verifies if it was packed, or is held and its unchanged source would requeue it. */
  lemma {:induction false} DeliverableIff(config: Config, before: seq<Step>, key: Key)
    requires key in Run(EMPTY, config, before).rows
    ensures var o := Run(EMPTY, config, before);
            (exists steps :: Reaches(o, config, key, steps)) <==> Deliverable(o, config, key)
  {
    EveryHistoryConsistent(config, before);
    var o := Run(EMPTY, config, before);
    if Deliverable(o, config, key) {
      var steps: seq<Step> := [];
      match o.rows[key].status {
        case Waiting => steps := WaitingIsDelivered(o, config, key);
        case AuthHeld => steps := HeldIsDelivered(o, config, key);
        case _ =>
      }
      assert Reaches(o, config, key, steps);
    } else {
      forall steps ensures !Reaches(o, config, key, steps) {
        UndeliverableForever(o, config, steps, key);
      }
    }
  }
}
