/** Two histories that end with a held row which no recovery requeues. In one the process dies after
    writing the receipt file and before its commit, and the credentials expire before the next attempt.
    In the other the same recording, copied to a second place, is delivered while the row is held. */
module DeliveryBlockedRows {
  import opened Prelude
  import opened HubProtocol
  import opened DeliveryRows
  import opened DeliveryRuns
  import opened DeliveryRecovery
  import opened DeliveryHistory

  const SOURCE := SourceIdentity("session", "timeline", "manifest", "close", "raw")
  const MANIFEST := Manifest("content", "files", "digest")
  const RECEIPT := Receipt(RECEIPT_SCHEMA, HubProtocol.Verified, "content", "digest", "receipt")
  const ARCHIVE := Archive("archive", 1)
  const SIDECAR := Sidecar("u", ARCHIVE, HubProtocol.Verified)

  /** The hub already has the content and answers the intent with its receipt; the process dies after
      writing the receipt file. */
  const ANSWERED := Script(
    ARCHIVE, Built, Unavailable, Written, Replied(Response(Some("u"), HubProtocol.Verified, Some(RECEIPT), false)),
        Written,
    Unavailable, Written, PutUnavailable, Unavailable, Written)
  const DIES := Env(
    Sealed(SOURCE), ToolOk, Packed(Bundle(MANIFEST, "session", "raw", true)), Sealed(SOURCE), Written, Written,
        ANSWERED,
    DiedAfter, true)

  /** Later the credentials have expired. */
  const EXPIRED := ANSWERED.(poll := AuthRejected(Unauthorized401))
  const BLOCKED := DIES.(hub := EXPIRED, receiptWrite := Written)

  lemma AnsweredCall()
    ensures var a := HubProtocol.Deliver(Cache(None, None), ANSWERED);
            a.verdict == Some(Terminal(RECEIPT)) && a.cache == Cache(Some(ARCHIVE), Some(SIDECAR))
  {
    var a := Prepare(Cache(None, None), ANSWERED);
    assert Poll(a, ANSWERED) == a;
    assert IdCharacter("u"[0]) && ValidId("u");
    var b := Request(a, ANSWERED);
    assert b.verdict == Some(Terminal(RECEIPT));
  }

  lemma ExpiredCall()
    ensures var a := HubProtocol.Deliver(Cache(Some(ARCHIVE), Some(SIDECAR)), EXPIRED);
            a.verdict == Some(AuthBlocked(Unauthorized401, Some("u"), ARCHIVE))
                && a.cache == Cache(Some(ARCHIVE), Some(SIDECAR))
  {
  }

  function LeftFiles(config: Config): Files {
    Files(map[0 := Bundle(MANIFEST, "session", "raw", true)], map[0 := MANIFEST],
          map[0 := Metadata(config.outbox, SOURCE, config.tool)], map[0 := RECEIPT],
          map["digest" := Cache(Some(ARCHIVE), Some(SIDECAR))])
  }

  lemma DyingAttempt(config: Config)
    ensures TryRow(EMPTY.files, config, 0, NewRow(Exact(SOURCE)), DIES) == Trial(LeftFiles(config), Some(Crashed))
  {
    AnsweredCall();
    var row, bundle := NewRow(Exact(SOURCE)), Bundle(MANIFEST, "session", "raw", true);
    var packed := Trial(Files(map[0 := bundle], map[], map[], map[], map[]), None);
    assert ObtainBundle(CheckSource(Trial(EMPTY.files, None), row.identity, DIES.before), 0, DIES) == packed;
    var sealed := Trial(Files(map[0 := bundle], map[0 := MANIFEST], map[], map[], map[]), None);
    assert SealTransfer(packed, 0, None, DIES) == sealed;
    var saved := SaveMetadata(sealed, 0, config, row.identity, DIES);
    assert saved.files.metadata == LeftFiles(config).metadata;
    assert Send(saved, 0, DIES) == Trial(LeftFiles(config), Some(Crashed));
  }

  lemma BlockedAttempt(config: Config)
    ensures var t := TryRow(LeftFiles(config), config, 0, NewRow(Exact(SOURCE)), BLOCKED);
            && t.files.receipts == LeftFiles(config).receipts
            && t.verdict.Some? && t.verdict.value.Hold?
  {
    ExpiredCall();
    var files, row := LeftFiles(config), NewRow(Exact(SOURCE));
    assert ObtainBundle(CheckSource(Trial(files, None), row.identity, BLOCKED.before), 0, BLOCKED) ==
        Trial(files, None);
    assert SealTransfer(Trial(files, None), 0, None, BLOCKED) == Trial(files, None);
    var saved := SaveMetadata(Trial(files, None), 0, config, row.identity, BLOCKED);
    assert saved.files.receipts == files.receipts && saved.files.bundles == files.bundles
        && saved.files.caches == files.caches;
  }

  lemma {:induction false} OnlyDue(o: Outbox, now: real, key: Key)
    requires DueKeys(o, now) == {key}
    ensures Least(DueKeys(o, now)) == key
  {
  }

  /** A crash between the receipt file and the commit, followed by expired credentials, leaves a held
      row that no answer of the source lets recovery requeue. */
  lemma {:induction false} LeftReceiptBlocksRecovery(config: Config) returns (steps: seq<Step>)
    ensures var o := Run(EMPTY, config, steps);
            && 0 in o.rows && o.rows[0].status.AuthHeld? && 0 in o.files.receipts
            && forall reply :: !Resumes(o, config.outbox, 0, reply)
  {
    var row := NewRow(Exact(SOURCE));
    var enrolled, left := Outbox(EMPTY.files, map[0 := row]), Outbox(LeftFiles(config), map[0 := row]);
    steps := [Enroll(0, Exact(SOURCE)), Step.Drain(0.0, DIES), Step.Drain(0.0, BLOCKED)];
    assert Do(EMPTY, config, steps[0]) == enrolled;
    OnlyDue(enrolled, 0.0, 0);
    DyingAttempt(config);
    assert Do(enrolled, config, steps[1]) == left;
    OnlyDue(left, 0.0, 0);
    BlockedAttempt(config);
    var held := Do(left, config, steps[2]);
    assert held.rows[0].status.AuthHeld? && 0 in held.files.receipts;
    ThreeSteps(EMPTY, config, steps);
  }

  lemma ThreeSteps(o: Outbox, config: Config, steps: seq<Step>)
    requires |steps| == 3
    ensures Run(o, config, steps) == Do(Do(Do(o, config, steps[0]), config, steps[1]), config, steps[2])
  {
    var rest, last := steps[1..], steps[1..][1..];
    var next := Do(o, config, steps[0]);
    assert rest[0] == steps[1] && last[0] == steps[2] && last[1..] == [];
    assert Run(o, config, steps) == Run(next, config, rest) == Run(Do(next, config, rest[0]), config, last);
  }

  // ---- A copy of the recording is delivered first ----

  /** The credentials are refused before any upload is known. */
  const NO_ACCESS := DIES.(hub := ANSWERED.(intent := AuthRejected(Unauthorized401)), receiptWrite := Written)

  /** The copy is delivered: the hub answers its intent with the receipt. */
  const COPY_ANSWERED := DIES.(receiptWrite := Written)

  const BLOCK := AuthContext(Unauthorized401, "content", "digest", None, ARCHIVE)

  lemma NoAccessCall()
    ensures var a := HubProtocol.Deliver(Cache(None, None), NO_ACCESS.hub);
            && a.verdict == Some(AuthBlocked(Unauthorized401, None, ARCHIVE))
            && a.cache == Cache(Some(ARCHIVE), None)
  {
    var a := Prepare(Cache(None, None), NO_ACCESS.hub);
    assert Poll(a, NO_ACCESS.hub) == a;
  }

  lemma CopyCall()
    ensures var a := HubProtocol.Deliver(Cache(Some(ARCHIVE), None), ANSWERED);
            a.verdict == Some(Terminal(RECEIPT)) && a.cache == Cache(Some(ARCHIVE), Some(SIDECAR))
  {
    var a := Prepare(Cache(Some(ARCHIVE), None), ANSWERED);
    assert Poll(a, ANSWERED) == a;
    assert IdCharacter("u"[0]) && ValidId("u");
    var b := Request(a, ANSWERED);
    assert b.verdict == Some(Terminal(RECEIPT));
  }

  function HeldFiles(config: Config): Files {
    Files(map[0 := Bundle(MANIFEST, "session", "raw", true)], map[0 := MANIFEST],
          map[0 := Metadata(config.outbox, SOURCE, config.tool)], map[], map["digest" := Cache(Some(ARCHIVE), None)])
  }

  function HeldRow(): Row {
    NewRow(Exact(SOURCE)).(status := AuthHeld, attempts := 1, contentId := Some("content"), authError := true,
      authContext := Some(BLOCK))
  }

  lemma NoAccessAttempt(config: Config)
    ensures var t := TryRow(EMPTY.files, config, 0, NewRow(Exact(SOURCE)), NO_ACCESS);
            t == Trial(HeldFiles(config), Some(Hold(BLOCK)))
  {
    NoAccessCall();
    var row, bundle := NewRow(Exact(SOURCE)), Bundle(MANIFEST, "session", "raw", true);
    var packed := Trial(Files(map[0 := bundle], map[], map[], map[], map[]), None);
    assert ObtainBundle(CheckSource(Trial(EMPTY.files, None), row.identity, NO_ACCESS.before), 0, NO_ACCESS) == packed;
    var sealed := Trial(Files(map[0 := bundle], map[0 := MANIFEST], map[], map[], map[]), None);
    assert SealTransfer(packed, 0, None, NO_ACCESS) == sealed;
    var saved := SaveMetadata(sealed, 0, config, row.identity, NO_ACCESS);
    assert saved.files.metadata == HeldFiles(config).metadata;
    assert Send(saved, 0, NO_ACCESS) == Trial(HeldFiles(config), Some(Hold(BLOCK)));
  }

  /** Delivering the copy leaves everything of row 0 as it was and adds the sidecar of their manifest. */
  lemma CopyAttempt(config: Config)
    ensures var t := TryRow(HeldFiles(config), config, 1, NewRow(Exact(SOURCE)), COPY_ANSWERED);
            && t.verdict == Some(Verdict.Deliver(RECEIPT))
            && CacheOf(t.files, "digest") == Cache(Some(ARCHIVE), Some(SIDECAR))
            && 0 in t.files.bundles && t.files.bundles[0] == HeldFiles(config).bundles[0]
            && 0 !in t.files.receipts
  {
    CopyCall();
    var env := COPY_ANSWERED;
    var files, row, bundle := HeldFiles(config), NewRow(Exact(SOURCE)), Bundle(MANIFEST, "session", "raw", true);
    var packed := Trial(files.(bundles := files.bundles[1 := bundle]), None);
    assert ObtainBundle(CheckSource(Trial(files, None), row.identity, env.before), 1, env) == packed;
    var sealed := Trial(packed.files.(transfers := files.transfers[1 := MANIFEST]), None);
    assert SealTransfer(packed, 1, None, env) == sealed;
    var saved := SaveMetadata(sealed, 1, config, row.identity, env);
    assert saved.verdict.None? && saved.files.caches == files.caches && saved.files.receipts == map[];
    assert saved.files.bundles[1] == bundle && CacheOf(saved.files, "digest") == Cache(Some(ARCHIVE), None);
  }

  function BothEnrolled(): Outbox {
    Outbox(EMPTY.files, map[0 := NewRow(Exact(SOURCE)), 1 := NewRow(Exact(SOURCE))])
  }

  function FirstHeld(config: Config): Outbox {
    Outbox(HeldFiles(config), map[0 := HeldRow(), 1 := NewRow(Exact(SOURCE))])
  }

  lemma {:induction false} FirstIsHeld(config: Config)
    ensures Do(BothEnrolled(), config, Step.Drain(0.0, NO_ACCESS)) == FirstHeld(config)
  {
    var o := BothEnrolled();
    assert DueKeys(o, 0.0) == {0, 1};
    assert Least({0, 1}) == 0;
    NoAccessAttempt(config);
    var t := TryRow(o.files, config, 0, o.rows[0], NO_ACCESS);
    assert UpdateRow(o.rows[0], t, 0, NO_ACCESS, 0.0) == Some(HeldRow());
    assert o.rows[0 := HeldRow()] == FirstHeld(config).rows;
  }

  /** The held row has everything it needs but for the sidecar that its copy obtained. */
  lemma {:induction false} CopyIsDelivered(config: Config)
    ensures var o := Do(FirstHeld(config), config, Step.Drain(0.0, COPY_ANSWERED));
            && 0 in o.rows && o.rows[0] == HeldRow() && 1 in o.rows && o.rows[1].status.Verified?
            && SourceKept(o.files, 0, o.rows[0], Resealed(SOURCE)) && !NoLateSidecar(o.files, o.rows[0])
  {
    var o := FirstHeld(config);
    assert DueKeys(o, 0.0) == {1};
    OnlyDue(o, 0.0, 1);
    CopyAttempt(config);
    var next := Do(o, config, Step.Drain(0.0, COPY_ANSWERED));
    assert next.rows[0] == HeldRow();
    assert CacheOf(next.files, "digest").sidecar.Some?;
  }

  lemma FourSteps(o: Outbox, config: Config, steps: seq<Step>)
    requires |steps| == 4
    ensures Run(o, config, steps)
         == Do(Do(Do(Do(o, config, steps[0]), config, steps[1]), config, steps[2]), config, steps[3])
  {
    var rest := steps[1..];
    assert rest[0] == steps[1] && rest[1] == steps[2] && rest[2] == steps[3];
    ThreeSteps(Do(o, config, steps[0]), config, rest);
  }

  /** A recording and its copy are enrolled, the first is held before an upload is known, and the copy is
      then delivered. Source, pack and receipt file of the held row are as they should be, but the
      sidecar of the copy keeps every recovery from requeueing it. */
  lemma {:induction false} LateSidecarBlocksRecovery(config: Config) returns (steps: seq<Step>)
    ensures var o := Run(EMPTY, config, steps);
            && 0 in o.rows && o.rows[0].status.AuthHeld? && SourceKept(o.files, 0, o.rows[0], Resealed(SOURCE))
            && forall reply :: !Resumes(o, config.outbox, 0, reply)
  {
    steps := [Enroll(0, Exact(SOURCE)), Enroll(1, Exact(SOURCE)), Step.Drain(0.0, NO_ACCESS),
              Step.Drain(0.0, COPY_ANSWERED)];
    var one := Do(EMPTY, config, steps[0]);
    assert Do(one, config, steps[1]) == BothEnrolled();
    FirstIsHeld(config);
    CopyIsDelivered(config);
    FourSteps(EMPTY, config, steps);
    forall reply ensures !Resumes(Run(EMPTY, config, steps), config.outbox, 0, reply) {
      HeldRequeuesLater(config, steps, 0, reply);
    }
  }
}
