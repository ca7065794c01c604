/** Any history of one outbox: enrolments, drains that may crash anywhere, and recoveries. */
module DeliveryHistory {
  import opened Prelude
  import opened DeliveryRows
  import opened DeliveryRuns
  import opened DeliveryRecovery

  /** What enrolling a closed session finds; `Unsound` is a seal that cannot be read or is not exact. */
  datatype Seal = Exact(identity: SourceIdentity) | Unsound

  datatype Step =
    | Enroll(key: Key, seal: Seal)
    | Drain(now: real, env: Env)
    | Resume(key: Key, reply: Recheck)

  function NewRow(seal: Seal): Row {
    match seal
    case Exact(identity) => Row(Some(identity), Waiting, 0, 0.0, None, false, None, None)
    case Unsound => Row(None, Incident, 0, 0.0, None, false, None, None)
  }

  /** A known session keeps its row. */
  function EnrollOne(o: Outbox, key: Key, seal: Seal): Outbox {
    if key in o.rows then o else o.(rows := o.rows[key := NewRow(seal)])
  }

  ghost function Do(o: Outbox, config: Config, step: Step): Outbox {
    match step
    case Enroll(key, seal) => EnrollOne(o, key, seal)
    case Drain(now, env) => DrainOne(o, config, now, env).0
    case Resume(key, reply) => ResumeOne(o, config.outbox, key, reply)
  }

  ghost function Run(o: Outbox, config: Config, steps: seq<Step>): Outbox
    decreases |steps|
  {
    if steps == [] then o else Run(Do(o, config, steps[0]), config, steps[1..])
  }

  const EMPTY := Outbox(Files(map[], map[], map[], map[], map[]), map[])

  ghost predicate Consistent(o: Outbox, config: Config) {
    Sound(o) && AllHeldSound(o, config.outbox)
  }

  lemma {:induction false} EnrollKeeps(o: Outbox, config: Config, key: Key, seal: Seal)
    requires Consistent(o, config)
    ensures Consistent(EnrollOne(o, key, seal), config) && RowsKept(o, EnrollOne(o, key, seal))
  {
    var next := EnrollOne(o, key, seal);
    forall k | k in next.rows
      ensures RowSound(next.files, k, next.rows[k]) && HeldSound(next.files, config.outbox, k, next.rows[k])
    {
      if k in o.rows {
        assert RowSound(o.files, k, o.rows[k]) && HeldSound(o.files, config.outbox, k, o.rows[k]);
      }
    }
  }

  lemma {:induction false} StepKeeps(o: Outbox, config: Config, step: Step)
    requires Consistent(o, config)
    ensures Consistent(Do(o, config, step), config) && RowsKept(o, Do(o, config, step))
  {
    match step
    case Enroll(key, seal) => EnrollKeeps(o, config, key, seal);
    case Drain(now, env) =>
      DrainSound(o, config, now, env);
      DrainHeld(o, config, now, env);
    case Resume(key, reply) => ResumeKeeps(o, config.outbox, key, reply);
  }

  lemma RowsKeptTransitive(a: Outbox, b: Outbox, c: Outbox)
    requires RowsKept(a, b) && RowsKept(b, c)
    ensures RowsKept(a, c)
  {
    forall k | k in a.rows ensures k in c.rows && RowKept(a.rows[k], c.rows[k]) {
      assert RowKept(a.rows[k], b.rows[k]) && RowKept(b.rows[k], c.rows[k]);
    }
  }

  /** From any consistent outbox and over any history: a content id, once known, never changes and
      is that of the transfer file; a receipt is present exactly on verified and quarantined rows and
      matches the transfer; verified, quarantined and incident rows are final. */
  lemma {:induction false} HistoryKeepsRows(o: Outbox, config: Config, steps: seq<Step>)
    requires Consistent(o, config)
    ensures Consistent(Run(o, config, steps), config) && RowsKept(o, Run(o, config, steps))
    decreases |steps|
  {
    if steps == [] {
    } else {
      var next := Do(o, config, steps[0]);
      StepKeeps(o, config, steps[0]);
      HistoryKeepsRows(next, config, steps[1..]);
      RowsKeptTransitive(o, next, Run(next, config, steps[1..]));
    }
  }

  lemma {:induction false} EveryHistoryConsistent(config: Config, steps: seq<Step>)
    ensures Consistent(Run(EMPTY, config, steps), config)
  {
    HistoryKeepsRows(EMPTY, config, steps);
  }

  predicate Recovers(step: Step, key: Key) {
    step.Resume? && step.key == key
  }

  /** A held row stays exactly as it is until a recovery of that very row. */
  lemma {:induction false} HeldUntilRecovery(o: Outbox, config: Config, steps: seq<Step>, key: Key)
    requires Consistent(o, config) && key in o.rows && o.rows[key].status.AuthHeld?
    requires forall i :: 0 <= i < |steps| ==> !Recovers(steps[i], key)
    ensures key in Run(o, config, steps).rows && Run(o, config, steps).rows[key] == o.rows[key]
    decreases |steps|
  {
    if steps == [] {
    } else {
      assert !Recovers(steps[0], key);
      var next := Do(o, config, steps[0]);
      StepKeeps(o, config, steps[0]);
      assert next.rows[key] == o.rows[key] by {
        match steps[0]
        case Drain(now, env) => DrainSound(o, config, now, env);
        case _ =>
      }
      forall i | 0 <= i < |steps[1..]| ensures !Recovers(steps[1..][i], key) {
        assert steps[1..][i] == steps[i + 1];
      }
      HeldUntilRecovery(next, config, steps[1..], key);
    }
  }

  /** At any later point of any history, a held row is requeued exactly when its source, its pack and
      its receipt file are as they should be, and no other session's upload has taken the manifest. */
  lemma {:induction false} HeldRequeuesLater(config: Config, steps: seq<Step>, key: Key, reply: Recheck)
    requires key in Run(EMPTY, config, steps).rows && Run(EMPTY, config, steps).rows[key].status.AuthHeld?
    ensures var o := Run(EMPTY, config, steps);
            Resumes(o, config.outbox, key, reply) <==>
              SourceKept(o.files, key, o.rows[key], reply) && NoLateSidecar(o.files, o.rows[key])
  {
    EveryHistoryConsistent(config, steps);
    var o := Run(EMPTY, config, steps);
    RequeuedIff(o.files, config.outbox, key, o.rows[key], reply);
  }

  // ---- Histories without refusals ----

  /** If this step tries the row of `key`, everything that answers is sound or fails transiently. */
  ghost predicate StepTolerable(o: Outbox, config: Config, key: Key, step: Step) {
    step.Drain? && DrainOne(o, config, step.now, step.env).1 == Some(key) && o.rows[key].identity.Some? ==>
      Tolerable(o.files, key, o.rows[key].identity.value, step.env)
  }

  ghost predicate AllTolerable(o: Outbox, config: Config, key: Key, steps: seq<Step>)
    decreases |steps|
  {
    steps == []
        || (StepTolerable(o, config, key, steps[0]) && AllTolerable(Do(o, config, steps[0]), config, key, steps[1..]))
  }

  predicate NoIncident(o: Outbox, key: Key) {
    key in o.rows && o.rows[key].identity.Some? && !o.rows[key].status.Incident?
  }

  lemma {:induction false} StepNoIncident(o: Outbox, config: Config, key: Key, step: Step)
    requires Consistent(o, config) && NoIncident(o, key) && StepTolerable(o, config, key, step)
    ensures NoIncident(Do(o, config, step), key)
  {
    StepKeeps(o, config, step);
    match step
    case Drain(now, env) =>
      var (next, tried) := DrainOne(o, config, now, env);
      if tried == Some(key) {
        TransientNeverIncident(o.files, config, key, o.rows[key], env, now);
      }
    case _ =>
  }

  /** A soundly enrolled row never becomes an incident, however often storage, network or process fail,
      as long as its source, bundle and receiver stay sound. */
  lemma {:induction false} TolerableHistoryNoIncident(o: Outbox, config: Config, key: Key, steps: seq<Step>)
    requires Consistent(o, config) && NoIncident(o, key) && AllTolerable(o, config, key, steps)
    ensures NoIncident(Run(o, config, steps), key)
    decreases |steps|
  {
    if steps == [] {
    } else {
      StepKeeps(o, config, steps[0]);
      StepNoIncident(o, config, key, steps[0]);
      TolerableHistoryNoIncident(Do(o, config, steps[0]), config, key, steps[1..]);
    }
  }
}
