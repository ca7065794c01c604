/** DeliveryOutbox itself: the files and rows of one outbox, changed in place by its operations.

    Every operation is proved against the functions whose histories DeliveryHistory covers. */
module DeliveryOutbox {
  import opened Prelude
  import opened HubProtocol
  import opened DeliveryRows
  import opened DeliveryRuns
  import opened DeliveryRecovery
  import opened DeliveryHistory

  // ---- Reconciliation ----

  /** A directory entry of the recordings root, in sorted order. `recording` says that it is a
      directory with a recording manifest, `closed` that it has a close receipt. */
  datatype Entry = Entry(key: Key, hidden: bool, recording: bool, closed: bool, seal: Seal)

  datatype Counts = Counts(enqueued: nat, existing: nat, unsealed: nat, incident: nat)

  predicate IsRecording(e: Entry) {
    !e.hidden && e.recording
  }

  predicate IsUnsealed(e: Entry) {
    IsRecording(e) && !e.closed
  }

  predicate IsClosed(e: Entry) {
    IsRecording(e) && e.closed
  }

  ghost function EnrollAll(o: Outbox, entries: seq<Entry>): Outbox {
    if entries == [] then o
    else
      var e := entries[|entries| - 1];
      var earlier := EnrollAll(o, entries[..|entries| - 1]);
      if IsClosed(e) then EnrollOne(earlier, e.key, e.seal) else earlier
  }

  lemma {:induction false} EnrollAllKnown(o: Outbox, entries: seq<Entry>)
    ensures var next := EnrollAll(o, entries);
            && next.files == o.files && o.rows.Keys <= next.rows.Keys
            && (forall k :: k in o.rows ==> next.rows[k] == o.rows[k])
  {
    if entries == [] {
    } else {
      EnrollAllKnown(o, entries[..|entries| - 1]);
    }
  }

  ghost predicate ClosedAt(entries: seq<Entry>, i: int, key: Key) {
    0 <= i < |entries| && IsClosed(entries[i]) && entries[i].key == key
  }

  /** A row is there exactly when it was there before or a closed recording has its key. */
  lemma {:induction false} EnrolledKeys(o: Outbox, entries: seq<Entry>, key: Key)
    ensures key in EnrollAll(o, entries).rows <==> key in o.rows || exists i :: ClosedAt(entries, i, key)
  {
    if entries == [] {
    } else {
      var n := |entries| - 1;
      var front := entries[..n];
      EnrolledKeys(o, front, key);
      assert forall i :: i < n ==> (ClosedAt(entries, i, key) <==> ClosedAt(front, i, key));
      assert ClosedAt(entries, n, key) <==> IsClosed(entries[n]) && entries[n].key == key;
      if i :| ClosedAt(entries, i, key) {
        assert i == n || ClosedAt(front, i, key);
      }
    }
  }

  /** The first closed recording with a new key decides the identity and the status of its row. */
  lemma {:induction false} FirstSealDecides(o: Outbox, entries: seq<Entry>, i: nat)
    requires i < |entries| && IsClosed(entries[i]) && entries[i].key !in o.rows
    requires forall j :: j < i ==> !ClosedAt(entries, j, entries[i].key)
    ensures entries[i].key in EnrollAll(o, entries).rows
        && EnrollAll(o, entries).rows[entries[i].key] == NewRow(entries[i].seal)
  {
    var n := |entries| - 1;
    var front := entries[..n];
    if i < n {
      forall j | j < i ensures !ClosedAt(front, j, entries[i].key) {
        assert !ClosedAt(entries, j, entries[i].key);
      }
      FirstSealDecides(o, front, i);
    } else {
      EnrolledKeys(o, front, entries[i].key);
      forall j ensures !ClosedAt(front, j, entries[i].key) {
        assert j < i ==> !ClosedAt(entries, j, entries[i].key);
      }
    }
  }

  ghost function CountEntry(c: Counts, before: Outbox, e: Entry): Counts {
    if !IsRecording(e) then c
    else if !e.closed then c.(unsealed := c.unsealed + 1)
    else if e.key in before.rows then c.(existing := c.existing + 1)
    else match e.seal
      case Exact(_) => c.(enqueued := c.enqueued + 1)
      case Unsound => c.(incident := c.incident + 1)
  }

  ghost function Tally(o: Outbox, entries: seq<Entry>): Counts {
    if entries == [] then Counts(0, 0, 0, 0)
    else
      var front := entries[..|entries| - 1];
      CountEntry(Tally(o, front), EnrollAll(o, front), entries[|entries| - 1])
  }

  ghost function NewKeys(before: Outbox, after: Outbox): set<Key> {
    after.rows.Keys - before.rows.Keys
  }

  ghost function NewWaiting(before: Outbox, after: Outbox): set<Key> {
    set k | k in after.rows && k !in before.rows && after.rows[k].status.Waiting?
  }

  lemma {:induction false} NewKeysGrow(o: Outbox, middle: Outbox, key: Key, row: Row)
    requires key !in middle.rows && key !in o.rows
    ensures |NewKeys(o, middle.(rows := middle.rows[key := row]))| == |NewKeys(o, middle)| + 1
  {
    assert NewKeys(o, middle.(rows := middle.rows[key := row])) == NewKeys(o, middle) + {key};
  }

  lemma {:induction false} NewWaitingGrow(o: Outbox, middle: Outbox, key: Key, row: Row)
    requires key !in middle.rows && key !in o.rows
    ensures |NewWaiting(o, middle.(rows := middle.rows[key := row]))|
         == |NewWaiting(o, middle)| + if row.status.Waiting? then 1 else 0
  {
    var after := middle.(rows := middle.rows[key := row]);
    if row.status.Waiting? {
      assert NewWaiting(o, after) == NewWaiting(o, middle) + {key};
    } else {
      assert NewWaiting(o, after) == NewWaiting(o, middle);
    }
  }

  lemma {:induction false} EntryBalances(o: Outbox, middle: Outbox, c: Counts, e: Entry)
    requires o.rows.Keys <= middle.rows.Keys
    requires c.enqueued + c.incident == |NewKeys(o, middle)| && c.enqueued == |NewWaiting(o, middle)|
    ensures var after := if IsClosed(e) then EnrollOne(middle, e.key, e.seal) else middle;
            var d := CountEntry(c, middle, e);
            d.enqueued + d.incident == |NewKeys(o, after)| && d.enqueued == |NewWaiting(o, after)|
  {
    if IsClosed(e) && e.key !in middle.rows {
      NewKeysGrow(o, middle, e.key, NewRow(e.seal));
      NewWaitingGrow(o, middle, e.key, NewRow(e.seal));
    }
  }

  /** The new rows are the enqueued and the incidents; the enqueued are those that wait for delivery. */
  lemma {:induction false} NewRowsCounted(o: Outbox, entries: seq<Entry>)
    ensures var c, next := Tally(o, entries), EnrollAll(o, entries);
            c.enqueued + c.incident == |NewKeys(o, next)| && c.enqueued == |NewWaiting(o, next)|
  {
    if entries == [] {
      assert NewKeys(o, o) == {} && NewWaiting(o, o) == {};
    } else {
      var front, e := entries[..|entries| - 1], entries[|entries| - 1];
      NewRowsCounted(o, front);
      EnrollAllKnown(o, front);
      EntryBalances(o, EnrollAll(o, front), Tally(o, front), e);
    }
  }

  /** Every recording is counted exactly once. */
  lemma {:induction false} TallyBalances(o: Outbox, entries: seq<Entry>)
    ensures var c := Tally(o, entries);
            && c.enqueued + c.existing + c.unsealed + c.incident == CountIf(entries, IsRecording)
            && c.unsealed == CountIf(entries, IsUnsealed)
  {
    if entries == [] {
    } else {
      TallyBalances(o, entries[..|entries| - 1]);
    }
  }

  /** What one more entry adds: a hidden one or one that is no recording nothing, an unclosed recording one unsealed,
      a closed one that is known one existing, and a new one its row: waiting under its identity if its seal is
      exact, and otherwise an incident. */
  lemma {:induction false} OneMoreEntry(o: Outbox, entries: seq<Entry>, e: Entry)
    ensures var before, after := EnrollAll(o, entries), EnrollAll(o, entries + [e]);
            var c, d := Tally(o, entries), Tally(o, entries + [e]);
            if e.hidden || !e.recording then after == before && d == c
            else if !e.closed then after == before && d == c.(unsealed := c.unsealed + 1)
            else if e.key in before.rows then after == before && d == c.(existing := c.existing + 1)
            else
              && after.files == before.files && after.rows == before.rows[e.key := after.rows[e.key]]
              && after.rows[e.key].attempts == 0 && after.rows[e.key].retryAt == 0.0
              && after.rows[e.key].contentId.None? && after.rows[e.key].receipt.None?
              && (if e.seal.Exact? then
                    && after.rows[e.key].status.Waiting? && after.rows[e.key].identity == Some(e.seal.identity)
                    && d == c.(enqueued := c.enqueued + 1)
                  else
                    && after.rows[e.key].status.Incident? && after.rows[e.key].identity.None?
                    && d == c.(incident := c.incident + 1))
  {
    assert (entries + [e])[..|entries|] == entries;
  }

  // ---- Recovery of every held row ----

  ghost function Held(o: Outbox): set<Key> {
    set k | k in o.rows && o.rows[k].status.AuthHeld?
  }

  ghost function Passing(o: Outbox, outboxId: string, replies: Key -> Recheck): set<Key> {
    set k | k in o.rows && Resumes(o, outboxId, k, replies(k))
  }

  /** Each of these keys is recovered on its own; the other rows stay. */
  ghost function ResumeKeys(o: Outbox, outboxId: string, replies: Key -> Recheck, keys: set<Key>): Outbox {
    o.(rows := map k | k in o.rows ::
                 if k in keys then ResumeOne(o, outboxId, k, replies(k)).rows[k] else o.rows[k])
  }

  /** Taking `key` off what is left adds it to what is done. */
  lemma GrowBy(all: set<Key>, rest: set<Key>, key: Key)
    requires key in rest
    ensures key in all ==> all - (rest - {key}) == (all - rest) + {key} && |all - (rest - {key})| == |all - rest| + 1
    ensures key !in all ==> all - (rest - {key}) == all - rest
  {
    if key in all {
      assert all - (rest - {key}) == (all - rest) + {key};
    }
  }

  lemma SameCheck(o: Outbox, middle: Outbox, outboxId: string, key: Key, reply: Recheck)
    requires middle.files == o.files && key in o.rows && key in middle.rows && middle.rows[key] == o.rows[key]
    ensures Resumes(middle, outboxId, key, reply) == Resumes(o, outboxId, key, reply)
  {
  }

  /** Recovering one more held row. */
  lemma {:induction false} ResumeKeysStep(o: Outbox, outboxId: string, replies: Key -> Recheck, rest: set<Key>,
      key: Key)
    requires rest <= Held(o) && key in rest
    ensures var middle := ResumeKeys(o, outboxId, replies, Held(o) - rest);
            && ResumeKeys(o, outboxId, replies, Held(o) - (rest - {key})) ==
                ResumeOne(middle, outboxId, key, replies(key))
            && Resumes(middle, outboxId, key, replies(key)) == (key in Passing(o, outboxId, replies))
  {
    GrowBy(Held(o), rest, key);
    var middle := ResumeKeys(o, outboxId, replies, Held(o) - rest);
    assert middle.files == o.files && middle.rows[key] == o.rows[key];
    SameCheck(o, middle, outboxId, key, replies(key));
  }

  /** Where recovery stands when the held rows in `rest` are still to be checked. */
  ghost predicate RecoveredTo(o: Outbox, outboxId: string, replies: Key -> Recheck, rest: set<Key>, now: Outbox,
      resumed: nat, rejected: nat)
  {
    && rest <= Held(o)
    && now == ResumeKeys(o, outboxId, replies, Held(o) - rest)
    && resumed == |Passing(o, outboxId, replies) - rest|
    && resumed + rejected == |Held(o) - rest|
  }

  lemma {:induction false} RecoverNext(o: Outbox, outboxId: string, replies: Key -> Recheck, rest: set<Key>, key: Key,
                                       now: Outbox, resumed: nat, rejected: nat)
    requires RecoveredTo(o, outboxId, replies, rest, now, resumed, rejected) && key in rest
    ensures var one := if Resumes(now, outboxId, key, replies(key)) then 1 else 0;
            RecoveredTo(o, outboxId, replies, rest - {key}, ResumeOne(now, outboxId, key, replies(key)),
                resumed + one, rejected + 1 - one)
  {
    ResumeKeysStep(o, outboxId, replies, rest, key);
    GrowBy(Passing(o, outboxId, replies), rest, key);
    GrowBy(Held(o), rest, key);
  }

  lemma {:induction false} RecoverFrom(o: Outbox, outboxId: string, replies: Key -> Recheck)
    ensures RecoveredTo(o, outboxId, replies, Held(o), o, 0, 0)
  {
    assert Passing(o, outboxId, replies) - Held(o) == {} && Held(o) - Held(o) == {};
  }

  lemma {:induction false} RecoverDone(o: Outbox, outboxId: string, replies: Key -> Recheck, now: Outbox,
      resumed: nat, rejected: nat)
    requires RecoveredTo(o, outboxId, replies, {}, now, resumed, rejected)
    ensures now == ResumeKeys(o, outboxId, replies, Held(o))
    ensures resumed == |Passing(o, outboxId, replies)| && resumed + rejected == |Held(o)|
  {
    assert Passing(o, outboxId, replies) - {} == Passing(o, outboxId, replies) && Held(o) - {} == Held(o);
  }

  // ---- What the operations keep ----

  lemma {:induction false} EnrollAllKeeps(o: Outbox, config: Config, entries: seq<Entry>)
    requires Consistent(o, config)
    ensures Consistent(EnrollAll(o, entries), config) && RowsKept(o, EnrollAll(o, entries))
  {
    if entries == [] {
    } else {
      var n := |entries| - 1;
      var earlier := EnrollAll(o, entries[..n]);
      EnrollAllKeeps(o, config, entries[..n]);
      EnrollKeeps(earlier, config, entries[n].key, entries[n].seal);
      RowsKeptTransitive(o, earlier, EnrollAll(o, entries));
    }
  }

  lemma {:induction false} DrainAllKeeps(o: Outbox, config: Config, turns: seq<Turn>)
    requires Consistent(o, config)
    ensures Consistent(DrainAll(o, config, turns).0, config) && RowsKept(o, DrainAll(o, config, turns).0)
    decreases |turns|
  {
    if turns != [] && DueKeys(o, turns[0].now) != {} {
      var next := DrainOne(o, config, turns[0].now, turns[0].env).0;
      StepKeeps(o, config, Drain(turns[0].now, turns[0].env));
      DrainAllKeeps(next, config, turns[1..]);
      RowsKeptTransitive(o, next, DrainAll(next, config, turns[1..]).0);
    }
  }

  lemma {:induction false} ResumeKeysKeeps(o: Outbox, config: Config, replies: Key -> Recheck, keys: set<Key>)
    requires Consistent(o, config)
    ensures var next := ResumeKeys(o, config.outbox, replies, keys); Consistent(next, config) && RowsKept(o, next)
  {
    var next := ResumeKeys(o, config.outbox, replies, keys);
    forall k | k in next.rows
      ensures RowSound(next.files, k, next.rows[k]) && HeldSound(next.files, config.outbox, k, next.rows[k])
      ensures RowKept(o.rows[k], next.rows[k])
    {
      ResumeKeeps(o, config.outbox, k, replies(k));
      assert RowSound(o.files, k, o.rows[k]) && HeldSound(o.files, config.outbox, k, o.rows[k]);
    }
  }

  class DeliveryOutbox {
    const config: Config
    var files: Files
    var rows: map<Key, Row>

    ghost function Contents(): Outbox
      reads this
    {
      Outbox(files, rows)
    }

    /** The rows agree with the files, and held rows with their recorded blocks. */
    ghost predicate Valid()
      reads this
    {
      Consistent(Contents(), config)
    }

    constructor (config: Config)
      ensures this.config == config && Contents() == EMPTY && Valid()
    {
      this.config := config;
      files, rows := Files(map[], map[], map[], map[], map[]), map[];
    }

    /** Enrols the closed recordings that have no row yet. */
    method Reconcile(entries: seq<Entry>) returns (counts: Counts)
      requires Valid()
      modifies this`rows
      ensures Valid() && RowsKept(old(Contents()), Contents())
      ensures Contents() == EnrollAll(old(Contents()), entries) && counts == Tally(old(Contents()), entries)
    {
      EnrollAllKeeps(Contents(), config, entries);
      counts := Counts(0, 0, 0, 0);
      for i := 0 to |entries|
        invariant Contents() == EnrollAll(old(Contents()), entries[..i])
            && counts == Tally(old(Contents()), entries[..i])
      {
        var e := entries[i];
        assert entries[..i + 1][..i] == entries[..i];
        if e.hidden || !e.recording {
          continue;
        }
        if !e.closed {
          counts := counts.(unsealed := counts.unsealed + 1);
          continue;
        }
        if e.key in rows {
          counts := counts.(existing := counts.existing + 1);
          continue;
        }
        match e.seal {
          case Exact(_) => counts := counts.(enqueued := counts.enqueued + 1);
          case Unsound => counts := counts.(incident := counts.incident + 1);
        }
        rows := rows[e.key := NewRow(e.seal)];
      }
      assert entries[..|entries|] == entries;
    }

    // ---- drain_one ----

    /** Re-reads the sealed source. */
    method CheckSource(enrolled: Option<SourceIdentity>, reply: SourceReply) returns (stop: Option<Verdict>)
      ensures forall t: Trial :: t.verdict.None? ==> t.(verdict := stop) == DeliveryRows.CheckSource(t, enrolled, reply)
    {
      match reply {
        case Sealed(identity) => stop := if Some(identity) == enrolled then None else Some(Refuse);
        case SourceInvalid => stop := Some(Refuse);
        case SourceUnavailable => stop := Some(Retry);
        case DiedReading => stop := Some(Crashed);
      }
    }

    method ObtainBundle(key: Key, env: Env) returns (stop: Option<Verdict>)
      modifies this`files
      ensures Trial(files, stop) == DeliveryRows.ObtainBundle(Trial(old(files), None), key, env)
    {
      stop := None;
      if key in files.bundles {
        match env.tool {
          case ToolOk =>
          case ToolRefused => stop := Some(Refuse);
          case ToolUnavailable => stop := Some(Retry);
          case DiedVerifying => stop := Some(Crashed);
        }
      } else {
        match env.pack {
          case Packed(bundle) => files := files.(bundles := files.bundles[key := bundle]);
          case PackRefused => stop := Some(Refuse);
          case PackUnavailable => stop := Some(Retry);
          case DiedPacking => stop := Some(Crashed);
          case DiedPacked(bundle) =>
            files := files.(bundles := files.bundles[key := bundle]);
            stop := Some(Crashed);
        }
      }
    }

    /** One durable write, which may fail or be the last thing the process does. */
    method Save(written: Files, w: WriteReply) returns (stop: Option<Verdict>)
      modifies this`files
      ensures Trial(files, stop) == Write(Trial(old(files), None), written, w)
    {
      stop := None;
      match w {
        case Written => files := written;
        case WriteFailed => stop := Some(Retry);
        case DiedBefore => stop := Some(Crashed);
        case DiedAfter =>
          files := written;
          stop := Some(Crashed);
      }
    }

    method SealTransfer(key: Key, known: Option<string>, w: Env) returns (stop: Option<Verdict>)
      requires key in files.bundles
      modifies this`files
      ensures Trial(files, stop) == DeliveryRows.SealTransfer(Trial(old(files), None), key, known, w)
    {
      var bundle := files.bundles[key];
      if !bundle.valid || (known.Some? && known.value != bundle.manifest.contentId) {
        return Some(Refuse);
      }
      if key in files.transfers {
        return if files.transfers[key] == bundle.manifest then None else Some(Refuse);
      }
      if known.Some? {
        return Some(Refuse);
      }
      stop := Save(files.(transfers := files.transfers[key := bundle.manifest]), w.transferWrite);
    }

    /** Calls the transport; a matching receipt is stored before the row is. */
    method Send(key: Key, env: Env) returns (verdict: Verdict)
      requires key in files.bundles
      modifies this`files
      ensures Trial(files, Some(verdict)) == DeliveryRows.Send(Trial(old(files), None), key, env)
    {
      var m := files.bundles[key].manifest;
      var a := HubProtocol.Deliver(CacheOf(files, m.digest), env.hub);
      files := files.(caches := files.caches[m.digest := a.cache]);
      verdict := Judge(if a.verdict.Some? then a.verdict.value else Died, m);
      if verdict.Deliver? {
        var stop := Save(files.(receipts := files.receipts[key := verdict.receipt]), env.receiptWrite);
        if stop.Some? {
          verdict := stop.value;
        }
      }
    }

    /** The body of the try statement. */
    method Attempt(key: Key, row: Row, env: Env) returns (verdict: Verdict)
      modifies this`files
      ensures Trial(files, Some(verdict)) == TryRow(old(files), config, key, row, env)
    {
      var stop := CheckSource(row.identity, env.before);
      if stop.Some? {
        return stop.value;
      }
      stop := ObtainBundle(key, env);
      if stop.Some? {
        return stop.value;
      }
      stop := CheckSource(row.identity, env.after);
      if stop.Some? {
        return stop.value;
      }
      stop := SealTransfer(key, row.contentId, env);
      if stop.Some? {
        return stop.value;
      }
      if row.identity.Some? {
        var metadata := Metadata(config.outbox, row.identity.value, config.tool);
        stop := Save(files.(metadata := files.metadata[key := metadata]), env.metadataWrite);
        if stop.Some? {
          return stop.value;
        }
      }
      verdict := Send(key, env);
    }

    /** `SELECT … WHERE status='pending' AND retry_at<=? ORDER BY id LIMIT 1`. */
    method SelectDue(now: real) returns (due: Option<Key>)
      ensures due == if DueKeys(Contents(), now) == {} then None else Some(Least(DueKeys(Contents(), now)))
    {
      due := None;
      var rest := rows.Keys;
      while rest != {}
        invariant rest <= rows.Keys
        invariant due.Some? ==> due.value in DueKeys(Contents(), now) && due.value !in rest
        invariant forall k :: k in DueKeys(Contents(), now) && k !in rest ==> due.Some? && due.value <= k
        decreases |rest|
      {
        var k :| k in rest;
        rest := rest - {k};
        if rows[k].status.Waiting? && rows[k].retryAt <= now && (due.None? || k < due.value) {
          due := Some(k);
        }
      }
    }

    /** One bounded attempt. Not `committed` means that the process died: the files written so far
        stay and the row is as before. */
    method DrainOne(now: real, env: Env) returns (tried: Option<Key>, committed: bool)
      requires Valid()
      modifies this
      ensures Valid() && RowsKept(old(Contents()), Contents()) && HeldKept(old(Contents()), Contents())
      ensures (Contents(), tried) == DeliveryRuns.DrainOne(old(Contents()), config, now, env)
      ensures committed <==> Commits(old(Contents()), config, now, env)
    {
      StepKeeps(Contents(), config, Step.Drain(now, env));
      DrainSound(Contents(), config, now, env);
      tried := SelectDue(now);
      committed := true;
      if tried.None? {
        return;
      }
      var key := tried.value;
      var row := rows[key];
      var verdict := Attempt(key, row, env);
      var next := UpdateRow(row, Trial(files, Some(verdict)), key, env, now);
      committed := env.commits && !verdict.Crashed?;
      if next.Some? {
        rows := rows[key := next.value];
      }
    }

    /** The loop of reconcile_and_drain, at most one attempt a round. */
    method Drain(turns: seq<Turn>) returns (processed: seq<Key>)
      requires Valid()
      modifies this
      ensures Valid() && RowsKept(old(Contents()), Contents())
      ensures (Contents(), processed) == DrainAll(old(Contents()), config, turns)
    {
      DrainAllKeeps(Contents(), config, turns);
      processed := [];
      assert turns[0..] == turns;
      var i := 0;
      while i < |turns|
        invariant 0 <= i <= |turns| && Valid()
        invariant DrainAll(old(Contents()), config, turns).0 == DrainAll(Contents(), config, turns[i..]).0
        invariant DrainAll(old(Contents()), config, turns).1 == processed + DrainAll(Contents(), config, turns[i..]).1
      {
        var tried, committed := DrainOne(turns[i].now, turns[i].env);
        assert turns[i..][0] == turns[i] && turns[i..][1..] == turns[i + 1..];
        if tried.None? || !committed {
          assert processed + [] == processed;
          return;
        }
        processed := processed + [tried.value];
        i := i + 1;
      }
      assert turns[i..] == [] && processed + [] == processed;
    }

    /** reconcile_and_drain: both recording roots are enrolled before anything is drained. */
    method ReconcileAndDrain(recordings: seq<Entry>, recovered: seq<Entry>, turns: seq<Turn>)
      returns (first: Counts, second: Counts, processed: seq<Key>)
      requires Valid()
      modifies this
      ensures Valid() && RowsKept(old(Contents()), Contents())
      ensures first == Tally(old(Contents()), recordings)
      ensures second == Tally(EnrollAll(old(Contents()), recordings), recovered)
      ensures var enrolled := EnrollAll(EnrollAll(old(Contents()), recordings), recovered);
              (Contents(), processed) == DrainAll(enrolled, config, turns)
    {
      ghost var start := Contents();
      first := Reconcile(recordings);
      ghost var between := Contents();
      second := Reconcile(recovered);
      RowsKeptTransitive(start, between, Contents());
      ghost var enrolled := Contents();
      processed := Drain(turns);
      RowsKeptTransitive(start, enrolled, Contents());
    }

    // ---- resume_auth ----

    /** The form that names a delivery id: a row that is not held is left unchanged. */
    method Resume(key: Key, reply: Recheck) returns (resumed: bool)
      requires Valid()
      modifies this`rows
      ensures Valid() && RowsKept(old(Contents()), Contents())
      ensures Contents() == ResumeOne(old(Contents()), config.outbox, key, reply)
      ensures resumed <==> Resumes(old(Contents()), config.outbox, key, reply)
    {
      ResumeKeeps(Contents(), config.outbox, key, reply);
      if key !in rows || !rows[key].status.AuthHeld? {
        return false;
      }
      resumed := CheckIdentity(files, config.outbox, key, rows[key], reply).Ok?;
      if resumed {
        rows := rows[key := Requeued(rows[key])];
      }
    }

    function HeldKeys(): (keys: set<Key>)
      reads this
      ensures keys == Held(Contents())
    {
      set k | k in rows && rows[k].status.AuthHeld?
    }

    /** `ORDER BY id`. */
    static method First(keys: set<Key>) returns (k: Key)
      requires keys != {}
      ensures k == Least(keys)
    {
      LeastExists(keys);
      k :| k in keys && forall j :: j in keys ==> k <= j;
    }

    /** The form that names none: every held row is checked, in id order. */
    method ResumeAuth(replies: Key -> Recheck) returns (resumed: nat, rejected: nat)
      requires Valid()
      modifies this`rows
      ensures Valid() && RowsKept(old(Contents()), Contents())
      ensures Contents() == ResumeKeys(old(Contents()), config.outbox, replies, Held(old(Contents())))
      ensures resumed == |Passing(old(Contents()), config.outbox, replies)|
      ensures resumed + rejected == |Held(old(Contents()))|
    {
      ghost var o := Contents();
      ResumeKeysKeeps(o, config, replies, Held(o));
      resumed, rejected := 0, 0;
      var rest := HeldKeys();
      RecoverFrom(o, config.outbox, replies);
      while rest != {}
        invariant Valid() && RecoveredTo(o, config.outbox, replies, rest, Contents(), resumed, rejected)
        decreases |rest|
      {
        var k := First(rest);
        RecoverNext(o, config.outbox, replies, rest, k, Contents(), resumed, rejected);
        var passed := Resume(k, replies(k));
        if passed {
          resumed := resumed + 1;
        } else {
          rejected := rejected + 1;
        }
        rest := rest - {k};
      }
      RecoverDone(o, config.outbox, replies, Contents(), resumed, rejected);
    }
  }
}
