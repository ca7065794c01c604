/** The unknown/recovered ledgers of PlatformPolicyCommands.

    A command whose outcome is lost leaves its run "unknown" until a recovery
    command (Human or Stop) with a later intent is confirmed. The two dictionaries
    are updated in whatever order the HTTP responses complete. */
module PolicyLedger {
  import opened Prelude

  type Run = string

  /** `_unknownRuns` and `_recoveredRuns`. */
  datatype Ledger = Ledger(unknown: map<Run, nat>, recovered: map<Run, nat>)

  const EMPTY := Ledger(map[], map[])

  predicate HasUnknown(ledger: Ledger, run: Run) {
    run in ledger.unknown
  }

  function ValueOrDefault(m: map<Run, nat>, run: Run): nat {
    if run in m then m[run] else 0
  }

  /** The catch branch of SendAsync. */
  function RecordUnknown(ledger: Ledger, run: Run, intent: nat): Ledger {
    if run !in ledger.recovered || intent > ledger.recovered[run] then
      ledger.(unknown := ledger.unknown[run := Max(intent, ValueOrDefault(ledger.unknown, run))])
    else
      ledger
  }

  /** The confirmed-recovery branch of SendAsync. */
  function RecordRecovery(ledger: Ledger, run: Run, intent: nat): Ledger {
    var recovered := ledger.recovered[run := Max(intent, ValueOrDefault(ledger.recovered, run))];
    if run in ledger.unknown && ledger.unknown[run] <= intent then
      Ledger(ledger.unknown - {run}, recovered)
    else
      Ledger(ledger.unknown, recovered)
  }

  /** A completion that reaches the ledgers. */
  datatype Completion =
    | EndedUnknown(run: Run, intent: nat)
    | Recovered(run: Run, intent: nat)

  function Record(ledger: Ledger, c: Completion): Ledger {
    match c
    case EndedUnknown(run, intent) => RecordUnknown(ledger, run, intent)
    case Recovered(run, intent) => RecordRecovery(ledger, run, intent)
  }

  function Replay(completions: seq<Completion>): Ledger {
    if completions == [] then EMPTY
    else Record(Replay(completions[..|completions| - 1]), completions[|completions| - 1])
  }

  lemma ReplaySnoc(completions: seq<Completion>, c: Completion)
    ensures Replay(completions + [c]) == Record(Replay(completions), c)
  {
    assert (completions + [c])[..|completions|] == completions;
  }

  /** Some intent ended unknown on this run and no recovery at or after it was confirmed. */
  ghost predicate Outstanding(completions: seq<Completion>, run: Run) {
    exists u: nat :: EndedUnknown(run, u) in completions && NotRecovered(completions, run, u)
  }

  ghost predicate NotRecovered(completions: seq<Completion>, run: Run, u: nat) {
    forall v: nat :: Recovered(run, v) in completions ==> v < u
  }

  ghost predicate IntentsPositive(completions: seq<Completion>) {
    forall c :: c in completions ==> c.intent > 0
  }

  /** `m` is the largest confirmed recovery of `run`, 0 when there is none. */
  ghost predicate LargestRecovery(completions: seq<Completion>, run: Run, m: nat) {
    && (m == 0 || Recovered(run, m) in completions)
    && (forall v: nat :: Recovered(run, v) in completions ==> v <= m)
  }

  /** `m` is the largest intent of `run` that ended unknown. */
  ghost predicate LargestUnknown(completions: seq<Completion>, run: Run, m: nat) {
    && EndedUnknown(run, m) in completions
    && (forall u: nat :: EndedUnknown(run, u) in completions ==> u <= m)
  }

  /** What the two dictionaries mean, for one run. */
  ghost predicate LedgerMeans(ledger: Ledger, completions: seq<Completion>, run: Run) {
    && (run in ledger.recovered ==> ledger.recovered[run] > 0)
    && LargestRecovery(completions, run, ValueOrDefault(ledger.recovered, run))
    && (run in ledger.unknown ==>
          && LargestUnknown(completions, run, ledger.unknown[run])
          && ledger.unknown[run] > ValueOrDefault(ledger.recovered, run))
    && (run !in ledger.unknown ==>
          forall u: nat :: EndedUnknown(run, u) in completions ==> u <= ValueOrDefault(ledger.recovered, run))
  }

  lemma {:induction false} RecordMeans(ledger: Ledger, before: seq<Completion>, c: Completion, run: Run)
    requires c.intent > 0
    requires LedgerMeans(ledger, before, run)
    ensures LedgerMeans(Record(ledger, c), before + [c], run)
  {
    var after := before + [c];
    assert forall x :: x in after <==> x in before || x == c;
  }

  lemma {:induction false} ReplayMeans(completions: seq<Completion>, run: Run)
    requires IntentsPositive(completions)
    ensures LedgerMeans(Replay(completions), completions, run)
  {
    if completions != [] {
      var n := |completions| - 1;
      var before, c := completions[..n], completions[n];
      assert completions == before + [c];
      assert c in completions;
      ReplayMeans(before, run);
      RecordMeans(Replay(before), before, c, run);
    }
  }

  /** HasUnknownCommand(run) holds exactly when the largest intent that ended unknown
      exceeds every confirmed recovery, whatever the order of the completions. */
  lemma {:induction false} UnknownIffOutstanding(completions: seq<Completion>, run: Run)
    requires IntentsPositive(completions)
    ensures HasUnknown(Replay(completions), run) <==> Outstanding(completions, run)
    ensures HasUnknown(Replay(completions), run) ==>
              LargestUnknown(completions, run, Replay(completions).unknown[run])
  {
    ReplayMeans(completions, run);
    var ledger := Replay(completions);
    if run in ledger.unknown {
      assert NotRecovered(completions, run, ledger.unknown[run]);
    } else {
      forall u: nat | EndedUnknown(run, u) in completions ensures !NotRecovered(completions, run, u) {
        assert Recovered(run, ValueOrDefault(ledger.recovered, run)) in completions;
      }
    }
  }

  /** Completions of the same requests in two different orders leave the same answer. */
  lemma {:induction false} CompletionOrderIrrelevant(a: seq<Completion>, b: seq<Completion>, run: Run)
    requires IntentsPositive(a)
    requires multiset(a) == multiset(b)
    ensures HasUnknown(Replay(a), run) <==> HasUnknown(Replay(b), run)
    ensures HasUnknown(Replay(a), run) ==> Replay(a).unknown[run] == Replay(b).unknown[run]
  {
    assert forall c :: c in a <==> c in multiset(a);
    assert forall c :: c in b <==> c in multiset(b);
    assert forall c :: c in a <==> c in b;
    UnknownIffOutstanding(a, run);
    UnknownIffOutstanding(b, run);
  }
}
