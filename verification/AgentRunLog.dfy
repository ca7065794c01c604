/** The event log of an agent run and the verifier that accepts it.

    The verifier reads the log once, keeping dictionaries of what it has seen. The
    specification below has no dictionaries: it speaks of positions in the log. */
module AgentRunLog {
  import opened Prelude

  datatype Environment = Environment(fingerprint: string, protocol: string, runtimeInstance: string)

  /** `wellFormed` stands for the schema checks that read nothing but the value itself. */
  datatype Snapshot = Snapshot(
    id: string, sequence: int, protocol: string, settling: bool,
    runtimeInstance: string, fingerprint: string, wellFormed: bool)

  datatype Delivery = Delivered | NotDelivered | UnknownDelivery

  datatype Receipt = Receipt(
    requestId: string, protocol: string, delivery: Delivery, actionId: string,
    successor: Option<Snapshot>, attributedRuntime: Option<string>, wellFormed: bool)

  datatype Payload =
    | Admission(environment: Environment)
    | Decision(decisionId: string, snapshotId: string, resolved: Option<string>)
    | Received(decisionId: string, receipt: Receipt)
    | Rejected(decisionId: string, expectedRequest: string, expectedAction: Option<string>, receipt: Receipt)
    | Successor(decisionId: string, successor: Snapshot)
    | Other

  /** `wellFormed` covers the envelope, the payload schema and the run/manifest identities. */
  datatype Event = Event(sequence: int, payload: Payload, wellFormed: bool)

  type Log = seq<Event>

  function RequestId(run: string, decisionId: string): string {
    "request-" + run + "-" + decisionId
  }

  predicate SnapshotFits(s: Snapshot, e: Environment) {
    && s.wellFormed && s.protocol == e.protocol
    && s.runtimeInstance == e.runtimeInstance && s.fingerprint == e.fingerprint
  }

  predicate ReceiptFits(r: Receipt, e: Environment) {
    && r.wellFormed && r.protocol == e.protocol
    && (r.successor.Some? ==> SnapshotFits(r.successor.value, e))
    && (r.attributedRuntime.Some? ==> r.attributedRuntime.value == e.runtimeInstance)
  }

  // ---- Declarative specification ----

  predicate Decides(e: Event, d: string) {
    e.payload.Decision? && e.payload.decisionId == d
  }

  /** A receipt or a receipt rejection for `d`. */
  predicate Answers(e: Event, d: string) {
    (e.payload.Received? || e.payload.Rejected?) && e.payload.decisionId == d
  }

  predicate Succeeds(e: Event, d: string) {
    e.payload.Successor? && e.payload.decisionId == d
  }

  /** The environment admitted most recently before position `i`. */
  function EnvironmentAt(log: Log, i: nat): Option<Environment>
    requires i <= |log|
  {
    if i == 0 then None
    else if log[i - 1].payload.Admission? then Some(log[i - 1].payload.environment)
    else EnvironmentAt(log, i - 1)
  }

  predicate SameFingerprint(log: Log, i: nat, j: nat)
    requires i < |log| && j < |log|
  {
    && EnvironmentAt(log, i).Some? && EnvironmentAt(log, j).Some?
    && EnvironmentAt(log, i).value.fingerprint == EnvironmentAt(log, j).value.fingerprint
  }

  ghost predicate Fresh(log: Log, i: nat, test: (Event, string) -> bool, d: string)
    requires i < |log|
  {
    forall j: nat :: j < i ==> !test(log[j], d)
  }

  /** The receipt at `i` answers the decision at `j` in the decision's environment. */
  predicate ReceiptMatches(run: string, log: Log, i: nat, j: nat)
    requires j < i < |log| && log[i].payload.Received?
  {
    var p := log[i].payload;
    && Decides(log[j], p.decisionId)
    && SameFingerprint(log, i, j)
    && ReceiptFits(p.receipt, EnvironmentAt(log, i).value)
    && log[j].payload.resolved == Some(p.receipt.actionId)
    && p.receipt.requestId == RequestId(run, p.decisionId)
  }

  /** The rejection at `i` records a receipt that does not correlate with the decision at `j`. */
  predicate RejectionMatches(run: string, log: Log, i: nat, j: nat)
    requires j < i < |log| && log[i].payload.Rejected?
  {
    var p := log[i].payload;
    && Decides(log[j], p.decisionId)
    && EnvironmentAt(log, i).Some?
    && log[j].payload.resolved.Some?
    && p.expectedAction == log[j].payload.resolved
    && p.expectedRequest == RequestId(run, p.decisionId)
    && ReceiptFits(p.receipt, EnvironmentAt(log, i).value)
    && !(p.receipt.requestId == p.expectedRequest && p.receipt.actionId == log[j].payload.resolved.value)
  }

  /** The successor at `i` follows the delivered receipt at `k` of the decision at `j`. */
  predicate SuccessorMatches(log: Log, i: nat, j: nat, k: nat)
    requires j < i < |log| && k < i && log[i].payload.Successor?
  {
    var p := log[i].payload;
    && Decides(log[j], p.decisionId)
    && log[k].payload.Received? && log[k].payload.decisionId == p.decisionId
    && SameFingerprint(log, i, j)
    && log[k].payload.receipt.delivery.Delivered?
    && SnapshotFits(p.successor, EnvironmentAt(log, i).value)
    && p.successor.id != log[j].payload.snapshotId
    && !p.successor.settling
    && (var own := log[k].payload.receipt.successor;
        own.Some? && own.value.id == p.successor.id ==> own.value.sequence == p.successor.sequence)
  }

  ghost predicate EventAccepted(run: string, log: Log, i: nat)
    requires i < |log|
  {
    && log[i].wellFormed && log[i].sequence == i + 1
    && match log[i].payload
       case Decision(d, _, _) => EnvironmentAt(log, i).Some? && Fresh(log, i, Decides, d)
       case Received(d, _) =>
         (exists j: nat :: j < i && ReceiptMatches(run, log, i, j)) && Fresh(log, i, Answers, d)
       case Rejected(d, _, _, _) =>
         (exists j: nat :: j < i && RejectionMatches(run, log, i, j)) && Fresh(log, i, Answers, d)
       case Successor(d, _) =>
         (exists j: nat, k: nat :: j < i && k < i && SuccessorMatches(log, i, j, k)) && Fresh(log, i, Succeeds, d)
       case _ => true
  }

  ghost predicate Accepted(run: string, log: Log) {
    forall i: nat :: i < |log| ==> EventAccepted(run, log, i)
  }

  // ---- The verifier ----

  datatype DecisionRecord = DecisionRecord(snapshotId: string, resolved: Option<string>, environment: Environment)

  predicate CheckReceipt(run: string, e: Environment, d: string, receipt: Receipt,
      decisions: map<string, DecisionRecord>)
  {
    && d in decisions
    && e.fingerprint == decisions[d].environment.fingerprint
    && decisions[d].resolved.Some?
    && ReceiptFits(receipt, e)
    && receipt.requestId == RequestId(run, d)
    && receipt.actionId == decisions[d].resolved.value
  }

  predicate CheckRejection(run: string, e: Environment, d: string, expectedRequest: string,
      expectedAction: Option<string>,
                           receipt: Receipt, decisions: map<string, DecisionRecord>)
  {
    && d in decisions
    && expectedRequest == RequestId(run, d)
    && expectedAction == decisions[d].resolved
    && decisions[d].resolved.Some?
    && ReceiptFits(receipt, e)
    && !(receipt.requestId == RequestId(run, d) && receipt.actionId == decisions[d].resolved.value)
  }

  predicate CheckSuccessor(e: Environment, d: string, successor: Snapshot, decisions: map<string, DecisionRecord>,
                           receipts: map<string, Receipt>, rejected: set<string>)
  {
    && d in decisions && d in receipts
    && d !in rejected
    && e.fingerprint == decisions[d].environment.fingerprint
    && receipts[d].delivery.Delivered?
    && SnapshotFits(successor, e)
    && successor.id != decisions[d].snapshotId
    && !successor.settling
    && (var own := receipts[d].successor;
        own.Some? && own.value.id == successor.id ==> own.value.sequence == successor.sequence)
  }

  /** The dictionaries of the verifier. */
  datatype Seen = Seen(
    environment: Option<Environment>, decisions: map<string, DecisionRecord>, receipts: map<string, Receipt>,
    rejected: set<string>, successors: map<string, Snapshot>)

  ghost predicate DecisionsSeen(log: Log, n: nat, decisions: map<string, DecisionRecord>)
    requires n <= |log|
  {
    && (forall d :: d in decisions ==> exists j: nat :: j < n && Decides(log[j], d))
    && (forall j: nat :: j < n && log[j].payload.Decision? ==>
          && EnvironmentAt(log, j).Some?
          && log[j].payload.decisionId in decisions
          && decisions[log[j].payload.decisionId]
             == DecisionRecord(log[j].payload.snapshotId, log[j].payload.resolved, EnvironmentAt(log, j).value))
  }

  ghost predicate ReceiptsSeen(log: Log, n: nat, receipts: map<string, Receipt>, rejected: set<string>)
    requires n <= |log|
  {
    && (forall d :: d in receipts ==> exists j: nat :: j < n && Answers(log[j], d))
    && (forall j: nat :: j < n && (log[j].payload.Received? || log[j].payload.Rejected?) ==>
          && log[j].payload.decisionId in receipts
          && receipts[log[j].payload.decisionId] == log[j].payload.receipt
          && (log[j].payload.decisionId in rejected <==> log[j].payload.Rejected?))
    && (forall d :: d in rejected ==> d in receipts)
  }

  ghost predicate SuccessorsSeen(log: Log, n: nat, successors: map<string, Snapshot>)
    requires n <= |log|
  {
    && (forall d :: d in successors ==> exists j: nat :: j < n && Succeeds(log[j], d))
    && (forall j: nat :: j < n && log[j].payload.Successor? ==> log[j].payload.decisionId in successors)
  }

  /** The dictionaries describe exactly the events before position `n`. */
  ghost predicate Summarizes(log: Log, n: nat, seen: Seen)
    requires n <= |log|
  {
    && seen.environment == EnvironmentAt(log, n)
    && DecisionsSeen(log, n, seen.decisions)
    && ReceiptsSeen(log, n, seen.receipts, seen.rejected)
    && SuccessorsSeen(log, n, seen.successors)
  }

  /** The dictionaries that event `i` does not write are still right after it. */
  lemma {:induction false} UnrelatedEvent(log: Log, i: nat, seen: Seen)
    requires i < |log| && Summarizes(log, i, seen)
    ensures !log[i].payload.Decision? ==> DecisionsSeen(log, i + 1, seen.decisions)
    ensures !log[i].payload.Received? && !log[i].payload.Rejected? ==>
              ReceiptsSeen(log, i + 1, seen.receipts, seen.rejected)
    ensures !log[i].payload.Successor? ==> SuccessorsSeen(log, i + 1, seen.successors)
  {
    forall d | d in seen.decisions ensures exists j: nat :: j < i + 1 && Decides(log[j], d) {
      var j: nat :| j < i && Decides(log[j], d);
    }
    forall d | d in seen.receipts ensures exists j: nat :: j < i + 1 && Answers(log[j], d) {
      var j: nat :| j < i && Answers(log[j], d);
    }
    forall d | d in seen.successors ensures exists j: nat :: j < i + 1 && Succeeds(log[j], d) {
      var j: nat :| j < i && Succeeds(log[j], d);
    }
  }

  lemma {:induction false} DecisionEvent(log: Log, i: nat, seen: Seen)
    requires i < |log| && Summarizes(log, i, seen) && log[i].payload.Decision?
    ensures var d := log[i].payload.decisionId;
            && (d !in seen.decisions <==> Fresh(log, i, Decides, d))
            && (d !in seen.decisions && seen.environment.Some? ==>
                  Summarizes(log, i + 1, seen.(decisions := seen.decisions[d :=
                    DecisionRecord(log[i].payload.snapshotId, log[i].payload.resolved, seen.environment.value)])))
  {
    var d := log[i].payload.decisionId;
    UnrelatedEvent(log, i, seen);
    if d !in seen.decisions && seen.environment.Some? {
      var decisions := seen.decisions[d :=
        DecisionRecord(log[i].payload.snapshotId, log[i].payload.resolved, seen.environment.value)];
      forall x | x in decisions ensures exists j: nat :: j < i + 1 && Decides(log[j], x) {
        if x == d {
          assert Decides(log[i], x);
        } else {
          var j: nat :| j < i && Decides(log[j], x);
        }
      }
    }
  }

  /** Whether the decision was answered before. */
  lemma {:induction false} AnswerKnown(log: Log, i: nat, seen: Seen, d: string)
    requires i < |log| && ReceiptsSeen(log, i, seen.receipts, seen.rejected)
    ensures d !in seen.receipts <==> Fresh(log, i, Answers, d)
    ensures d in seen.rejected ==> d in seen.receipts
  {
  }

  /** The receipt dictionaries after a first answer. */
  lemma {:induction false} AnswerRecorded(log: Log, i: nat, receipts: map<string, Receipt>, rejected: set<string>)
    requires i < |log| && ReceiptsSeen(log, i, receipts, rejected)
    requires (log[i].payload.Received? || log[i].payload.Rejected?) && log[i].payload.decisionId !in receipts
    ensures var p := log[i].payload;
            ReceiptsSeen(log, i + 1, receipts[p.decisionId := p.receipt],
                         if p.Rejected? then rejected + {p.decisionId} else rejected)
  {
    var p := log[i].payload;
    var after := receipts[p.decisionId := p.receipt];
    forall x | x in after ensures exists j: nat :: j < i + 1 && Answers(log[j], x) {
      if x == p.decisionId {
        assert Answers(log[i], x);
      } else {
        var j: nat :| j < i && Answers(log[j], x);
      }
    }
  }

  /** Recording a first answer keeps the receipt dictionaries right. */
  lemma {:induction false} AnswerEvent(log: Log, i: nat, seen: Seen)
    requires i < |log| && Summarizes(log, i, seen) && (log[i].payload.Received? || log[i].payload.Rejected?)
    ensures var p := log[i].payload;
            && (p.decisionId !in seen.receipts <==> Fresh(log, i, Answers, p.decisionId))
            && (p.decisionId in seen.rejected ==> p.decisionId in seen.receipts)
            && (p.decisionId !in seen.receipts ==>
                  Summarizes(log, i + 1, seen.(
                    receipts := seen.receipts[p.decisionId := p.receipt],
                    rejected := if p.Rejected? then seen.rejected + {p.decisionId} else seen.rejected)))
  {
    UnrelatedEvent(log, i, seen);
    AnswerKnown(log, i, seen, log[i].payload.decisionId);
    if log[i].payload.decisionId !in seen.receipts {
      AnswerRecorded(log, i, seen.receipts, seen.rejected);
    }
  }

  lemma {:induction false} SuccessorEvent(log: Log, i: nat, seen: Seen)
    requires i < |log| && Summarizes(log, i, seen) && log[i].payload.Successor?
    ensures var p := log[i].payload;
            && (p.decisionId !in seen.successors <==> Fresh(log, i, Succeeds, p.decisionId))
            && Summarizes(log, i + 1, seen.(successors := seen.successors[p.decisionId := p.successor]))
  {
    var p := log[i].payload;
    UnrelatedEvent(log, i, seen);
    var successors := seen.successors[p.decisionId := p.successor];
    forall x | x in successors ensures exists j: nat :: j < i + 1 && Succeeds(log[j], x) {
      if x == p.decisionId {
        assert Succeeds(log[i], x);
      } else {
        var j: nat :| j < i && Succeeds(log[j], x);
      }
    }
  }

  /** The dictionary checks say the same as the positions. */
  lemma {:induction false} ReceiptChecks(run: string, log: Log, i: nat, seen: Seen)
    requires i < |log| && Summarizes(log, i, seen) && log[i].payload.Received?
    ensures (seen.environment.Some?
             && CheckReceipt(run, seen.environment.value, log[i].payload.decisionId, log[i].payload.receipt,
                 seen.decisions))
            <==> exists j: nat :: j < i && ReceiptMatches(run, log, i, j)
  {
    var p := log[i].payload;
    if p.decisionId in seen.decisions && seen.environment.Some? {
      var j: nat :| j < i && Decides(log[j], p.decisionId);
      assert CheckReceipt(run, seen.environment.value, p.decisionId, p.receipt, seen.decisions)
        <==> ReceiptMatches(run, log, i, j);
    }
  }

  lemma {:induction false} RejectionChecks(run: string, log: Log, i: nat, seen: Seen)
    requires i < |log| && Summarizes(log, i, seen) && log[i].payload.Rejected?
    ensures (seen.environment.Some?
             && var p := log[i].payload;
                CheckRejection(run, seen.environment.value, p.decisionId, p.expectedRequest, p.expectedAction,
                    p.receipt, seen.decisions))
            <==> exists j: nat :: j < i && RejectionMatches(run, log, i, j)
  {
    var p := log[i].payload;
    if p.decisionId in seen.decisions && seen.environment.Some? {
      var j: nat :| j < i && Decides(log[j], p.decisionId);
      assert CheckRejection(run, seen.environment.value, p.decisionId, p.expectedRequest, p.expectedAction,
          p.receipt, seen.decisions)
        <==> RejectionMatches(run, log, i, j);
    }
  }

  lemma {:induction false} SuccessorChecks(log: Log, i: nat, seen: Seen)
    requires i < |log| && Summarizes(log, i, seen) && log[i].payload.Successor?
    ensures (seen.environment.Some?
             && CheckSuccessor(seen.environment.value, log[i].payload.decisionId, log[i].payload.successor,
                               seen.decisions, seen.receipts, seen.rejected))
            <==> exists j: nat, k: nat :: j < i && k < i && SuccessorMatches(log, i, j, k)
  {
    var p := log[i].payload;
    if p.decisionId in seen.decisions && p.decisionId in seen.receipts && seen.environment.Some? {
      var j: nat :| j < i && Decides(log[j], p.decisionId);
      var k: nat :| k < i && Answers(log[k], p.decisionId);
      assert CheckSuccessor(seen.environment.value, p.decisionId, p.successor, seen.decisions, seen.receipts,
          seen.rejected)
        <==> SuccessorMatches(log, i, j, k);
    }
  }

  /** The checks of one loop iteration, on the dictionaries. */
  predicate Passes(run: string, log: Log, i: nat, seen: Seen)
    requires i < |log|
  {
    && log[i].wellFormed && log[i].sequence == i + 1
    && match log[i].payload
       case Decision(d, _, _) => seen.environment.Some? && d !in seen.decisions
       case Received(d, receipt) =>
         seen.environment.Some? && CheckReceipt(run, seen.environment.value, d, receipt, seen.decisions)
         && d !in seen.receipts && d !in seen.rejected
       case Rejected(d, expectedRequest, expectedAction, receipt) =>
         seen.environment.Some?
         && CheckRejection(run, seen.environment.value, d, expectedRequest, expectedAction, receipt, seen.decisions)
         && d !in seen.receipts && d !in seen.rejected
       case Successor(d, successor) =>
         seen.environment.Some?
         && CheckSuccessor(seen.environment.value, d, successor, seen.decisions, seen.receipts, seen.rejected)
         && d !in seen.successors
       case _ => true
  }

  lemma {:induction false} PassesIffAccepted(run: string, log: Log, i: nat, seen: Seen)
    requires i < |log| && Summarizes(log, i, seen)
    ensures Passes(run, log, i, seen) <==> EventAccepted(run, log, i)
  {
    match log[i].payload {
      case Decision(_, _, _) => DecisionEvent(log, i, seen);
      case Received(_, _) =>
        ReceiptChecks(run, log, i, seen);
        AnswerEvent(log, i, seen);
      case Rejected(_, _, _, _) =>
        RejectionChecks(run, log, i, seen);
        AnswerEvent(log, i, seen);
      case Successor(_, _) =>
        SuccessorChecks(log, i, seen);
        SuccessorEvent(log, i, seen);
      case _ =>
    }
  }

  /** What the loop remembers of an event that passed. */
  method Remember(run: string, log: Log, i: nat, before: Seen) returns (seen: Seen)
    requires i < |log| && Summarizes(log, i, before) && Passes(run, log, i, before)
    ensures Summarizes(log, i + 1, seen)
  {
    seen := before;
    UnrelatedEvent(log, i, seen);
    match log[i].payload {
      case Admission(admitted) =>
        seen := seen.(environment := Some(admitted));
      case Decision(d, snapshotId, resolved) =>
        DecisionEvent(log, i, seen);
        seen := seen.(decisions := seen.decisions[d := DecisionRecord(snapshotId, resolved, seen.environment.value)]);
      case Rejected(d, _, _, receipt) =>
        AnswerEvent(log, i, seen);
        seen := seen.(rejected := seen.rejected + {d}, receipts := seen.receipts[d := receipt]);
      case Received(d, receipt) =>
        AnswerEvent(log, i, seen);
        seen := seen.(receipts := seen.receipts[d := receipt]);
      case Successor(d, successor) =>
        SuccessorEvent(log, i, seen);
        seen := seen.(successors := seen.successors[d := successor]);
      case Other =>
    }
  }

  /** _verify_events accepts a log exactly when the specification holds of it. */
  method VerifyEvents(run: string, log: Log) returns (ok: bool)
    ensures ok <==> Accepted(run, log)
  {
    var seen := Seen(None, map[], map[], {}, map[]);
    var i := 0;
    while i < |log|
      invariant 0 <= i <= |log|
      invariant forall j: nat :: j < i ==> EventAccepted(run, log, j)
      invariant Summarizes(log, i, seen)
    {
      PassesIffAccepted(run, log, i, seen);
      if !Passes(run, log, i, seen) {
        return false;
      }
      seen := Remember(run, log, i, seen);
      i := i + 1;
    }
    ok := true;
  }

  // ---- What acceptance means ----

  lemma {:induction false} EnvironmentOfPrefix(log: Log, n: nat, i: nat)
    requires i <= n <= |log|
    ensures EnvironmentAt(log[..n], i) == EnvironmentAt(log, i)
  {
    if i > 0 {
      EnvironmentOfPrefix(log, n, i - 1);
    }
  }

  /** Every prefix of an accepted log is accepted: a run can be audited while it is written. */
  lemma {:induction false} AcceptancePrefixClosed(run: string, log: Log, n: nat)
    requires n <= |log| && Accepted(run, log)
    ensures Accepted(run, log[..n])
  {
    var front := log[..n];
    forall i: nat | i < n ensures EventAccepted(run, front, i) {
      assert EventAccepted(run, log, i);
      forall j: nat | j <= i ensures EnvironmentAt(front, j) == EnvironmentAt(log, j) {
        EnvironmentOfPrefix(log, n, j);
      }
      match log[i].payload {
        case Received(d, _) =>
          var j: nat :| j < i && ReceiptMatches(run, log, i, j);
          assert ReceiptMatches(run, front, i, j);
        case Rejected(d, _, _, _) =>
          var j: nat :| j < i && RejectionMatches(run, log, i, j);
          assert RejectionMatches(run, front, i, j);
        case Successor(d, _) =>
          var j: nat, k: nat :| j < i && k < i && SuccessorMatches(log, i, j, k);
          assert SuccessorMatches(front, i, j, k);
        case _ =>
      }
    }
  }

  /** Accepted receipts carry pairwise different request ids. */
  lemma {:induction false} RequestIdsDistinct(run: string, log: Log, i: nat, k: nat)
    requires Accepted(run, log) && i < k < |log|
    requires log[i].payload.Received? && log[k].payload.Received?
    ensures log[i].payload.receipt.requestId != log[k].payload.receipt.requestId
  {
    assert EventAccepted(run, log, i) && EventAccepted(run, log, k);
    var d, e := log[i].payload.decisionId, log[k].payload.decisionId;
    assert !Answers(log[i], e);
    var prefix := "request-" + run + "-";
    assert (prefix + d)[|prefix|..] == d;
    assert (prefix + e)[|prefix|..] == e;
  }

  /** An accepted successor closes a chain decision, receipt, successor in one environment,
      and it is the only successor of that receipt. */
  lemma {:induction false} SuccessorChain(run: string, log: Log, i: nat)
    requires Accepted(run, log) && i < |log| && log[i].payload.Successor?
    ensures exists j: nat, k: nat :: j < k < i && SuccessorMatches(log, i, j, k) && ReceiptMatches(run, log, k, j)
              && SameFingerprint(log, i, k)
              && (forall m: nat :: m < |log| && m != k ==> !Answers(log[m], log[i].payload.decisionId))
              && (forall m: nat :: m < |log| && m != j ==> !Decides(log[m], log[i].payload.decisionId))
              && (forall m: nat :: m < |log| && m != i ==> !Succeeds(log[m], log[i].payload.decisionId))
  {
    assert EventAccepted(run, log, i);
    var j: nat, k: nat :| j < i && k < i && SuccessorMatches(log, i, j, k);
    var d := log[i].payload.decisionId;
    assert EventAccepted(run, log, j) && EventAccepted(run, log, k);
    var j': nat :| j' < k && ReceiptMatches(run, log, k, j');
    assert Decides(log[j], d) && Decides(log[j'], d) && Answers(log[k], d) && Succeeds(log[i], d);
    assert EventAccepted(run, log, j');
    forall m: nat | m < |log| ensures m != k ==> !Answers(log[m], d) {
      assert EventAccepted(run, log, m);
    }
    forall m: nat | m < |log| ensures m != j ==> !Decides(log[m], d) {
      assert EventAccepted(run, log, m);
    }
    forall m: nat | m < |log| ensures m != i ==> !Succeeds(log[m], d) {
      assert EventAccepted(run, log, m);
    }
    assert j' == j;
  }

  predicate IsAdmitting(e: Event) {
    e.payload.Decision? && e.payload.resolved.Some?
  }

  predicate IsReceipt(e: Event) {
    e.payload.Received?
  }

  predicate IsRejection(e: Event) {
    e.payload.Rejected?
  }

  predicate IsAnswer(e: Event) {
    IsReceipt(e) || IsRejection(e)
  }

  predicate IsDelivered(e: Event) {
    e.payload.Received? && e.payload.receipt.delivery.Delivered?
  }

  predicate IsSuccessor(e: Event) {
    e.payload.Successor?
  }

  /** The decision an event is about; empty for other events. */
  function AboutDecision(e: Event): string {
    match e.payload
    case Decision(d, _, _) => d
    case Received(d, _) => d
    case Rejected(d, _, _, _) => d
    case Successor(d, _) => d
    case _ => ""
  }

  /** No decision is made, answered or succeeded twice. */
  lemma {:induction false} OneOfEach(run: string, log: Log, i: nat, j: nat)
    requires Accepted(run, log) && i < j < |log| && AboutDecision(log[i]) == AboutDecision(log[j])
    ensures !(IsAnswer(log[i]) && IsAnswer(log[j]))
    ensures !(IsAdmitting(log[i]) && IsAdmitting(log[j]))
    ensures !(IsSuccessor(log[i]) && IsSuccessor(log[j]))
    ensures !(IsDelivered(log[i]) && IsDelivered(log[j]))
  {
    assert EventAccepted(run, log, j);
    var d := AboutDecision(log[j]);
    assert IsAnswer(log[i]) ==> Answers(log[i], d);
    assert IsAdmitting(log[i]) ==> Decides(log[i], d);
    assert IsSuccessor(log[i]) ==> Succeeds(log[i], d);
  }

  lemma {:induction false} Explained(run: string, log: Log, i: nat)
    requires Accepted(run, log) && i < |log|
    ensures IsAnswer(log[i]) ==> AboutDecision(log[i]) in KeysOf(log, IsAdmitting, AboutDecision)
    ensures IsSuccessor(log[i]) ==> AboutDecision(log[i]) in KeysOf(log, IsDelivered, AboutDecision)
  {
    assert EventAccepted(run, log, i);
    if IsReceipt(log[i]) {
      var j: nat :| j < i && ReceiptMatches(run, log, i, j);
      assert IsAdmitting(log[j]) && AboutDecision(log[j]) == AboutDecision(log[i]);
    } else if IsRejection(log[i]) {
      var j: nat :| j < i && RejectionMatches(run, log, i, j);
      assert IsAdmitting(log[j]) && AboutDecision(log[j]) == AboutDecision(log[i]);
    } else if IsSuccessor(log[i]) {
      var j: nat, k: nat :| j < i && k < i && SuccessorMatches(log, i, j, k);
      assert IsDelivered(log[k]) && AboutDecision(log[k]) == AboutDecision(log[i]);
    }
  }

  /** Receipts and rejections never outnumber admitting decisions, nor successors delivered receipts. */
  lemma {:induction false} AnswersBounded(run: string, log: Log)
    requires Accepted(run, log)
    ensures CountIf(log, IsReceipt) + CountIf(log, IsRejection) <= CountIf(log, IsAdmitting)
    ensures CountIf(log, IsSuccessor) <= CountIf(log, IsDelivered)
  {
    forall i, j | 0 <= i < j < |log| && AboutDecision(log[i]) == AboutDecision(log[j])
      ensures !(IsAnswer(log[i]) && IsAnswer(log[j])) && !(IsAdmitting(log[i]) && IsAdmitting(log[j]))
      ensures !(IsSuccessor(log[i]) && IsSuccessor(log[j])) && !(IsDelivered(log[i]) && IsDelivered(log[j]))
    {
      OneOfEach(run, log, i, j);
    }
    CountSplit(log, IsAnswer, IsReceipt, IsRejection);
    CountDistinct(log, IsAnswer, AboutDecision);
    CountDistinct(log, IsAdmitting, AboutDecision);
    CountDistinct(log, IsSuccessor, AboutDecision);
    CountDistinct(log, IsDelivered, AboutDecision);
    forall i | 0 <= i < |log|
      ensures IsAnswer(log[i]) ==> AboutDecision(log[i]) in KeysOf(log, IsAdmitting, AboutDecision)
      ensures IsSuccessor(log[i]) ==> AboutDecision(log[i]) in KeysOf(log, IsDelivered, AboutDecision)
    {
      Explained(run, log, i);
    }
    SubsetSize(KeysOf(log, IsAnswer, AboutDecision), KeysOf(log, IsAdmitting, AboutDecision));
    SubsetSize(KeysOf(log, IsSuccessor, AboutDecision), KeysOf(log, IsDelivered, AboutDecision));
  }
}
