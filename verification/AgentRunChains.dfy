/** What an accepted agent log says about every decision, receipt, rejection and successor: each check of
    the verifier, told as a fact about the log. */
module AgentRunChains {
  import opened Prelude
  import opened AgentRunLog

  /** Sequences count the events without a gap, from one on. */
  lemma {:induction false} SequencesCount(run: string, log: Log, i: nat, j: nat)
    requires Accepted(run, log) && i <= j < |log|
    ensures log[0].sequence == 1 && log[j].sequence - log[i].sequence == j - i
    ensures log[i].wellFormed
  {
    assert EventAccepted(run, log, 0) && EventAccepted(run, log, i) && EventAccepted(run, log, j);
  }

  /** The admission at `j` is the last one before position `i`. */
  predicate LastAdmission(log: Log, i: nat, j: nat)
    requires i <= |log|
  {
    j < i && log[j].payload.Admission? && forall k :: j < k < i ==> !log[k].payload.Admission?
  }

  /** The environment at a position is that of the last admission before it. */
  lemma {:induction false} EnvironmentIff(log: Log, i: nat, environment: Environment)
    requires i <= |log|
    ensures EnvironmentAt(log, i) == Some(environment) <==>
        exists j: nat :: LastAdmission(log, i, j) && log[j].payload.environment == environment
  {
    if i > 0 {
      if log[i - 1].payload.Admission? {
        assert LastAdmission(log, i, i - 1);
      } else {
        EnvironmentIff(log, i - 1, environment);
        if j: nat :| LastAdmission(log, i - 1, j) && log[j].payload.environment == environment {
          assert LastAdmission(log, i, j);
        }
        if j: nat :| LastAdmission(log, i, j) && log[j].payload.environment == environment {
          assert LastAdmission(log, i - 1, j);
        }
      }
    }
  }

  /** The snapshot was taken in this environment. */
  predicate TakenIn(s: Snapshot, e: Environment) {
    s.wellFormed && s.protocol == e.protocol && s.runtimeInstance == e.runtimeInstance && s.fingerprint == e.fingerprint
  }

  /** The receipt came from this environment. */
  predicate CameFrom(r: Receipt, e: Environment) {
    && r.wellFormed && r.protocol == e.protocol
    && (r.successor.Some? ==> TakenIn(r.successor.value, e))
    && (r.attributedRuntime.Some? ==> r.attributedRuntime == Some(e.runtimeInstance))
  }

  ghost predicate OnlyDecision(log: Log, d: string, j: nat) {
    j < |log| && forall m: nat :: m < |log| && Decides(log[m], d) <==> m == j
  }

  ghost predicate OnlyAnswer(log: Log, d: string, k: nat) {
    k < |log| && forall m: nat :: m < |log| && Answers(log[m], d) <==> m == k
  }

  lemma {:induction false} DecidedOnce(run: string, log: Log, d: string, j: nat)
    requires Accepted(run, log) && j < |log| && Decides(log[j], d)
    ensures OnlyDecision(log, d, j) && EnvironmentAt(log, j).Some?
  {
    assert EventAccepted(run, log, j);
    forall m: nat | m < |log| && Decides(log[m], d) ensures m == j {
      assert EventAccepted(run, log, m);
    }
  }

  lemma {:induction false} AnsweredOnce(run: string, log: Log, d: string, k: nat)
    requires Accepted(run, log) && k < |log| && Answers(log[k], d)
    ensures OnlyAnswer(log, d, k)
  {
    assert EventAccepted(run, log, k);
    forall m: nat | m < |log| && Answers(log[m], d) ensures m == k {
      assert EventAccepted(run, log, m);
    }
  }

  /** A receipt answers the one decision of its id, made before it under the same build, for the action that
      the decision resolved, under the request derived from run and decision; it came from the environment it
      was received in, and nothing else answers that decision. */
  lemma {:induction false} ReceiptChain(run: string, log: Log, i: nat) returns (j: nat)
    requires Accepted(run, log) && i < |log| && log[i].payload.Received?
    ensures var p := log[i].payload;
            && j < i && OnlyDecision(log, p.decisionId, j) && OnlyAnswer(log, p.decisionId, i)
            && log[j].payload.resolved == Some(p.receipt.actionId)
            && p.receipt.requestId == "request-" + run + "-" + p.decisionId
            && EnvironmentAt(log, i).Some? && EnvironmentAt(log, j).Some?
            && EnvironmentAt(log, i).value.fingerprint == EnvironmentAt(log, j).value.fingerprint
            && CameFrom(p.receipt, EnvironmentAt(log, i).value)
  {
    assert EventAccepted(run, log, i);
    j :| j < i && ReceiptMatches(run, log, i, j);
    DecidedOnce(run, log, log[i].payload.decisionId, j);
    AnsweredOnce(run, log, log[i].payload.decisionId, i);
  }

  /** A rejection names what its one earlier decision had asked for, and the receipt it keeps answers something
      else: another request or another action. Nothing else answers that decision. */
  lemma {:induction false} RejectionChain(run: string, log: Log, i: nat) returns (j: nat)
    requires Accepted(run, log) && i < |log| && log[i].payload.Rejected?
    ensures var p := log[i].payload;
            && j < i && OnlyDecision(log, p.decisionId, j) && OnlyAnswer(log, p.decisionId, i)
            && p.expectedAction.Some? && p.expectedAction == log[j].payload.resolved
            && p.expectedRequest == "request-" + run + "-" + p.decisionId
            && (p.receipt.requestId != p.expectedRequest || Some(p.receipt.actionId) != p.expectedAction)
            && EnvironmentAt(log, i).Some? && CameFrom(p.receipt, EnvironmentAt(log, i).value)
  {
    assert EventAccepted(run, log, i);
    j :| j < i && RejectionMatches(run, log, i, j);
    DecidedOnce(run, log, log[i].payload.decisionId, j);
    AnsweredOnce(run, log, log[i].payload.decisionId, i);
  }

  /** A successor is a settled snapshot of the environment it is logged in, under the build of its decision, and
      differs from the snapshot decided on; its decision was answered by a delivered receipt, never by a
      rejection, and where that receipt brought the same snapshot it has the same sequence. */
  lemma {:induction false} SuccessorMeans(run: string, log: Log, i: nat) returns (j: nat, k: nat)
    requires Accepted(run, log) && i < |log| && log[i].payload.Successor?
    ensures var p := log[i].payload;
            && j < k < i && OnlyDecision(log, p.decisionId, j) && OnlyAnswer(log, p.decisionId, k)
            && log[k].payload.Received? && log[k].payload.receipt.delivery.Delivered?
            && p.successor.id != log[j].payload.snapshotId && !p.successor.settling
            && EnvironmentAt(log, i).Some? && TakenIn(p.successor, EnvironmentAt(log, i).value)
            && EnvironmentAt(log, j).Some?
            && EnvironmentAt(log, i).value.fingerprint == EnvironmentAt(log, j).value.fingerprint
            && (log[k].payload.receipt.successor.Some?
                && log[k].payload.receipt.successor.value.id == p.successor.id ==>
                  log[k].payload.receipt.successor.value.sequence == p.successor.sequence)
            && (forall m: nat :: m < |log| && Succeeds(log[m], p.decisionId) ==> m == i)
  {
    SuccessorChain(run, log, i);
    j, k :| j < k < i && SuccessorMatches(log, i, j, k) && ReceiptMatches(run, log, k, j)
         && SameFingerprint(log, i, k)
         && (forall m: nat :: m < |log| && m != i ==> !Succeeds(log[m], log[i].payload.decisionId));
    DecidedOnce(run, log, log[i].payload.decisionId, j);
    AnsweredOnce(run, log, log[i].payload.decisionId, k);
  }
  // ---- Which event may come next ----

  /** The environment in force before position `i`. */
  ghost predicate InForce(log: Log, i: nat, environment: Environment)
    requires i <= |log|
  {
    exists j: nat :: LastAdmission(log, i, j) && log[j].payload.environment == environment
  }

  /** The decision `d` at `j` resolved an action, under the same build as `environment`. */
  ghost predicate DecidedUnder(log: Log, d: string, j: nat, environment: Environment) {
    && j < |log| && Decides(log[j], d)
    && exists made :: InForce(log, j, made) && made.fingerprint == environment.fingerprint
  }

  ghost predicate Unanswered(log: Log, d: string) {
    forall m: nat :: m < |log| ==> !Answers(log[m], d)
  }

  ghost predicate MayReceive(run: string, log: Log, d: string, r: Receipt, e: Environment) {
    && Unanswered(log, d) && CameFrom(r, e) && r.requestId == "request-" + run + "-" + d
    && exists j: nat :: DecidedUnder(log, d, j, e) && log[j].payload.resolved == Some(r.actionId)
  }

  ghost predicate MayReject(run: string, log: Log, d: string, request: string, action: Option<string>, r: Receipt,
      e: Environment)
  {
    && Unanswered(log, d) && CameFrom(r, e) && request == "request-" + run + "-" + d
    && action.Some? && (r.requestId != request || r.actionId != action.value)
    && exists j: nat :: j < |log| && Decides(log[j], d) && log[j].payload.resolved == action
  }

  /** The successor fits the decision at `j` and its delivered receipt at `k`. */
  ghost predicate FitsChain(log: Log, d: string, s: Snapshot, j: nat, k: nat) {
    && j < |log| && k < |log| && Decides(log[j], d) && s.id != log[j].payload.snapshotId
    && log[k].payload.Received? && log[k].payload.decisionId == d && log[k].payload.receipt.delivery.Delivered?
    && (log[k].payload.receipt.successor.Some? && log[k].payload.receipt.successor.value.id == s.id ==>
          log[k].payload.receipt.successor.value.sequence == s.sequence)
  }

  ghost predicate MaySucceed(log: Log, d: string, s: Snapshot, e: Environment) {
    && (forall m: nat :: m < |log| ==> !Succeeds(log[m], d)) && TakenIn(s, e) && !s.settling
    && exists j: nat, k: nat :: DecidedUnder(log, d, j, e) && FitsChain(log, d, s, j, k)
  }

  /** The event may come next. */
  ghost predicate MayFollow(run: string, log: Log, e: Event) {
    && e.wellFormed && e.sequence == |log| + 1
    && match e.payload
       case Decision(d, _, _) =>
         (exists env :: InForce(log, |log|, env)) && forall m: nat :: m < |log| ==> !Decides(log[m], d)
       case Received(d, r) => exists env :: InForce(log, |log|, env) && MayReceive(run, log, d, r, env)
       case Rejected(d, request, action, r) =>
         exists env :: InForce(log, |log|, env) && MayReject(run, log, d, request, action, r, env)
       case Successor(d, s) => exists env :: InForce(log, |log|, env) && MaySucceed(log, d, s, env)
       case _ => true
  }

  lemma {:induction false} InForceIff(log: Log, e: Event, i: nat, environment: Environment)
    requires i <= |log|
    ensures InForce(log, i, environment) <==> EnvironmentAt(log + [e], i) == Some(environment)
  {
    EnvironmentIff(log, i, environment);
    assert (log + [e])[..|log|] == log;
    EnvironmentOfPrefix(log + [e], |log|, i);
  }

  lemma {:induction false} DecidedUnderIff(log: Log, e: Event, d: string, j: nat, environment: Environment)
    requires EnvironmentAt(log + [e], |log|) == Some(environment)
    ensures DecidedUnder(log, d, j, environment) <==>
        j < |log| && Decides((log + [e])[j], d) && SameFingerprint(log + [e], |log|, j)
  {
    if j < |log| {
      forall made ensures InForce(log, j, made) <==> EnvironmentAt(log + [e], j) == Some(made) {
        InForceIff(log, e, j, made);
      }
    }
  }

  lemma {:induction false} ReceivedIff(run: string, log: Log, e: Event, environment: Environment)
    requires e.payload.Received? && EnvironmentAt(log + [e], |log|) == Some(environment)
    ensures MayReceive(run, log, e.payload.decisionId, e.payload.receipt, environment) <==>
        && (exists j: nat :: j < |log| && ReceiptMatches(run, log + [e], |log|, j))
        && AgentRunLog.Fresh(log + [e], |log|, Answers, e.payload.decisionId)
  {
    var all, d := log + [e], e.payload.decisionId;
    forall j: nat | j < |log|
      ensures DecidedUnder(log, d, j, environment) <==> Decides(all[j], d) && SameFingerprint(all, |log|, j)
    {
      DecidedUnderIff(log, e, d, j, environment);
    }
    assert forall j: nat :: j < |log| ==> all[j] == log[j];
    if j: nat :| DecidedUnder(log, d, j, environment) && log[j].payload.resolved == Some(e.payload.receipt.actionId) {
      assert MayReceive(run, log, d, e.payload.receipt, environment) ==> ReceiptMatches(run, all, |log|, j);
    }
    if j: nat :| j < |log| && ReceiptMatches(run, all, |log|, j) {
      assert DecidedUnder(log, d, j, environment);
    }
  }

  lemma {:induction false} RejectedIff(run: string, log: Log, e: Event, environment: Environment)
    requires e.payload.Rejected? && EnvironmentAt(log + [e], |log|) == Some(environment)
    ensures var p := e.payload;
            MayReject(run, log, p.decisionId, p.expectedRequest, p.expectedAction, p.receipt, environment) <==>
                && (exists j: nat :: j < |log| && RejectionMatches(run, log + [e], |log|, j))
                && AgentRunLog.Fresh(log + [e], |log|, Answers, p.decisionId)
  {
    var all, p := log + [e], e.payload;
    assert forall j: nat :: j < |log| ==> all[j] == log[j];
    if j: nat :| j < |log| && Decides(log[j], p.decisionId) && log[j].payload.resolved == p.expectedAction {
      assert MayReject(run, log, p.decisionId, p.expectedRequest, p.expectedAction, p.receipt, environment) ==>
          RejectionMatches(run, all, |log|, j);
    }
  }

  lemma {:induction false} SucceededIff(log: Log, e: Event, environment: Environment)
    requires e.payload.Successor? && EnvironmentAt(log + [e], |log|) == Some(environment)
    ensures MaySucceed(log, e.payload.decisionId, e.payload.successor, environment) <==>
        && (exists j: nat, k: nat :: j < |log| && k < |log| && SuccessorMatches(log + [e], |log|, j, k))
        && AgentRunLog.Fresh(log + [e], |log|, Succeeds, e.payload.decisionId)
  {
    var all, d, s := log + [e], e.payload.decisionId, e.payload.successor;
    forall j: nat | j < |log|
      ensures DecidedUnder(log, d, j, environment) <==> Decides(all[j], d) && SameFingerprint(all, |log|, j)
    {
      DecidedUnderIff(log, e, d, j, environment);
    }
    assert forall j: nat :: j < |log| ==> all[j] == log[j];
    if j: nat, k: nat :| DecidedUnder(log, d, j, environment) && FitsChain(log, d, s, j, k) {
      assert MaySucceed(log, d, s, environment) ==> SuccessorMatches(all, |log|, j, k);
    }
    if j: nat, k: nat :| j < |log| && k < |log| && SuccessorMatches(all, |log|, j, k) {
      assert DecidedUnder(log, d, j, environment) && FitsChain(log, d, s, j, k);
    }
  }

  lemma {:induction false} FollowsIff(run: string, log: Log, e: Event)
    ensures EventAccepted(run, log + [e], |log|) <==> MayFollow(run, log, e)
  {
    var all := log + [e];
    forall env ensures InForce(log, |log|, env) <==> EnvironmentAt(all, |log|) == Some(env) {
      InForceIff(log, e, |log|, env);
    }
    assert forall j: nat :: j < |log| ==> all[j] == log[j];
    if EnvironmentAt(all, |log|).Some? {
      var env := EnvironmentAt(all, |log|).value;
      match e.payload {
        case Received(_, _) => ReceivedIff(run, log, e, env);
        case Rejected(_, _, _, _) => RejectedIff(run, log, e, env);
        case Successor(_, _) => SucceededIff(log, e, env);
        case _ =>
      }
    }
  }

  /** A log with one more event is accepted exactly when the log is and the event may come next. With the empty
      log, which is accepted, this says of every log whether it is accepted. */
  lemma {:induction false} AcceptedIff(run: string, log: Log, e: Event)
    ensures Accepted(run, log + [e]) <==> Accepted(run, log) && MayFollow(run, log, e)
    ensures Accepted(run, [])
  {
    var all := log + [e];
    FollowsIff(run, log, e);
    assert all[..|log|] == log;
    if Accepted(run, all) {
      AcceptancePrefixClosed(run, all, |log|);
      assert EventAccepted(run, all, |log|);
    }
    if Accepted(run, log) && MayFollow(run, log, e) {
      forall i: nat | i < |all| ensures EventAccepted(run, all, i) {
        if i < |log| {
          StillAccepted(run, log, e, i);
        }
      }
    }
  }

  /** What was accepted stays so when the log goes on. */
  lemma {:induction false} StillAccepted(run: string, log: Log, e: Event, i: nat)
    requires Accepted(run, log) && i < |log|
    ensures EventAccepted(run, log + [e], i)
  {
    var all := log + [e];
    assert EventAccepted(run, log, i) && all[..|log|] == log;
    forall j: nat | j <= i ensures EnvironmentAt(log, j) == EnvironmentAt(all, j) {
      EnvironmentOfPrefix(all, |log|, j);
    }
    match log[i].payload {
      case Received(d, _) =>
        var j: nat :| j < i && ReceiptMatches(run, log, i, j);
        assert ReceiptMatches(run, all, i, j);
      case Rejected(d, _, _, _) =>
        var j: nat :| j < i && RejectionMatches(run, log, i, j);
        assert RejectionMatches(run, all, i, j);
      case Successor(d, _) =>
        var j: nat, k: nat :| j < i && k < i && SuccessorMatches(log, i, j, k);
        assert SuccessorMatches(all, i, j, k);
      case _ =>
    }
  }
}
