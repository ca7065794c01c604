/** The causal forest hidden in a valid trace: every decision has one finite chain of
    parents, and the chain ends where its causal root says it does. */
module HumanLineage {
  import opened Prelude
  import opened HumanTrace

  predicate HasDecision(trace: Trace, i: nat) {
    i < |trace| && trace[i].kind.ActionAccepted? && trace[i].action.decision.Some?
  }

  function DecisionAt(trace: Trace, i: nat): Decision
    requires HasDecision(trace, i)
  {
    trace[i].action.decision.value
  }

  ghost function ParentOf(version: Option<int>, trace: Trace, i: nat): (j: nat)
    requires TraceValid(version, trace) && HasDecision(trace, i) && DecisionAt(trace, i).parent.Some?
    ensures j < i && IsParent(trace, i, j)
  {
    assert EventValid(version, trace, i);
    var j: nat :| j < i && IsParent(trace, i, j);
    j
  }

  /** The positions of a decision, its parent, its parent's parent, and so on. */
  ghost function Lineage(version: Option<int>, trace: Trace, i: nat): seq<nat>
    requires TraceValid(version, trace) && HasDecision(trace, i)
    decreases i
  {
    if DecisionAt(trace, i).parent.None? then [i] else [i] + Lineage(version, trace, ParentOf(version, trace, i))
  }

  /** `j` is an ancestor-or-self position of the same causal tree as `i`. */
  predicate SameTree(trace: Trace, i: nat, j: nat) {
    && HasDecision(trace, i) && HasDecision(trace, j)
    && trace[j].action.run == trace[i].action.run
    && DecisionAt(trace, j).causalRoot == DecisionAt(trace, i).causalRoot
  }

  /** A decision without a parent: a root that is its own causal root, or a native selector
      whose native origin is. */
  predicate IsOrigin(trace: Trace, i: nat) {
    && HasDecision(trace, i) && DecisionAt(trace, i).parent.None?
    && var d := DecisionAt(trace, i);
       || (d.kind.Root? && trace[i].action.witnessId == d.causalRoot)
       || (d.kind.NativeSelector? && d.origin.Some? && d.origin.value.actionWitness == d.causalRoot)
  }

  /** One step down the chain. */
  predicate Link(trace: Trace, i: nat, j: nat) {
    && SameTree(trace, i, j) && j < i
    && trace[j].action.sequence < trace[i].action.sequence
    && DecisionAt(trace, i).parent == Some(DecisionAt(trace, j).decisionId)
  }

  /** The chain falls strictly in position and action sequence and never leaves its tree. */
  ghost predicate Descends(trace: Trace, chain: seq<nat>) {
    && (forall k :: 0 <= k < |chain| ==> SameTree(trace, chain[0], chain[k]))
    && (forall k :: 0 <= k < |chain| - 1 ==> Link(trace, chain[k], chain[k + 1]))
  }

  lemma {:induction false} ParentLinks(version: Option<int>, trace: Trace, i: nat)
    requires TraceValid(version, trace) && HasDecision(trace, i)
    ensures DecisionAt(trace, i).parent.Some? ==> Link(trace, i, ParentOf(version, trace, i))
    ensures DecisionAt(trace, i).parent.None? ==> IsOrigin(trace, i)
  {
    assert EventValid(version, trace, i);
  }

  lemma {:induction false} PrependLink(trace: Trace, i: nat, rest: seq<nat>)
    requires rest != [] && Descends(trace, rest) && Link(trace, i, rest[0])
    ensures Descends(trace, [i] + rest)
  {
    var chain := [i] + rest;
    forall k | 0 <= k < |chain| ensures SameTree(trace, chain[0], chain[k]) {
      assert k > 0 ==> chain[k] == rest[k - 1] && SameTree(trace, rest[0], rest[k - 1]);
    }
    forall k | 0 <= k < |chain| - 1 ensures Link(trace, chain[k], chain[k + 1]) {
      assert chain[k + 1] == rest[k];
      assert k > 0 ==> chain[k] == rest[k - 1];
    }
  }

  /** Every parent chain is finite and ends at an origin of its causal root. */
  lemma {:induction false} LineageEndsAtOrigin(version: Option<int>, trace: Trace, i: nat)
    requires TraceValid(version, trace) && HasDecision(trace, i)
    ensures var chain := Lineage(version, trace, i);
            chain != [] && chain[0] == i && Descends(trace, chain) && IsOrigin(trace, chain[|chain| - 1])
    decreases i
  {
    ParentLinks(version, trace, i);
    if DecisionAt(trace, i).parent.Some? {
      var j := ParentOf(version, trace, i);
      LineageEndsAtOrigin(version, trace, j);
      PrependLink(trace, i, Lineage(version, trace, j));
    }
  }

  /** A decision id names one position, so the chain is determined by the trace. */
  lemma {:induction false} ParentUnique(version: Option<int>, trace: Trace, i: nat, j: nat, k: nat)
    requires TraceValid(version, trace) && HasDecision(trace, i) && DecisionAt(trace, i).parent.Some?
    requires j < i && IsParent(trace, i, j) && k < i && IsParent(trace, i, k)
    ensures j == k
  {
    assert EventValid(version, trace, j) && EventValid(version, trace, k);
  }

  /** Each causal root has at most one root decision. */
  lemma {:induction false} OneRootPerCausalRoot(version: Option<int>, trace: Trace, i: nat, j: nat)
    requires TraceValid(version, trace) && HasDecision(trace, i) && HasDecision(trace, j)
    requires DecisionAt(trace, i).kind.Root? && DecisionAt(trace, j).kind.Root?
    requires DecisionAt(trace, i).causalRoot == DecisionAt(trace, j).causalRoot
    ensures i == j
  {
    assert EventValid(version, trace, i) && EventValid(version, trace, j);
    if i < j {
      assert Accepts(trace[i], trace[j].action.witnessId);
    } else if j < i {
      assert Accepts(trace[j], trace[i].action.witnessId);
    }
  }
}
