/** Offline recovery of an interrupted recording.

    Recovery may only append: every original file is a prefix of the recovered one, and the
    appended trace events close the pending actions as unknown, each exactly once. */
module InterruptedRecovery {
  import opened Prelude
  import opened HumanTrace
  import opened HumanCoverage
  import opened HumanSummary

  // ---- The file inventory ----

  type Content = string

  /** A line of `original_files`; `safe` says that the name is a plain relative path. */
  datatype Entry = Entry(name: string, bytes: int, digest: string, safe: bool)

  const JOURNAL_FILE := "run-journal.jsonl"
  const TRACE_FILE := "semantic-boundary-trace.jsonl"
  const RECOVERY_FILE := "recording-recovery.json"
  const CLOSE_FILE := "session-close-receipt.json"
  const LOCK_FILE := "recording-owner.lock"
  const BYTE_LIMIT := 1024 * 1024 * 1024

  predicate IsLog(name: string) {
    name == JOURNAL_FILE || name == TRACE_FILE
  }

  function Names(inventory: seq<Entry>): set<string> {
    set k | 0 <= k < |inventory| :: inventory[k].name
  }

  function TotalBytes(inventory: seq<Entry>): int {
    if inventory == [] then 0 else TotalBytes(inventory[..|inventory| - 1]) + inventory[|inventory| - 1].bytes
  }

  /** The file starts with the inventoried bytes, and only the two logs go on after them. */
  predicate EntryPreserved(raw: map<string, Content>, hash: Content -> string, e: Entry) {
    && e.safe && e.bytes >= 0 && e.name in raw
    && e.bytes <= |raw[e.name]|
    && hash(raw[e.name][..e.bytes]) == e.digest
    && (if IsLog(e.name) then e.bytes == 0 || raw[e.name][e.bytes - 1] == '\n' else |raw[e.name]| == e.bytes)
  }

  ghost predicate FilesPreserved(raw: map<string, Content>, hash: Content -> string, inventory: seq<Entry>) {
    && 0 < |inventory| <= 50000
    && Names(inventory) !! {RECOVERY_FILE, CLOSE_FILE}
    && raw.Keys - {LOCK_FILE} == Names(inventory) + {RECOVERY_FILE, CLOSE_FILE}
    && {JOURNAL_FILE, TRACE_FILE} <= Names(inventory)
    && (forall k :: 0 <= k < |inventory| ==> EntryPreserved(raw, hash, inventory[k]))
    && TotalBytes(inventory) <= BYTE_LIMIT
  }

  lemma {:induction false} TotalGrows(inventory: seq<Entry>, n: nat)
    requires n <= |inventory| && forall k :: 0 <= k < |inventory| ==> inventory[k].bytes >= 0
    ensures TotalBytes(inventory[..n]) <= TotalBytes(inventory)
    decreases |inventory| - n
  {
    if n < |inventory| {
      TotalGrows(inventory, n + 1);
      assert inventory[..n + 1][..n] == inventory[..n];
    } else {
      assert inventory[..n] == inventory;
    }
  }

  /** The inventory loop: every entry, and the running total of bytes. */
  method VerifyEntries(raw: map<string, Content>, hash: Content -> string, inventory: seq<Entry>) returns (ok: bool)
    ensures ok <==>
        (forall k :: 0 <= k < |inventory| ==> EntryPreserved(raw, hash, inventory[k]))
            && TotalBytes(inventory) <= BYTE_LIMIT
  {
    var total := 0;
    for k := 0 to |inventory|
      invariant forall j :: 0 <= j < k ==> EntryPreserved(raw, hash, inventory[j])
      invariant total == TotalBytes(inventory[..k]) <= BYTE_LIMIT
    {
      var e := inventory[k];
      assert inventory[..k + 1][..k] == inventory[..k];
      if !e.safe || e.bytes < 0 {
        assert !EntryPreserved(raw, hash, inventory[k]);
        return false;
      }
      total := total + e.bytes;
      if total > BYTE_LIMIT {
        if forall j :: 0 <= j < |inventory| ==> EntryPreserved(raw, hash, inventory[j]) {
          TotalGrows(inventory, k + 1);
        }
        return false;
      }
      if !EntryPreserved(raw, hash, e) {
        return false;
      }
    }
    assert inventory[..|inventory|] == inventory;
    ok := true;
  }

  /** The file checks of verify_recovery. */
  method VerifyFiles(raw: map<string, Content>, hash: Content -> string, inventory: seq<Entry>) returns (ok: bool)
    ensures ok <==> FilesPreserved(raw, hash, inventory)
  {
    if |inventory| == 0 || |inventory| > 50000 || Names(inventory) * {RECOVERY_FILE, CLOSE_FILE} != {}
       || raw.Keys - {LOCK_FILE} != Names(inventory) + {RECOVERY_FILE, CLOSE_FILE}
    {
      return false;
    }
    ok := VerifyEntries(raw, hash, inventory);
    ok := ok && {JOURNAL_FILE, TRACE_FILE} <= Names(inventory);
  }

  ghost predicate Injective(hash: Content -> string) {
    forall x, y :: hash(x) == hash(y) ==> x == y
  }

  /** The inventory describes a directory as it was when the recording was interrupted. */
  ghost predicate Describes(inventory: seq<Entry>, hash: Content -> string, before: map<string, Content>) {
    && Names(inventory) == before.Keys
    && forall k :: 0 <= k < |inventory| && inventory[k].name in before ==>
         inventory[k].bytes == |before[inventory[k].name]| && inventory[k].digest == hash(before[inventory[k].name])
  }

  /** Recovery alters nothing: the logs were only appended to, every other file is the same,
      and only the recovery and close receipts are new. */
  lemma {:induction false} RecoveryOnlyAppends(raw: map<string, Content>, hash: Content -> string,
                                               inventory: seq<Entry>, before: map<string, Content>)
    requires Injective(hash) && Describes(inventory, hash, before) && FilesPreserved(raw, hash, inventory)
    ensures raw.Keys - {LOCK_FILE} == before.Keys + {RECOVERY_FILE, CLOSE_FILE}
    ensures forall name :: name in before ==>
              name in raw && before[name] <= raw[name] && (!IsLog(name) ==> raw[name] == before[name])
  {
    forall name | name in before
      ensures name in raw && before[name] <= raw[name] && (!IsLog(name) ==> raw[name] == before[name])
    {
      var k :| 0 <= k < |inventory| && inventory[k].name == name;
      assert EntryPreserved(raw, hash, inventory[k]);
      assert raw[name][..inventory[k].bytes] == before[name];
    }
  }

  // ---- Closing the trace ----

  function TerminalWitnesses(trace: Trace): set<Witness> {
    set i | 0 <= i < |trace| && IsTerminal(trace[i]) :: WitnessOf(trace[i])
  }

  function AcceptedWitnesses(trace: Trace): set<Witness> {
    set i | 0 <= i < |trace| && IsAcceptance(trace[i]) :: WitnessOf(trace[i])
  }

  function PendingWitnesses(original: Trace): set<Witness> {
    AcceptedWitnesses(original) - TerminalWitnesses(original)
  }

  /** The event `pending[w]`: the last acceptance of `w`. */
  function LastAcceptance(original: Trace, w: Witness): Option<Event> {
    if original == [] then None
    else
      var last := original[|original| - 1];
      if Accepts(last, w) then Some(last) else LastAcceptance(original[..|original| - 1], w)
  }

  /** The appended event claims nothing but that the process was interrupted. */
  predicate ClosesAsUnknown(added: Event, accepted: Event) {
    && added.kind.TransitionUnknown? && added.interrupted
    && !added.hasCompletion && added.successor.None?
    && added.action == accepted.action
    && added.observation == accepted.observation
    && added.pre == accepted.pre
    && added.catalog == accepted.catalog
    && added.related == accepted.related
  }

  predicate AnyEvent(e: Event) {
    true
  }

  function WitnessSet(events: Trace): set<Witness> {
    set i | 0 <= i < |events| :: WitnessOf(events[i])
  }

  /** The appended event closes a pending action of the original trace. */
  ghost predicate ClosesPending(original: Trace, e: Event) {
    var accepted := LastAcceptance(original, WitnessOf(e));
    accepted.Some? && ClosesAsUnknown(e, accepted.value)
  }

  ghost predicate ClosureValid(original: Trace, added: Trace, unknownsAdded: int) {
    && unknownsAdded == |PendingWitnesses(original)| == |added|
    && WitnessSet(added) == PendingWitnesses(original)
    && forall k :: 0 <= k < |added| ==> ClosesPending(original, added[k])
  }

  lemma {:induction false} PendingHasAcceptance(original: Trace, w: Witness)
    ensures w in AcceptedWitnesses(original) <==> LastAcceptance(original, w).Some?
    ensures LastAcceptance(original, w).Some? ==> Accepts(LastAcceptance(original, w).value, w)
  {
    if original != [] {
      var n := |original| - 1;
      PendingHasAcceptance(original[..n], w);
      if Accepts(original[n], w) {
        assert WitnessOf(original[n]) == w;
      } else if w in AcceptedWitnesses(original) {
        var i :| 0 <= i < |original| && IsAcceptance(original[i]) && WitnessOf(original[i]) == w;
        assert original[..n][i] == original[i];
      } else {
        forall i | 0 <= i < n && IsAcceptance(original[..n][i]) ensures WitnessOf(original[..n][i]) != w {
          assert original[..n][i] == original[i];
        }
      }
    }
  }

  /** The `pending` dictionary. */
  method CollectPending(original: Trace) returns (pending: map<Witness, Event>)
    ensures pending.Keys == PendingWitnesses(original)
    ensures forall w :: w in pending ==> LastAcceptance(original, w) == Some(pending[w])
  {
    var terminals := set i | 0 <= i < |original| && IsTerminal(original[i]) :: WitnessOf(original[i]);
    pending := map[];
    for i := 0 to |original|
      invariant forall w :: w in pending <==> w !in terminals && LastAcceptance(original[..i], w).Some?
      invariant forall w :: w in pending ==> LastAcceptance(original[..i], w) == Some(pending[w])
    {
      assert original[..i + 1][..i] == original[..i];
      var e := original[i];
      if IsAcceptance(e) && WitnessOf(e) !in terminals {
        pending := pending[WitnessOf(e) := e];
      }
    }
    assert original[..|original|] == original;
    forall w ensures w in pending.Keys <==> w in PendingWitnesses(original) {
      PendingHasAcceptance(original, w);
    }
  }

  /** The closure check of verify_recovery, on the trace split where the original bytes end. */
  method VerifyClosure(trace: Trace, originalLines: nat, unknownsAdded: int) returns (ok: bool)
    requires originalLines <= |trace|
    ensures ok <==> ClosureValid(trace[..originalLines], trace[originalLines..], unknownsAdded)
  {
    var original, added := trace[..originalLines], trace[originalLines..];
    var pending := CollectPending(original);
    ok := unknownsAdded == |pending.Keys| && |pending.Keys| == |added| && WitnessSet(added) == pending.Keys;
    if ok {
      ok := VerifyAdded(original, added, pending);
    }
  }

  method VerifyAdded(original: Trace, added: Trace, pending: map<Witness, Event>) returns (ok: bool)
    requires WitnessSet(added) == pending.Keys
    requires forall w :: w in pending ==> LastAcceptance(original, w) == Some(pending[w])
    ensures ok <==> forall k :: 0 <= k < |added| ==> ClosesPending(original, added[k])
  {
    for k := 0 to |added|
      invariant forall j :: 0 <= j < k ==> ClosesPending(original, added[j])
    {
      assert WitnessOf(added[k]) in WitnessSet(added);
      if !ClosesAsUnknown(added[k], pending[WitnessOf(added[k])]) {
        return false;
      }
    }
    ok := true;
  }

  // ---- What a passing recovery guarantees ----

  ghost predicate AtMostOneTerminal(trace: Trace) {
    forall w :: w in AcceptedWitnesses(trace) ==> CountIf(trace, TerminalOf(w)) <= 1
  }

  lemma {:induction false} AddedAreUnknowns(original: Trace, added: Trace, unknownsAdded: int)
    requires ClosureValid(original, added, unknownsAdded)
    ensures forall e :: e in added ==> IsUnknown(e)
    ensures DistinctKeys(added, AnyEvent, WitnessOf)
  {
    forall e | e in added ensures IsUnknown(e) {
      var k :| 0 <= k < |added| && added[k] == e;
      assert ClosesPending(original, added[k]);
    }
    assert KeysOf(added, AnyEvent, WitnessOf) == WitnessSet(added);
    CountAll(added, AnyEvent);
    CountDistinct(added, AnyEvent, WitnessOf);
  }

  /** Every pending action is closed exactly once, no other action is touched. */
  lemma {:induction false} AddedClosesEachOnce(original: Trace, added: Trace, unknownsAdded: int, w: Witness)
    requires ClosureValid(original, added, unknownsAdded)
    ensures CountIf(added, TerminalOf(w)) == if w in PendingWitnesses(original) then 1 else 0
  {
    AddedAreUnknowns(original, added, unknownsAdded);
    if w in WitnessSet(added) {
      var k :| 0 <= k < |added| && WitnessOf(added[k]) == w;
      assert added[k] in added;
      CountPositive(added, TerminalOf(w), k);
      if CountIf(added, TerminalOf(w)) >= 2 {
        var i, j := TwoCounted(added, TerminalOf(w));
        assert AnyEvent(added[i]) && AnyEvent(added[j]);
      }
    } else if CountIf(added, TerminalOf(w)) >= 1 {
      var k := CountWitness(added, TerminalOf(w));
    }
  }

  lemma {:induction false} TwoCounted(s: Trace, p: Event -> bool) returns (i: nat, j: nat)
    requires CountIf(s, p) >= 2
    ensures i < j < |s| && p(s[i]) && p(s[j])
  {
    var n := |s| - 1;
    if p(s[n]) {
      i := CountWitness(s[..n], p);
      j := n;
    } else {
      i, j := TwoCounted(s[..n], p);
    }
  }

  lemma {:induction false} PendingHasNoTerminal(original: Trace, w: Witness)
    ensures w in TerminalWitnesses(original) <==> CountIf(original, TerminalOf(w)) >= 1
  {
    if w in TerminalWitnesses(original) {
      var i :| 0 <= i < |original| && IsTerminal(original[i]) && WitnessOf(original[i]) == w;
      CountPositive(original, TerminalOf(w), i);
    }
    if CountIf(original, TerminalOf(w)) >= 1 {
      var i := CountWitness(original, TerminalOf(w));
      assert IsTerminal(original[i]) && WitnessOf(original[i]) == w;
    }
  }

  lemma {:induction false} AddedAcceptsNothing(original: Trace, added: Trace, unknownsAdded: int)
    requires ClosureValid(original, added, unknownsAdded)
    ensures AcceptedWitnesses(original + added) == AcceptedWitnesses(original)
  {
    var trace := original + added;
    forall w | w in AcceptedWitnesses(trace) ensures w in AcceptedWitnesses(original) {
      var i :| 0 <= i < |trace| && IsAcceptance(trace[i]) && WitnessOf(trace[i]) == w;
      assert i < |original| && original[i] == trace[i];
    }
    forall w | w in AcceptedWitnesses(original) ensures w in AcceptedWitnesses(trace) {
      var i :| 0 <= i < |original| && IsAcceptance(original[i]) && WitnessOf(original[i]) == w;
      assert trace[i] == original[i];
    }
  }

  /** A recovered trace meets the exactly-one-disposition check exactly when its original part
      had at most one terminal per accepted action. */
  lemma {:induction false} RecoveryClosesTrace(original: Trace, added: Trace, unknownsAdded: int)
    requires ClosureValid(original, added, unknownsAdded)
    ensures ExactlyOneDisposition(original + added) <==> AtMostOneTerminal(original)
  {
    var trace := original + added;
    AddedAcceptsNothing(original, added, unknownsAdded);
    forall w | w in AcceptedWitnesses(original)
      ensures CountIf(trace, TerminalOf(w)) == 1 <==> CountIf(original, TerminalOf(w)) <= 1
    {
      CountAppend(original, added, TerminalOf(w));
      AddedClosesEachOnce(original, added, unknownsAdded, w);
      PendingHasNoTerminal(original, w);
    }
    forall i: nat | i < |trace| && trace[i].kind.ActionAccepted?
      ensures trace[i].action.witnessId in AcceptedWitnesses(original)
    {
      assert IsAcceptance(trace[i]) && WitnessOf(trace[i]) in AcceptedWitnesses(trace);
    }
    forall w | w in AcceptedWitnesses(original)
      ensures exists i: nat :: i < |trace| && trace[i].kind.ActionAccepted? && trace[i].action.witnessId == w
    {
      var i :| 0 <= i < |original| && IsAcceptance(original[i]) && WitnessOf(original[i]) == w;
      assert trace[i] == original[i];
    }
  }

  /** Unknowns rise by exactly `unknownsAdded`; every other disposition keeps its count. */
  lemma {:induction false} RecoveryCounts(original: Trace, added: Trace, unknownsAdded: int, kind: EventKind)
    requires ClosureValid(original, added, unknownsAdded)
    ensures CountIf(original + added, KindIs(kind))
         == CountIf(original, KindIs(kind)) + if kind.TransitionUnknown? then unknownsAdded else 0
  {
    AddedAreUnknowns(original, added, unknownsAdded);
    CountAppend(original, added, KindIs(kind));
    if kind.TransitionUnknown? {
      CountAll(added, KindIs(kind));
    } else if CountIf(added, KindIs(kind)) >= 1 {
      var k := CountWitness(added, KindIs(kind));
    }
  }

  /** A valid trace whose one action is proved twice passes recovery, with nothing to close, and then
      fails the disposition check. */
  lemma {:induction false} DoubleTerminalPasses() returns (original: Trace)
    ensures TraceValid(None, original) && ClosureValid(original, [], 0) && !ExactlyOneDisposition(original)
  {
    var native := NativeWitness("", None, None);
    var action := Action("w", "run", 1, "record", None, DIRECT_COMMIT, None, native, None, None);
    var accepted := Event(1, ActionAccepted, "run", action, None, None, None, None, None, false, false, true);
    var proved := accepted.(sequence := 2, kind := TransitionProved);
    var again := accepted.(sequence := 3, kind := TransitionProved);
    original := [accepted, proved, again];
    assert EventValid(None, original, 0) && EventValid(None, original, 1) && EventValid(None, original, 2) by {
      assert original[0].action == action;
    }
    CountTwo(original, TerminalOf("w"), 1, 2);
    assert original[0].kind.ActionAccepted? && original[0].action.witnessId == "w";
    assert WitnessOf(original[1]) in TerminalWitnesses(original);
    assert PendingWitnesses(original) == {} && WitnessSet([]) == {};
  }
  // ---- Single files and single events ----

  lemma {:induction false} NamesBounded(inventory: seq<Entry>)
    ensures |Names(inventory)| <= |inventory|
  {
    if inventory != [] {
      var n := |inventory| - 1;
      NamesBounded(inventory[..n]);
      assert Names(inventory) == Names(inventory[..n]) + {inventory[n].name} by {
        assert forall k :: 0 <= k < n ==> inventory[..n][k] == inventory[k];
      }
    }
  }

  lemma {:induction false} EntryWithinTotal(inventory: seq<Entry>, k: nat)
    requires k < |inventory| && forall j :: 0 <= j < |inventory| ==> inventory[j].bytes >= 0
    ensures inventory[k].bytes <= TotalBytes(inventory)
  {
    TotalGrows(inventory, k + 1);
    TotalGrows(inventory[..k + 1], 0);
    TotalPositive(inventory[..k]);
    assert inventory[..k + 1][..k] == inventory[..k];
  }

  lemma {:induction false} TotalPositive(inventory: seq<Entry>)
    requires forall j :: 0 <= j < |inventory| ==> inventory[j].bytes >= 0
    ensures TotalBytes(inventory) >= 0
  {
    if inventory != [] {
      TotalPositive(inventory[..|inventory| - 1]);
    }
  }

  /** What recovery accepts is bounded: at most 50000 files, at least the two logs, every name safe, and no file
      longer than a gigabyte. */
  lemma {:induction false} RecoveryBounded(raw: map<string, Content>, hash: Content -> string, inventory: seq<Entry>,
                                           before: map<string, Content>)
    requires Describes(inventory, hash, before) && FilesPreserved(raw, hash, inventory)
    ensures |before| <= 50000 && "run-journal.jsonl" in before && "semantic-boundary-trace.jsonl" in before
    ensures forall name :: name in before ==> |before[name]| <= 1073741824
    ensures forall k :: 0 <= k < |inventory| ==> inventory[k].safe
  {
    NamesBounded(inventory);
    assert |before| == |before.Keys|;
    assert JOURNAL_FILE in before.Keys && TRACE_FILE in before.Keys;
    forall k | 0 <= k < |inventory| ensures inventory[k].bytes >= 0 && inventory[k].safe {
      assert EntryPreserved(raw, hash, inventory[k]);
    }
    forall name | name in before ensures |before[name]| <= 1073741824 {
      var k :| 0 <= k < |inventory| && inventory[k].name == name;
      EntryWithinTotal(inventory, k);
    }
  }

  lemma {:induction false} LastAcceptanceAt(original: Trace, w: Witness) returns (a: nat)
    requires LastAcceptance(original, w).Some?
    ensures a < |original| && original[a] == LastAcceptance(original, w).value && Accepts(original[a], w)
  {
    var n := |original| - 1;
    if Accepts(original[n], w) {
      a := n;
    } else {
      a := LastAcceptanceAt(original[..n], w);
    }
  }

  /** Each appended event repeats the acceptance of an action that had no terminal event, and says of it only that
      the process was interrupted: no completion, no successor. */
  lemma {:induction false} AddedRepeatsAcceptance(original: Trace, added: Trace, unknownsAdded: int, k: nat)
    returns (a: nat)
    requires ClosureValid(original, added, unknownsAdded) && k < |added|
    ensures var e := added[k];
            && a < |original| && original[a].kind.ActionAccepted? && original[a].action == e.action
            && original[a].observation == e.observation && original[a].pre == e.pre
            && original[a].catalog == e.catalog && original[a].related == e.related
            && e.kind.TransitionUnknown? && e.interrupted && !e.hasCompletion && e.successor.None?
            && CountIf(original, TerminalOf(e.action.witnessId)) == 0
  {
    assert ClosesPending(original, added[k]);
    a := LastAcceptanceAt(original, WitnessOf(added[k]));
    assert WitnessOf(added[k]) in WitnessSet(added);
    PendingHasNoTerminal(original, WitnessOf(added[k]));
  }
  // ---- What recovery accepts ----

  /** A log goes on after finished lines; any other file is the same. */
  predicate Continues(name: string, before: Content, after: Content) {
    && before <= after
    && (if IsLog(name) then before == "" || before[|before| - 1] == '\n' else after == before)
  }

  /** The directory as it was, with the two logs continued and the two receipts added. */
  ghost predicate OnlyContinued(raw: map<string, Content>, before: map<string, Content>) {
    && raw.Keys - {LOCK_FILE} == before.Keys + {RECOVERY_FILE, CLOSE_FILE}
    && RECOVERY_FILE !in before && CLOSE_FILE !in before && JOURNAL_FILE in before && TRACE_FILE in before
    && forall name :: name in before ==> name in raw && Continues(name, before[name], raw[name])
  }

  /** For an inventory of the interrupted directory that is itself in order, the file checks pass exactly when the
      logs were continued, the receipts added and nothing else was touched. */
  lemma {:induction false} FilesPreservedIff(raw: map<string, Content>, hash: Content -> string,
                                             inventory: seq<Entry>, before: map<string, Content>)
    requires Injective(hash) && Describes(inventory, hash, before) && 0 < |inventory| <= 50000
    requires TotalBytes(inventory) <= 1073741824 && forall k :: 0 <= k < |inventory| ==> inventory[k].safe
    ensures FilesPreserved(raw, hash, inventory) <==> OnlyContinued(raw, before)
  {
    if OnlyContinued(raw, before) {
      forall k | 0 <= k < |inventory| ensures EntryPreserved(raw, hash, inventory[k]) {
        var name := inventory[k].name;
        assert name in before.Keys;
        assert raw[name][..|before[name]|] == before[name];
      }
    }
    if FilesPreserved(raw, hash, inventory) {
      RecoveryOnlyAppends(raw, hash, inventory, before);
      forall name | name in before ensures Continues(name, before[name], raw[name]) {
        var k :| 0 <= k < |inventory| && inventory[k].name == name;
        assert EntryPreserved(raw, hash, inventory[k]);
      }
    }
  }

  /** The event that closes an accepted action as interrupted. */
  function Closing(accepted: Event): Event {
    accepted.(kind := TransitionUnknown, interrupted := true, hasCompletion := false, successor := None)
  }

  lemma {:induction false} ClosingCloses(original: Trace, w: Witness) returns (closing: Event)
    requires w in PendingWitnesses(original)
    ensures WitnessOf(closing) == w && ClosesPending(original, closing)
  {
    PendingHasAcceptance(original, w);
    closing := Closing(LastAcceptance(original, w).value);
  }

  lemma {:induction false} WitnessSetSnoc(events: Trace, e: Event)
    ensures WitnessSet(events + [e]) == WitnessSet(events) + {WitnessOf(e)}
  {
    var all := events + [e];
    assert forall k :: 0 <= k < |events| ==> all[k] == events[k];
    assert all[|events|] == e && WitnessOf(all[|events|]) in WitnessSet(all);
    forall w | w in WitnessSet(events) ensures w in WitnessSet(all) {
      var k :| 0 <= k < |events| && WitnessOf(events[k]) == w;
      assert WitnessOf(all[k]) == w;
    }
  }

  lemma {:induction false} CloseAll(original: Trace, rest: set<Witness>) returns (added: Trace)
    requires rest <= PendingWitnesses(original)
    ensures |added| == |rest| && WitnessSet(added) == rest
    ensures forall e :: e in added ==> ClosesPending(original, e)
  {
    if rest == {} {
      added := [];
    } else {
      var w :| w in rest;
      var earlier := CloseAll(original, rest - {w});
      var closing := ClosingCloses(original, w);
      WitnessSetSnoc(earlier, closing);
      added := earlier + [closing];
    }
  }

  /** Every interrupted trace can be closed. */
  lemma {:induction false} ClosureExists(original: Trace) returns (added: Trace)
    ensures ClosureValid(original, added, |PendingWitnesses(original)|)
  {
    added := CloseAll(original, PendingWitnesses(original));
  }
}
