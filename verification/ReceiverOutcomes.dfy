/** Exactly when a receive promotes, reuses, collides or sets aside, and with which trace in the quarantine. */
module ReceiverOutcomes {
  import opened Prelude
  import opened TransferFiles
  import opened DirectoryReceiver

  /** The two trees have the same files, of the same sizes and digests. */
  predicate SameTree(a: Directory, b: Directory) {
    && a.files.Keys == b.files.Keys
    && forall p :: p in a.files ==> a.files[p].bytes == b.files[p].bytes && a.files[p].digest == b.files[p].digest
  }

  lemma {:induction false} SameInventoryIff(a: Directory, b: Directory)
    requires !HasLink(a) && !HasLink(b)
    ensures Inventory(a) == Inventory(b) <==> SameTree(a, b)
  {
    var x, y := Inventory(a).value, Inventory(b).value;
    assert x.Keys == a.files.Keys && y.Keys == b.files.Keys;
    if SameTree(a, b) {
      forall p | p in x ensures p in y && x[p] == y[p] {
      }
      assert x == y;
    }
  }

  /** The stored object and the source can be compared: both are readable and without links. */
  predicate Comparable(stored: Directory, q: Request) {
    q.storedReadable && !HasLink(stored) && !HasLink(q.again)
  }

  /** A copy of the source that is still the manifest's files is accepted and put in place. */
  ghost predicate Promotable(q: Request, m: Manifest) {
    q.staged.Some? && Matches(q.staged.value, m.files) && q.accepts(q.staged.value, m) && q.renamed
  }

  /** Each status has its exact condition. */
  lemma {:induction false} StatusIff(s: Store, q: Request)
    ensures var status := Received(s, q).1;
            && (status.Promoted? <==>
                  Acceptable(q) && q.argument.manifest.contentId !in s.objects && Promotable(q, q.argument.manifest))
            && (status.Reused? <==>
                  && Acceptable(q) && q.argument.manifest.contentId in s.objects
                  && var stored := s.objects[q.argument.manifest.contentId];
                     Comparable(stored, q) && SameTree(stored, q.again) && q.accepts(stored, q.argument.manifest))
            && (status.Collision? <==>
                  && Acceptable(q) && q.argument.manifest.contentId in s.objects
                  && var stored := s.objects[q.argument.manifest.contentId];
                     Comparable(stored, q) && !SameTree(stored, q.again))
  {
    if Acceptable(q) && q.argument.manifest.contentId in s.objects {
      var stored := s.objects[q.argument.manifest.contentId];
      if Comparable(stored, q) {
        SameInventoryIff(stored, q.again);
      }
    }
  }

  /** Why a receive did not succeed. */
  ghost function ReasonFor(s: Store, q: Request): Reason {
    if !Acceptable(q) then InvalidTransfer
    else if q.argument.manifest.contentId !in s.objects then PromoteFailed
    else
      var stored := s.objects[q.argument.manifest.contentId];
      if Comparable(stored, q) && !SameTree(stored, q.again) then ContentCollision else DuplicateIntegrity
  }

  /** A success sets nothing aside. Anything else sets exactly one copy of the source aside, under its reason,
      whenever the source is a directory that can be copied, and changes nothing more. */
  lemma {:induction false} QuarantineExactly(s: Store, q: Request)
    ensures var (next, status) := Received(s, q);
            if Succeeds(status) then next.quarantine == s.quarantine
            else
              && next.objects == s.objects
              && next.quarantine == s.quarantine
                  + if q.source.Some? && q.quarantineCopy.Some?
                    then [Quarantined(ReasonFor(s, q), q.quarantineCopy.value)] else []
  {
    if Acceptable(q) && q.argument.manifest.contentId in s.objects {
      var stored := s.objects[q.argument.manifest.contentId];
      if Comparable(stored, q) {
        SameInventoryIff(stored, q.again);
      }
    }
  }

  predicate ContentId(id: string) {
    |id| == 64 && forall i :: 0 <= i < 64 ==> '0' <= id[i] <= '9' || 'a' <= id[i] <= 'f'
  }

  /** From an empty store, over any sequence of receives, every object is stored under a lower-case digest,
      and every success names an artifact type and lists each path once. */
  lemma {:induction false} StoredUnderDigests(calls: seq<Request>)
    ensures forall id :: id in Run(Store(map[], []), calls).objects ==> ContentId(id)
    ensures forall i: nat :: i < |calls| && Succeeds(StatusOf(Store(map[], []), calls, i)) ==>
              calls[i].argument.manifest.artifactType != "" && DistinctPaths(calls[i].argument.manifest.files)
  {
    if calls != [] {
      var n := |calls| - 1;
      var before := Run(Store(map[], []), calls[..n]);
      StoredUnderDigests(calls[..n]);
      StatusIff(before, calls[n]);
      ReceiptMeans(before, calls[n]);
      forall i: nat | i < |calls| && Succeeds(StatusOf(Store(map[], []), calls, i))
        ensures calls[i].argument.Given? && calls[i].argument.manifest.artifactType != ""
            && DistinctPaths(calls[i].argument.manifest.files)
      {
        ReceiptMeans(Run(Store(map[], []), calls[..i]), calls[i]);
      }
    }
  }
}
