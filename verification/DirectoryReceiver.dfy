/** The receiver's object store and quarantine. */
module DirectoryReceiver {
  import opened Prelude
  import opened StringOrder
  import opened TransferFiles

  /** The bytes of a file, by length and digest; `link` says that the path is a symbolic link. */
  datatype Entry = Entry(bytes: nat, digest: string, link: bool)

  /** A directory tree; `strayLink` says that it has a link to something other than a file. */
  datatype Directory = Directory(files: map<string, Entry>, strayLink: bool)

  datatype Manifest = Manifest(contentId: string, artifactType: string, files: seq<File>)

  const PATH: File -> string := (f: File) => f.path

  /** DirectoryTransferManifest.validate. */
  predicate ValidManifest(m: Manifest) {
    && |m.contentId| == 64 && (forall i :: 0 <= i < 64 ==> HexDigit(m.contentId[i]))
    && m.artifactType != ""
    && DistinctPaths(m.files) && SortedBy(m.files, PATH)
  }

  predicate HasLink(d: Directory) {
    d.strayLink || exists p :: p in d.files && d.files[p].link
  }

  predicate SameFile(d: Directory, f: File) {
    f.path in d.files && d.files[f.path].bytes == f.bytes && d.files[f.path].digest == f.digest
  }

  /** _validate_source: links to files count as files. */
  ghost predicate Matches(d: Directory, files: seq<File>) {
    && d.files.Keys == Paths(files)
    && forall f :: f in files ==> SameFile(d, f)
  }

  /** _inventory; None when a link makes it raise. */
  function Inventory(d: Directory): Option<map<string, (nat, string)>> {
    if HasLink(d) then None else Some(map p | p in d.files :: (d.files[p].bytes, d.files[p].digest))
  }

  datatype Reason = InvalidTransfer | ContentCollision | DuplicateIntegrity | PromoteFailed

  datatype Quarantined = Quarantined(reason: Reason, copy: Directory)

  datatype Store = Store(objects: map<string, Directory>, quarantine: seq<Quarantined>)

  datatype Status = Promoted | Reused | Collision | Held

  datatype TransferReceipt = TransferReceipt(status: Status, contentId: string)

  datatype ManifestArgument = Given(manifest: Manifest) | Unreadable

  /** One call: the source as it is validated, as it is read again, and the outside's answers.
      `staged` is what copying the source yields; None when copying raises. */
  datatype Request = Request(
    argument: ManifestArgument, source: Option<Directory>, again: Directory, storedReadable: bool,
    staged: Option<Directory>, accepts: (Directory, Manifest) -> bool, renamed: bool, quarantineCopy: Option<Directory>)

  /** Copies have no links: copying raises at the first one. */
  ghost predicate Honest(q: Request) {
    && (q.staged.Some? ==> !HasLink(q.staged.value))
    && (q.quarantineCopy.Some? ==> !HasLink(q.quarantineCopy.value))
  }

  ghost predicate Acceptable(q: Request) {
    && q.argument.Given? && ValidManifest(q.argument.manifest)
    && q.source.Some? && Matches(q.source.value, q.argument.manifest.files)
  }

  const UNKNOWN_ID := "0000000000000000000000000000000000000000000000000000000000000000"

  function ReportedId(q: Request): string {
    if q.argument.Given? then q.argument.manifest.contentId else UNKNOWN_ID
  }

  /** _quarantine: best effort, and only for a source that is a directory. */
  function PutAside(s: Store, q: Request, reason: Reason): Store {
    if q.source.Some? && q.quarantineCopy.Some? then
      s.(quarantine := s.quarantine + [Quarantined(reason, q.quarantineCopy.value)])
    else s
  }

  ghost function Received(s: Store, q: Request): (Store, Status) {
    if !Acceptable(q) then (PutAside(s, q, InvalidTransfer), Held)
    else
      var m := q.argument.manifest;
      if m.contentId in s.objects then
        var stored := s.objects[m.contentId];
        if !q.storedReadable || Inventory(stored).None? || Inventory(q.again).None? then
          (PutAside(s, q, DuplicateIntegrity), Held)
        else if Inventory(stored) != Inventory(q.again) then (PutAside(s, q, ContentCollision), Collision)
        else if !q.accepts(stored, m) then (PutAside(s, q, DuplicateIntegrity), Held)
        else (s, Reused)
      else if q.staged.Some? && Matches(q.staged.value, m.files) && q.accepts(q.staged.value, m) && q.renamed then
        (s.(objects := s.objects[m.contentId := q.staged.value]), Promoted)
      else (PutAside(s, q, PromoteFailed), Held)
  }

  /** Stored objects stay as they are, and only a promotion adds one. */
  ghost predicate Grows(before: Store, after: Store) {
    && (forall id :: id in before.objects ==> id in after.objects && after.objects[id] == before.objects[id])
    && before.quarantine <= after.quarantine
  }

  predicate Succeeds(status: Status) {
    status.Promoted? || status.Reused?
  }

  /** What one call does: success means that the object is the manifest's files and was accepted;
      anything else leaves the objects alone and sets at most one copy aside. */
  lemma {:induction false} ReceiptMeans(s: Store, q: Request)
    ensures var (next, status) := Received(s, q);
            && Grows(s, next)
            && (Succeeds(status) ==>
                  var m := q.argument.manifest;
                  && Acceptable(q) && next.quarantine == s.quarantine
                  && m.contentId in next.objects && q.accepts(next.objects[m.contentId], m)
                  && (Honest(q) ==> !HasLink(next.objects[m.contentId]))
                  && (status.Promoted? ==> m.contentId !in s.objects && Matches(next.objects[m.contentId], m.files))
                  && (status.Reused? ==>
                        next == s && (Matches(next.objects[m.contentId], m.files) <==> Matches(q.again, m.files))))
            && (!Succeeds(status) ==> next.objects == s.objects && |next.quarantine| <= |s.quarantine| + 1)
            && next.objects.Keys <= s.objects.Keys + (if status.Promoted? then {q.argument.manifest.contentId} else {})
  {
    var (next, status) := Received(s, q);
    if status.Reused? {
      SameInventory(s.objects[q.argument.manifest.contentId], q.again, q.argument.manifest.files);
    }
  }

  lemma SameInventory(a: Directory, b: Directory, files: seq<File>)
    requires Inventory(a).Some? && Inventory(a) == Inventory(b)
    ensures Matches(a, files) <==> Matches(b, files)
  {
    var x, y := Inventory(a).value, Inventory(b).value;
    assert x.Keys == a.files.Keys && y.Keys == b.files.Keys;
    forall p | p in a.files
      ensures p in b.files && a.files[p].bytes == b.files[p].bytes && a.files[p].digest == b.files[p].digest
    {
      assert x[p] == y[p];
    }
  }

  /** Two directories that match one file list have the same inventory. */
  lemma MatchingInventories(a: Directory, b: Directory, files: seq<File>)
    requires Matches(a, files) && Matches(b, files) && !HasLink(a) && !HasLink(b)
    ensures Inventory(a) == Inventory(b)
  {
    var x, y := Inventory(a).value, Inventory(b).value;
    assert x.Keys == a.files.Keys == Paths(files) == b.files.Keys == y.Keys;
    forall p | p in x ensures x[p] == y[p] {
      var f :| f in files && f.path == p;
      assert SameFile(a, f) && SameFile(b, f);
    }
    assert x == y;
  }

  /** The source did not change between the two readings of one call. */
  predicate Settled(q: Request) {
    q.source == Some(q.again)
  }

  /** With a settled source and readable, link-free directories, a collision is reported exactly when the
      stored object is not the manifest's files; the store is then left as it was, bar the copy set aside. */
  lemma {:induction false} CollisionIff(s: Store, q: Request)
    requires Acceptable(q) && Settled(q) && q.argument.manifest.contentId in s.objects
    requires q.storedReadable && !HasLink(q.again) && !HasLink(s.objects[q.argument.manifest.contentId])
    ensures Received(s, q).1.Collision? <==>
        !Matches(s.objects[q.argument.manifest.contentId], q.argument.manifest.files)
    ensures Received(s, q).1.Reused? <==>
              Matches(s.objects[q.argument.manifest.contentId], q.argument.manifest.files)
              && q.accepts(s.objects[q.argument.manifest.contentId], q.argument.manifest)
  {
    var stored, files := s.objects[q.argument.manifest.contentId], q.argument.manifest.files;
    if Matches(stored, files) {
      MatchingInventories(stored, q.again, files);
    } else if Inventory(stored) == Inventory(q.again) {
      SameInventory(stored, q.again, files);
    }
  }

  /** A source that changes between the two readings can be reported as reused although the stored
      object is not the manifest's files. */
  lemma {:induction false} ReusedCanDiffer() returns (s: Store, q: Request)
    ensures Honest(q) && Acceptable(q) && Received(s, q) == (s, Reused)
    ensures var m := q.argument.manifest; m.contentId in s.objects && !Matches(s.objects[m.contentId], m.files)
  {
    var m := Manifest(seq(64, _ => '0'), "human-session-bundle", []);
    var validated, stored := Directory(map[], false), Directory(map["extra" := Entry(1, "digest", false)], false);
    s := Store(map[m.contentId := stored], []);
    q := Request(Given(m), Some(validated), stored, true, None, (d, x) => true, false, None);
    assert Paths(m.files) == {} && "extra" in stored.files.Keys;
  }

  // ---- Runs ----

  ghost function Run(s: Store, calls: seq<Request>): Store {
    if calls == [] then s else Received(Run(s, calls[..|calls| - 1]), calls[|calls| - 1]).0
  }

  /** The status of call `i` of a run. */
  ghost function StatusOf(s: Store, calls: seq<Request>, i: nat): Status
    requires i < |calls|
  {
    Received(Run(s, calls[..i]), calls[i]).1
  }

  lemma {:induction false} RunGrows(s: Store, calls: seq<Request>, i: nat)
    requires i <= |calls|
    ensures Grows(Run(s, calls[..i]), Run(s, calls))
  {
    if i == |calls| {
      assert calls[..i] == calls;
    } else {
      var n := |calls| - 1;
      RunGrows(s, calls[..n], i);
      assert calls[..n][..i] == calls[..i];
    }
  }

  /** Call `i` received its manifest's files: a promotion always does, because the copy is validated
      again; a reuse does when the source still matched as it was read the second time. */
  ghost predicate Faithful(s: Store, calls: seq<Request>, i: nat)
    requires i < |calls| && calls[i].argument.Given?
  {
    StatusOf(s, calls, i).Promoted? || Matches(calls[i].again, calls[i].argument.manifest.files)
  }

  /** A success is visible for ever: at any later point its object is there and was accepted, and it is
      the manifest's files exactly when the call received those. */
  lemma {:induction false} SuccessLasts(s: Store, calls: seq<Request>, i: nat)
    requires i < |calls| && Succeeds(StatusOf(s, calls, i))
    ensures Acceptable(calls[i])
    ensures var m, objects := calls[i].argument.manifest, Run(s, calls).objects;
            && m.contentId in objects && calls[i].accepts(objects[m.contentId], m)
            && (Matches(objects[m.contentId], m.files) <==> Faithful(s, calls, i))
  {
    ReceiptMeans(Run(s, calls[..i]), calls[i]);
    assert calls[..i + 1][..i] == calls[..i];
    RunGrows(s, calls, i + 1);
  }

  lemma SameFileOf(d: Directory, a: seq<File>, b: seq<File>, f: File)
    requires Matches(d, a) && Matches(d, b) && f in a
    ensures f in b
  {
    assert SameFile(d, f) && f.path in Paths(a) && Paths(a) == Paths(b);
    var g :| g in b && g.path == f.path;
    assert SameFile(d, g);
  }

  /** A directory determines the sorted file list it matches. */
  lemma {:induction false} MatchUnique(d: Directory, a: Manifest, b: Manifest)
    requires ValidManifest(a) && ValidManifest(b) && Matches(d, a.files) && Matches(d, b.files)
    ensures a.files == b.files
  {
    forall f ensures multiset(a.files)[f] == multiset(b.files)[f] {
      OnceEach(a.files, f);
      OnceEach(b.files, f);
      if f in a.files {
        SameFileOf(d, a.files, b.files, f);
      } else if f in b.files {
        SameFileOf(d, b.files, a.files, f);
      }
    }
    SortedByUnique(a.files, b.files, PATH);
  }

  /** Two successes for one content id have the same sorted file list exactly when the source of the
      second, as it was validated, is the first's files; and when the first received its manifest's
      files, exactly when the second did too. */
  lemma {:induction false} SameContentSameFiles(s: Store, calls: seq<Request>, i: nat, j: nat)
    requires i < |calls| && j < |calls|
    requires Succeeds(StatusOf(s, calls, i)) && Succeeds(StatusOf(s, calls, j))
    requires ReportedId(calls[i]) == ReportedId(calls[j])
    ensures calls[i].argument.Given? && calls[j].argument.Given?
    ensures Faithful(s, calls, i) ==>
              (calls[i].argument.manifest.files == calls[j].argument.manifest.files <==> Faithful(s, calls, j))
    ensures calls[j].source.Some?
    ensures calls[i].argument.manifest.files == calls[j].argument.manifest.files
       <==> Matches(calls[j].source.value, calls[i].argument.manifest.files)
  {
    SuccessLasts(s, calls, i);
    SuccessLasts(s, calls, j);
    var m := calls[i].argument.manifest;
    if Matches(calls[j].source.value, m.files) {
      MatchUnique(calls[j].source.value, m, calls[j].argument.manifest);
    }
    if Faithful(s, calls, i) && Faithful(s, calls, j) {
      MatchUnique(Run(s, calls).objects[m.contentId], m, calls[j].argument.manifest);
    }
  }

  /** From an empty store, a promotion and then a reuse whose source changes between its two readings
      both succeed for one content id, with different file lists. */
  lemma {:induction false} SameContentCanDiffer() returns (calls: seq<Request>)
    ensures |calls| == 2 && (forall k :: 0 <= k < |calls| ==> Honest(calls[k]))
    ensures var s := Store(map[], []);
            && StatusOf(s, calls, 0).Promoted? && StatusOf(s, calls, 1).Reused?
            && ReportedId(calls[0]) == ReportedId(calls[1])
            && calls[0].argument.manifest.files != calls[1].argument.manifest.files
  {
    var id, file := seq(64, _ => '0'), File("a", 1, "d");
    var first, second := Manifest(id, "human-session-bundle", [file]), Manifest(id, "human-session-bundle", []);
    var tree, none := Directory(map["a" := Entry(1, "d", false)], false), Directory(map[], false);
    var promote := Request(Given(first), Some(tree), tree, true, Some(tree), (d, x) => true, true, None);
    var reuse := Request(Given(second), Some(none), tree, true, None, (d, x) => true, false, None);
    calls := [promote, reuse];
    assert Paths([file]) == {"a"} by {
      assert file in [file];
    }
    assert Paths(second.files) == {};
    assert Matches(tree, first.files) && Matches(none, second.files);
    var stored := Store(map[id := tree], []);
    assert Received(Store(map[], []), promote) == (stored, Promoted);
    assert calls[..1] == [promote] && calls[..0] == [];
    assert Run(Store(map[], []), [promote]) == stored by {
      assert [promote][..0] == [];
    }
  }

  // ---- DirectoryReceiver itself ----

  class DirectoryReceiver {
    var objects: map<string, Directory>
    var quarantine: seq<Quarantined>

    ghost function Contents(): Store
      reads this
    {
      Store(objects, quarantine)
    }

    constructor (store: map<string, Directory>)
      ensures Contents() == Store(store, [])
    {
      objects, quarantine := store, [];
    }

    /** _validate_source: the same paths first, then every size and digest. */
    method ValidateSource(source: Directory, files: seq<File>) returns (ok: bool)
      ensures ok <==> Matches(source, files)
    {
      var expected := set f | f in files :: f.path;
      ok := source.files.Keys == expected;
      for i := 0 to |files|
        invariant ok ==> source.files.Keys == Paths(files) && forall k :: 0 <= k < i ==> SameFile(source, files[k])
        invariant !ok ==> !Matches(source, files)
      {
        assert files[i].path in Paths(files);
        ok := ok && SameFile(source, files[i]);
      }
    }

    method Quarantine(q: Request, reason: Reason)
      modifies this`quarantine
      ensures Contents() == PutAside(old(Contents()), q, reason)
    {
      if q.source.Some? && q.quarantineCopy.Some? {
        quarantine := quarantine + [Quarantined(reason, q.quarantineCopy.value)];
      }
    }

    method Receive(q: Request) returns (receipt: TransferReceipt)
      modifies this
      ensures (Contents(), receipt.status) == Received(old(Contents()), q) && receipt.contentId == ReportedId(q)
    {
      receipt := TransferReceipt(Held, ReportedId(q));
      var matches := false;
      if q.argument.Given? && ValidManifest(q.argument.manifest) && q.source.Some? {
        matches := ValidateSource(q.source.value, q.argument.manifest.files);
      }
      if !matches {
        Quarantine(q, InvalidTransfer);
        return;
      }
      var m := q.argument.manifest;
      if m.contentId in objects {
        var stored := objects[m.contentId];
        if !q.storedReadable || HasLink(stored) || HasLink(q.again) {
          Quarantine(q, DuplicateIntegrity);
        } else if Inventory(stored) != Inventory(q.again) {
          Quarantine(q, ContentCollision);
          receipt := receipt.(status := Collision);
        } else if !q.accepts(stored, m) {
          Quarantine(q, DuplicateIntegrity);
        } else {
          receipt := receipt.(status := Reused);
        }
        return;
      }
      var ok := false;
      if q.staged.Some? {
        ok := ValidateSource(q.staged.value, m.files);
        ok := ok && q.accepts(q.staged.value, m) && q.renamed;
      }
      if !ok {
        Quarantine(q, PromoteFailed);
        return;
      }
      objects := objects[m.contentId := q.staged.value];
      receipt := receipt.(status := Promoted);
    }
  }
}
