/** The completion snapshot: what an accepted archive contains, and which recordings the rows cover. */
module DeliveryCompletion {
  import opened Prelude
  import opened TransferFiles

  // ---- _archive_matches ----

  /** A tar member as it is read; `digest` is that of the bytes it holds. */
  datatype Member = Member(name: string, regular: bool, size: nat, digest: string)

  /** `intact` says that the tar stream ends without an error. */
  datatype TarArchive = TarArchive(members: seq<Member>, intact: bool)

  function AsFile(m: Member): File {
    File(m.name, m.size, m.digest)
  }

  ghost function Listed(members: seq<Member>): seq<File> {
    seq(|members|, i requires 0 <= i < |members| => AsFile(members[i]))
  }

  /** The archive holds exactly the transfer files, in any order, each once. */
  ghost predicate HoldsExactly(archive: TarArchive, files: seq<File>) {
    && archive.intact
    && (forall i :: 0 <= i < |archive.members| ==> archive.members[i].regular)
    && multiset(Listed(archive.members)) == multiset(files)
  }

  /** { item.path: item } */
  function Expected(files: seq<File>): (m: map<string, File>)
    requires DistinctPaths(files)
    ensures forall f :: f in files ==> f.path in m && m[f.path] == f
    ensures forall p :: p in m ==> m[p] in files && m[p].path == p
  {
    assert forall f, g :: f in files && g in files && f.path == g.path ==> f == g by {
      forall f, g | f in files && g in files && f.path == g.path ensures f == g {
        SamePathSameFile(files, f, g);
      }
    }
    map f | f in files :: f.path := f
  }

  /** The members read so far are all expected, regular and different. */
  ghost predicate Accepted(members: seq<Member>, files: seq<File>) {
    && (forall i :: 0 <= i < |members| ==> members[i].regular && AsFile(members[i]) in files)
    && DistinctPaths(Listed(members))
  }

  lemma {:induction false} AcceptedSnoc(members: seq<Member>, m: Member, files: seq<File>)
    ensures Accepted(members + [m], files) <==>
              Accepted(members, files) && m.regular && AsFile(m) in files && m.name !in Paths(Listed(members))
  {
    var more := members + [m];
    var a, b := Listed(members), Listed(more);
    assert b == a + [AsFile(m)];
    if m.name in Paths(a) {
      var i :| 0 <= i < |a| && a[i].path == m.name;
      assert b[i].path == b[|a|].path;
    }
    if Accepted(more, files) {
      forall i | 0 <= i < |members| ensures members[i].regular && AsFile(members[i]) in files {
        assert more[i] == members[i];
      }
      assert more[|members|] == m;
      forall i, j | 0 <= i < j < |a| ensures a[i].path != a[j].path {
        assert a[i] == b[i] && a[j] == b[j];
      }
    }
  }

  /** The loop over the members. It accepts exactly the archives that hold the transfer files. */
  method ArchiveMatches(archive: TarArchive, files: seq<File>) returns (ok: bool)
    requires DistinctPaths(files)
    ensures ok <==> HoldsExactly(archive, files)
  {
    var expected := Expected(files);
    var seen: set<string> := {};
    ok := false;
    for i := 0 to |archive.members|
      invariant Accepted(archive.members[..i], files) && seen == Paths(Listed(archive.members[..i]))
    {
      var member := archive.members[i];
      AcceptedSnoc(archive.members[..i], member, files);
      assert archive.members[..i + 1] == archive.members[..i] + [member];
      if !member.regular || member.name !in expected || member.name in seen
          || member.size != expected[member.name].bytes {
        NotAccepted(archive, files, i + 1);
        return;
      }
      if member.digest != expected[member.name].digest {
        NotAccepted(archive, files, i + 1);
        return;
      }
      assert AsFile(member) == expected[member.name];
      ListedSnoc(archive.members[..i], member);
      seen := seen + {member.name};
    }
    assert archive.members[..|archive.members|] == archive.members;
    HoldsIffAccepted(archive, files);
    assert expected.Keys == Paths(files);
    ok := archive.intact && seen == expected.Keys;
  }

  lemma ListedSnoc(members: seq<Member>, m: Member)
    ensures Listed(members + [m]) == Listed(members) + [AsFile(m)]
    ensures Paths(Listed(members + [m])) == Paths(Listed(members)) + {m.name}
  {
    var a, b := Listed(members), Listed(members + [m]);
    assert b == a + [AsFile(m)];
    assert forall f :: f in b <==> f in a || f == AsFile(m);
  }

  lemma {:induction false} HoldsIffAccepted(archive: TarArchive, files: seq<File>)
    requires DistinctPaths(files)
    ensures HoldsExactly(archive, files) <==>
              archive.intact && Accepted(archive.members, files) && Paths(Listed(archive.members)) == Paths(files)
  {
    var listed := Listed(archive.members);
    PermutationIff(listed, files);
    assert (forall f :: f in listed ==> f in files) <==> forall i :: 0 <= i < |listed| ==> listed[i] in files;
    assert forall i :: 0 <= i < |listed| ==> listed[i] == AsFile(archive.members[i]);
  }

  /** Once a member is refused, nothing later repairs it. */
  lemma {:induction false} NotAccepted(archive: TarArchive, files: seq<File>, n: nat)
    requires DistinctPaths(files) && n <= |archive.members| && !Accepted(archive.members[..n], files)
    ensures !HoldsExactly(archive, files)
  {
    HoldsIffAccepted(archive, files);
    if Accepted(archive.members, files) {
      var all, some := Listed(archive.members), Listed(archive.members[..n]);
      assert forall i :: 0 <= i < n ==> some[i] == all[i];
      assert DistinctPaths(some);
      assert Accepted(archive.members[..n], files);
    }
  }

  // ---- _snapshot: recordings and rows ----

  /** Where a row says its session lies. */
  datatype Place = Recording(name: string) | Recovered(name: string) | Elsewhere(path: string)

  type Inventory = map<string, (nat, string)>

  /** A recovered recording: whose session it is, the files its original had, and their recorded digest. */
  datatype Recovery = Recovery(session: string, originalFiles: Inventory, inventoryDigest: string)

  /** An entry of the recordings root. `files` leaves the owner lock out; None when it cannot be listed. */
  datatype Entry = Entry(closed: bool, files: Option<Inventory>)

  /** `digest` is that of a canonical inventory. */
  datatype Disk = Disk(recordings: map<string, Entry>, recovered: map<string, Recovery>, digest: Inventory -> string)

  /** The recording a row accounts for. */
  function Target(disk: Disk, row: Place): Option<string> {
    match row
    case Recording(name) => Some(name)
    case Recovered(name) => if name in disk.recovered then Some(disk.recovered[name].session) else None
    case Elsewhere(_) => None
  }

  /** A row is a recording itself, or a recovery of an unclosed recording whose files are unchanged and
      have the recorded digest. */
  predicate Accounts(disk: Disk, row: Place) {
    && Target(disk, row).Some? && Target(disk, row).value in disk.recordings
    && (row.Recovered? ==>
          var entry := disk.recordings[Target(disk, row).value];
          var recovery := disk.recovered[row.name];
          && !entry.closed && entry.files == Some(recovery.originalFiles)
          && disk.digest(recovery.originalFiles) == recovery.inventoryDigest)
  }

  /** Rows and recordings are in one-to-one correspondence. */
  ghost predicate Covers(disk: Disk, rows: seq<Place>) {
    && (forall i :: 0 <= i < |rows| ==> Accounts(disk, rows[i]))
    && (forall i, j :: 0 <= i < j < |rows| ==> Target(disk, rows[i]) != Target(disk, rows[j]))
    && (forall name :: name in disk.recordings ==> Covered(disk, rows, name))
  }

  ghost predicate Covered(disk: Disk, rows: seq<Place>, name: string) {
    exists i :: 0 <= i < |rows| && Target(disk, rows[i]) == Some(name)
  }

  /** What the loop has established about the rows read so far. */
  ghost predicate Consumed(disk: Disk, rows: seq<Place>, n: nat, remaining: set<string>)
    requires n <= |rows|
  {
    && remaining <= disk.recordings.Keys
    && (forall i :: 0 <= i < n ==> Accounts(disk, rows[i]) && Target(disk, rows[i]).value !in remaining)
    && (forall i, j :: 0 <= i < j < n ==> Target(disk, rows[i]) != Target(disk, rows[j]))
    && (forall name :: name in disk.recordings && name !in remaining ==> Covered(disk, rows[..n], name))
  }

  lemma {:induction false} ConsumeNext(disk: Disk, rows: seq<Place>, n: nat, remaining: set<string>)
    requires n < |rows| && Consumed(disk, rows, n, remaining) && Accounts(disk, rows[n])
        && Target(disk, rows[n]).value in remaining
    ensures Consumed(disk, rows, n + 1, remaining - {Target(disk, rows[n]).value})
  {
    var target := Target(disk, rows[n]).value;
    forall name | name in disk.recordings && name !in remaining - {target} ensures Covered(disk, rows[..n + 1], name) {
      if name == target {
        assert rows[..n + 1][n] == rows[n];
      } else {
        assert Covered(disk, rows[..n], name);
        var i :| 0 <= i < n && Target(disk, rows[..n][i]) == Some(name);
        assert rows[..n + 1][i] == rows[i];
      }
    }
  }

  /** A row that does not account for a remaining recording breaks the correspondence. */
  lemma {:induction false} NoCover(disk: Disk, rows: seq<Place>, n: nat, remaining: set<string>)
    requires n < |rows| && Consumed(disk, rows, n, remaining)
    requires !(Accounts(disk, rows[n]) && Target(disk, rows[n]).value in remaining)
    ensures !Covers(disk, rows)
  {
    if Accounts(disk, rows[n]) {
      var name := Target(disk, rows[n]).value;
      assert Covered(disk, rows[..n], name);
      var i :| 0 <= i < n && Target(disk, rows[..n][i]) == Some(name);
      assert Target(disk, rows[i]) == Target(disk, rows[n]);
    }
  }

  /** The loop over the rows. It succeeds exactly when every recording is covered by exactly one row. */
  method AccountRows(disk: Disk, rows: seq<Place>) returns (ok: bool)
    ensures ok <==> Covers(disk, rows)
  {
    ok := false;
    var remaining := disk.recordings.Keys;
    for n := 0 to |rows|
      invariant Consumed(disk, rows, n, remaining)
    {
      var row := rows[n];
      if row.Recording? && row.name in remaining {
        ConsumeNext(disk, rows, n, remaining);
        remaining := remaining - {row.name};
        continue;
      }
      if !row.Recovered? || row.name !in disk.recovered {
        NoCover(disk, rows, n, remaining);
        return;
      }
      var recovery := disk.recovered[row.name];
      if recovery.session !in remaining || disk.recordings[recovery.session].closed {
        NoCover(disk, rows, n, remaining);
        return;
      }
      if disk.recordings[recovery.session].files != Some(recovery.originalFiles)
         || disk.digest(recovery.originalFiles) != recovery.inventoryDigest {
        NoCover(disk, rows, n, remaining);
        return;
      }
      ConsumeNext(disk, rows, n, remaining);
      remaining := remaining - {recovery.session};
    }
    assert rows[..|rows|] == rows;
    ok := remaining == {};
    if !ok {
      var name :| name in remaining;
      assert !Covered(disk, rows, name);
    }
  }

  /** With the correspondence, every recording has one row. A closed recording's is the recording itself; a recovery
      stands only for an unclosed one, whose files are those it lists, under the digest it recorded. */
  lemma {:induction false} RecordingAccounted(disk: Disk, rows: seq<Place>, name: string) returns (i: nat)
    requires Covers(disk, rows) && name in disk.recordings
    ensures i < |rows| && forall j :: 0 <= j < |rows| && Target(disk, rows[j]) == Some(name) ==> j == i
    ensures rows[i] == Recording(name) || rows[i].Recovered?
    ensures disk.recordings[name].closed ==> rows[i] == Recording(name)
    ensures rows[i].Recovered? ==>
              && rows[i].name in disk.recovered && disk.recovered[rows[i].name].session == name
              && disk.recordings[name].files == Some(disk.recovered[rows[i].name].originalFiles)
              && disk.digest(disk.recovered[rows[i].name].originalFiles) == disk.recovered[rows[i].name].inventoryDigest
  {
    assert Covered(disk, rows, name);
    i :| 0 <= i < |rows| && Target(disk, rows[i]) == Some(name);
    assert Accounts(disk, rows[i]);
  }

  /** With the correspondence, there are as many rows as recordings. */
  lemma {:induction false} AsManyRows(disk: Disk, rows: seq<Place>)
    requires Covers(disk, rows)
    ensures |rows| == |disk.recordings|
  {
    var all, key := (r: Place) => true, (r: Place) => Target(disk, r);
    CountAll(rows, all);
    CountDistinct(rows, all, key);
    var names := disk.recordings.Keys;
    forall name | name in names ensures Some(name) in KeysOf(rows, all, key) {
      assert Covered(disk, rows, name);
      var i :| 0 <= i < |rows| && Target(disk, rows[i]) == Some(name);
      assert all(rows[i]) && key(rows[i]) == Some(name);
    }
    assert KeysOf(rows, all, key) == SomeOf(names);
  }

  ghost function SomeOf(names: set<string>): (r: set<Option<string>>)
    ensures |r| == |names| && forall o :: o in r <==> o.Some? && o.value in names
  {
    if names == {} then {}
    else
      var name :| name in names;
      SomeOf(names - {name}) + {Some(name)}
  }
}
