/** Lists of files with their sizes and digests, and when two lists name the same files. */
module TransferFiles {

  /** A regular file, with its POSIX path relative to its directory. */
  datatype File = File(path: string, bytes: nat, digest: string)

  predicate DistinctPaths(files: seq<File>) {
    forall i, j :: 0 <= i < j < |files| ==> files[i].path != files[j].path
  }

  ghost function Paths(files: seq<File>): set<string> {
    set f | f in files :: f.path
  }

  /** Files with distinct paths occur once each. */
  lemma {:induction false} OnceEach(files: seq<File>, f: File)
    requires DistinctPaths(files)
    ensures multiset(files)[f] == if f in files then 1 else 0
  {
    if files != [] {
      var n := |files| - 1;
      OnceEach(files[..n], f);
      assert files == files[..n] + [files[n]];
    }
  }

  lemma {:induction false} SamePathSameFile(files: seq<File>, f: File, g: File)
    requires DistinctPaths(files) && f in files && g in files && f.path == g.path
    ensures f == g
  {
    var i :| 0 <= i < |files| && files[i] == f;
    var j :| 0 <= j < |files| && files[j] == g;
  }

  /** A list is a permutation of files with distinct paths exactly when its own paths are distinct, it
      has only those files, and no path is missing. */
  lemma {:induction false} PermutationIff(a: seq<File>, b: seq<File>)
    requires DistinctPaths(b)
    ensures multiset(a) == multiset(b) <==> DistinctPaths(a) && (forall f :: f in a ==> f in b) && Paths(a) == Paths(b)
  {
    if multiset(a) == multiset(b) {
      SameElements(a, b);
      forall i, j | 0 <= i < j < |a| ensures a[i].path != a[j].path {
        if a[i].path == a[j].path {
          SamePathSameFile(b, a[i], a[j]);
          OnceEach(b, a[i]);
          Twice(a, i, j);
        }
      }
    }
    if DistinctPaths(a) && (forall f :: f in a ==> f in b) && Paths(a) == Paths(b) {
      forall f | f in b ensures f in a {
        assert f.path in Paths(a);
        var g :| g in a && g.path == f.path;
        SamePathSameFile(b, f, g);
      }
      forall f ensures multiset(a)[f] == multiset(b)[f] {
        OnceEach(a, f);
        OnceEach(b, f);
      }
    }
  }

  lemma SameElements(a: seq<File>, b: seq<File>)
    requires multiset(a) == multiset(b)
    ensures forall f :: f in a <==> f in b
    ensures Paths(a) == Paths(b)
  {
    forall f ensures f in a <==> f in b {
      assert f in a <==> f in multiset(a);
      assert f in b <==> f in multiset(b);
    }
  }

  lemma Twice(files: seq<File>, i: nat, j: nat)
    requires i < j < |files| && files[i] == files[j]
    ensures multiset(files)[files[i]] >= 2
  {
    assert files == files[..j] + [files[j]] + files[j + 1..];
    assert files[i] in files[..j] by {
      assert files[..j][i] == files[i];
    }
  }
}
