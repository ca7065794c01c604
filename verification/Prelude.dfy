/** Datatypes and counting facts shared by the models of this project. */
module Prelude {

  datatype Option<+T> = None | Some(value: T)

  datatype Result<+T, +E> = Ok(value: T) | Err(error: E)

  function Max(a: int, b: int): int {
    if a < b then b else a
  }

  predicate HexDigit(c: char) {
    '0' <= c <= '9' || 'a' <= c <= 'f'
  }

  function CountIf<T>(s: seq<T>, p: T -> bool): nat {
    if s == [] then 0 else CountIf(s[..|s| - 1], p) + if p(s[|s| - 1]) then 1 else 0
  }

  /** The keys of the elements that satisfy `p`. */
  ghost function KeysOf<T, K>(s: seq<T>, p: T -> bool, key: T -> K): set<K> {
    set i | 0 <= i < |s| && p(s[i]) :: key(s[i])
  }

  ghost predicate DistinctKeys<T, K>(s: seq<T>, p: T -> bool, key: T -> K) {
    forall i, j :: 0 <= i < j < |s| && p(s[i]) && p(s[j]) ==> key(s[i]) != key(s[j])
  }

  lemma {:induction false} KeysSnoc<T, K>(s: seq<T>, p: T -> bool, key: T -> K)
    requires s != []
    ensures var n := |s| - 1;
            KeysOf(s, p, key) == KeysOf(s[..n], p, key) + if p(s[n]) then {key(s[n])} else {}
  {
    var n := |s| - 1;
    var front := s[..n];
    forall k | k in KeysOf(front, p, key) ensures k in KeysOf(s, p, key) {
      var i :| 0 <= i < n && p(front[i]) && key(front[i]) == k;
      assert s[i] == front[i];
    }
    forall k | k in KeysOf(s, p, key) && !(p(s[n]) && k == key(s[n])) ensures k in KeysOf(front, p, key) {
      var i :| 0 <= i < |s| && p(s[i]) && key(s[i]) == k;
      assert front[i] == s[i];
    }
  }

  /** Elements with pairwise different keys are as many as their keys, and only those are. */
  lemma {:induction false} CountDistinct<T, K>(s: seq<T>, p: T -> bool, key: T -> K)
    ensures |KeysOf(s, p, key)| <= CountIf(s, p)
    ensures |KeysOf(s, p, key)| == CountIf(s, p) <==> DistinctKeys(s, p, key)
  {
    if s == [] {
      assert KeysOf(s, p, key) == {};
    } else {
      var n := |s| - 1;
      CountDistinct(s[..n], p, key);
      KeysSnoc(s, p, key);
      DistinctSnoc(s, p, key);
      var keys := KeysOf(s[..n], p, key);
      if p(s[n]) && key(s[n]) in keys {
        assert keys + {key(s[n])} == keys;
      }
    }
  }

  lemma {:induction false} DistinctSnoc<T, K>(s: seq<T>, p: T -> bool, key: T -> K)
    requires s != []
    ensures var n := |s| - 1;
            DistinctKeys(s, p, key) <==>
              DistinctKeys(s[..n], p, key) && (p(s[n]) ==> key(s[n]) !in KeysOf(s[..n], p, key))
  {
    var n := |s| - 1;
    var front := s[..n];
    assert forall i :: 0 <= i < n ==> front[i] == s[i];
    if p(s[n]) && key(s[n]) in KeysOf(front, p, key) {
      var i :| 0 <= i < n && p(front[i]) && key(front[i]) == key(s[n]);
      assert p(s[i]) && key(s[i]) == key(s[n]);
    }
    if DistinctKeys(front, p, key) && (p(s[n]) ==> key(s[n]) !in KeysOf(front, p, key)) {
      forall i, j | 0 <= i < j < |s| && p(s[i]) && p(s[j]) ensures key(s[i]) != key(s[j]) {
        assert p(front[i]) && key(front[i]) in KeysOf(front, p, key);
      }
    }
  }

  lemma {:induction false} CountAppend<T>(a: seq<T>, b: seq<T>, p: T -> bool)
    ensures CountIf(a + b, p) == CountIf(a, p) + CountIf(b, p)
  {
    if b == [] {
      assert a + b == a;
    } else {
      CountAppend(a, b[..|b| - 1], p);
      assert (a + b)[..|a + b| - 1] == a + b[..|b| - 1];
    }
  }

  /** `p` holds of an element exactly when one of the two disjoint predicates does. */
  lemma {:induction false} CountSplit<T>(s: seq<T>, p: T -> bool, q: T -> bool, r: T -> bool)
    requires forall x :: x in s ==> (p(x) <==> q(x) || r(x)) && !(q(x) && r(x))
    ensures CountIf(s, p) == CountIf(s, q) + CountIf(s, r)
  {
    if s != [] {
      CountSplit(s[..|s| - 1], p, q, r);
    }
  }

  lemma {:induction false} CountPositive<T>(s: seq<T>, p: T -> bool, i: nat)
    requires i < |s| && p(s[i])
    ensures CountIf(s, p) >= 1
  {
    if i < |s| - 1 {
      CountPositive(s[..|s| - 1], p, i);
    }
  }

  lemma {:induction false} CountWitness<T>(s: seq<T>, p: T -> bool) returns (i: nat)
    requires CountIf(s, p) >= 1
    ensures i < |s| && p(s[i])
  {
    if p(s[|s| - 1]) {
      i := |s| - 1;
    } else {
      i := CountWitness(s[..|s| - 1], p);
    }
  }

  lemma {:induction false} CountTwo<T>(s: seq<T>, p: T -> bool, i: nat, j: nat)
    requires i < j < |s| && p(s[i]) && p(s[j])
    ensures CountIf(s, p) >= 2
  {
    assert s == s[..j] + s[j..];
    CountAppend(s[..j], s[j..], p);
    CountPositive(s[..j], p, i);
    CountPositive(s[j..], p, 0);
  }

  lemma {:induction false} CountAll<T>(s: seq<T>, p: T -> bool)
    requires forall x :: x in s ==> p(x)
    ensures CountIf(s, p) == |s|
  {
    if s != [] {
      CountAll(s[..|s| - 1], p);
    }
  }

  lemma SubsetSize<T>(a: set<T>, b: set<T>)
    requires a <= b
    ensures |a| <= |b|
    ensures |a| == |b| ==> a == b
  {
    if a != b {
      assert b == a + (b - a);
      assert b - a != {};
    }
  }
}
