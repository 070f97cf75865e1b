/** Optional values, and a few facts about collections. */
module Wrappers {
  datatype Option<+T> = None | Some(value: T)

  /** No element occurs twice. */
  ghost predicate Distinct<T>(s: seq<T>) {
    forall i, j :: 0 <= i < j < |s| ==> s[i] != s[j]
  }

  /** A sequence is its front and its last element. */
  lemma FrontLast<T>(s: seq<T>)
    requires s != []
    ensures s == s[..|s| - 1] + [s[|s| - 1]]
    ensures forall x :: x in s <==> x in s[..|s| - 1] || x == s[|s| - 1]
  {
    var front, last := s[..|s| - 1], s[|s| - 1];
    assert front + [last] == s;
    forall x | x in s ensures x in front || x == last {
      var i :| 0 <= i < |s| && s[i] == x;
      if i < |s| - 1 { assert front[i] == x; }
    }
  }

  lemma Snoc<T>(s: seq<T>, x: T)
    ensures (s + [x])[..|s|] == s && (s + [x])[|s|] == x && |s + [x]| == |s| + 1
  {
  }

  /** The front and the last element of two sequences together. */
  lemma FrontOfBoth<T>(a: seq<T>, b: seq<T>)
    requires b != []
    ensures a + b != [] && (a + b)[..|a + b| - 1] == a + b[..|b| - 1] && (a + b)[|a + b| - 1] == b[|b| - 1]
  {
    var all := a + b;
    assert all[|all| - 1] == b[|b| - 1];
    assert all[..|all| - 1] == a + b[..|b| - 1];
  }

  /** How many of n things a limit lets through; a negative limit lets none. */
  function Limited(limit: int, n: nat): (r: nat)
    ensures r <= n && (limit <= 0 ==> r == 0) && (0 < limit ==> r <= limit && (r == n || r == limit))
  {
    if limit <= 0 then 0 else if limit < n then limit else n
  }

  lemma DistinctConcat<T>(a: seq<T>, b: seq<T>)
    requires Distinct(a) && Distinct(b) && forall x :: x in a ==> x !in b
    ensures Distinct(a + b)
  {
    var s := a + b;
    forall i, j | 0 <= i < j < |s| ensures s[i] != s[j] {
      if i < |a| <= j { assert a[i] in a && b[j - |a|] in b; }
    }
  }

  lemma SubsetCard<T>(a: set<T>, b: set<T>)
    requires a <= b
    ensures |a| <= |b| && |b| == |a| + |b - a| && (a != b ==> |a| < |b|)
  {
    assert b == a + (b - a);
  }

  lemma UpdateTwice<K, V>(m: map<K, V>, k: K, v: V, w: V)
    ensures m[k := v][k := w] == m[k := w]
  {
  }

  lemma SameMaps<K, V>(a: map<K, V>, b: map<K, V>)
    requires forall k :: (k in a <==> k in b) && (k in a ==> a[k] == b[k])
    ensures a == b
  {
  }
}
