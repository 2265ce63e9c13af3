/**
 * The two array scans every resolver is built from: `Array.prototype.find`
 * (first element satisfying a predicate, or absent) and
 * `Array.prototype.filter` (every element satisfying it, in order).
 * Each comes with a relational specification that does not say how the
 * scan is done, and a lemma that the specification pins the result down.
 */
module Scan {
  import opened Wrappers

  /** `x => key(x) === k`: the predicate the resolvers hand to find/filter. */
  function KeyIs<T(!new)>(key: T -> string, k: string): (p: T -> bool)
    ensures forall x :: p(x) <==> key(x) == k
  {
    x => key(x) == k
  }

  /** `x => key(x) !== k`: the predicate `deleteGame` filters with. */
  function KeyIsNot<T(!new)>(key: T -> string, k: string): (p: T -> bool)
    ensures forall x :: p(x) <==> key(x) != k
  {
    x => key(x) != k
  }

  /** r is the first element of s satisfying p, or None when none does. */
  ghost predicate IsFirstMatch<T>(s: seq<T>, p: T -> bool, r: Option<T>)
  {
    match r
    case None => forall i :: 0 <= i < |s| ==> !p(s[i])
    case Some(x) =>
      exists i :: 0 <= i < |s| && s[i] == x && p(x) && forall j :: 0 <= j < i ==> !p(s[j])
  }

  /** Array.prototype.find */
  function FindFirst<T>(s: seq<T>, p: T -> bool): (r: Option<T>)
    ensures IsFirstMatch(s, p, r)
  {
    if |s| == 0 then None
    else if p(s[0]) then Some(s[0])
    else FindFirst(s[1..], p)
  }

  /** At most one result can be the first match: the specification is complete. */
  lemma FirstMatchUnique<T>(s: seq<T>, p: T -> bool, r: Option<T>)
    requires IsFirstMatch(s, p, r)
    ensures r == FindFirst(s, p)
  {
    var f := FindFirst(s, p);
    match r
    case None =>
    case Some(x) =>
      var i :| 0 <= i < |s| && s[i] == x && p(x) && forall j :: 0 <= j < i ==> !p(s[j]);
      var k :| 0 <= k < |s| && s[k] == f.value && p(f.value) && forall j :: 0 <= j < k ==> !p(s[j]);
      assert i == k;
  }

  /**
   * r is a subsequence of s: r[0] is matched at its earliest position in s,
   * then the rest of r in the rest of s. This is the order-preserving
   * "sub-list" relation (greedy form, which is equivalent to
   * the existence of an increasing index map).
   */
  ghost predicate IsSubsequence<T>(r: seq<T>, s: seq<T>)
    decreases |s|
  {
    |r| == 0 ||
    (|s| > 0 &&
      if r[0] == s[0] then IsSubsequence(r[1..], s[1..]) else IsSubsequence(r, s[1..]))
  }

  /**
   * r is exactly the elements of s satisfying p, in s's order: a
   * subsequence of s, made only of p-elements, missing none of them
   * (counted with multiplicity).
   */
  ghost predicate IsFilterOf<T(!new)>(r: seq<T>, s: seq<T>, p: T -> bool)
  {
    IsSubsequence(r, s) &&
    (forall i :: 0 <= i < |r| ==> p(r[i])) &&
    (forall x :: p(x) ==> multiset(r)[x] == multiset(s)[x])
  }

  /** Array.prototype.filter */
  function Filter<T(!new)>(s: seq<T>, p: T -> bool): (r: seq<T>)
    ensures IsFilterOf(r, s, p)
  {
    if |s| == 0 then []
    else
      var rest := Filter(s[1..], p);
      assert s == [s[0]] + s[1..];
      assert multiset(s) == multiset{s[0]} + multiset(s[1..]);
      if p(s[0]) then
        assert ([s[0]] + rest)[1..] == rest;
        assert multiset([s[0]] + rest) == multiset{s[0]} + multiset(rest);
        [s[0]] + rest
      else
        rest
  }

  /** An element is in the filter's result exactly when it is in s and satisfies p. */
  lemma FilterMembers<T(!new)>(s: seq<T>, p: T -> bool, x: T)
    ensures x in Filter(s, p) <==> x in s && p(x)
  {
    var r := Filter(s, p);
    if x in r {
      var i :| 0 <= i < |r| && r[i] == x;
      assert p(x);
      assert multiset(r)[x] > 0;
    }
    if x in s && p(x) {
      assert multiset(s)[x] > 0;
    }
  }

  lemma {:induction false} SubsequenceMultiset<T>(r: seq<T>, s: seq<T>)
    requires IsSubsequence(r, s)
    ensures multiset(r) <= multiset(s)
    decreases |s|
  {
    if |r| > 0 {
      assert s == [s[0]] + s[1..];
      if r[0] == s[0] {
        SubsequenceMultiset(r[1..], s[1..]);
        assert r == [r[0]] + r[1..];
      } else {
        SubsequenceMultiset(r, s[1..]);
      }
    }
  }

  /** Any r meeting the filter specification is the filter: the specification is complete. */
  lemma {:induction false} FilterSpecUnique<T(!new)>(r: seq<T>, s: seq<T>, p: T -> bool)
    requires IsFilterOf(r, s, p)
    ensures r == Filter(s, p)
    decreases |s|
  {
    if |s| == 0 {
      assert |r| == 0;
    } else {
      var a, t := s[0], s[1..];
      assert s == [a] + t;
      if p(a) {
        assert multiset(r)[a] == multiset(s)[a] > multiset(t)[a];
        assert |r| > 0;
        if r[0] != a {
          SubsequenceMultiset(r, t);
          assert false;
        }
        assert r == [a] + r[1..];
        forall x | p(x) ensures multiset(r[1..])[x] == multiset(t)[x] {
        }
        FilterSpecUnique(r[1..], t, p);
      } else {
        assert |r| > 0 ==> r[0] != a by {
          if |r| > 0 { assert p(r[0]); }
        }
        forall x | p(x) ensures multiset(r)[x] == multiset(t)[x] {
          assert x != a;
        }
        FilterSpecUnique(r, t, p);
      }
    }
  }

  /** Filtering with a predicate every element satisfies changes nothing. */
  lemma {:induction false} FilterKeepsAll<T(!new)>(s: seq<T>, p: T -> bool)
    requires forall i :: 0 <= i < |s| ==> p(s[i])
    ensures Filter(s, p) == s
  {
    if |s| > 0 {
      FilterKeepsAll(s[1..], p);
      assert s == [s[0]] + s[1..];
    }
  }

  /** Filtering distributes over concatenation. */
  lemma {:induction false} FilterAppend<T(!new)>(s: seq<T>, t: seq<T>, p: T -> bool)
    ensures Filter(s + t, p) == Filter(s, p) + Filter(t, p)
  {
    if |s| == 0 {
      assert s + t == t;
    } else {
      assert (s + t)[1..] == s[1..] + t;
      FilterAppend(s[1..], t, p);
    }
  }

  /** No two elements of s share a key. */
  ghost predicate UniqueKeys<T>(s: seq<T>, key: T -> string)
  {
    forall i, j :: 0 <= i < j < |s| ==> key(s[i]) != key(s[j])
  }

  /** A subsequence of a table with unique keys has unique keys. */
  lemma {:induction false} SubsequenceKeepsUniqueKeys<T>(r: seq<T>, s: seq<T>, key: T -> string)
    requires IsSubsequence(r, s) && UniqueKeys(s, key)
    ensures UniqueKeys(r, key)
    decreases |s|
  {
    if |r| > 0 {
      assert UniqueKeys(s[1..], key);
      if r[0] == s[0] {
        SubsequenceKeepsUniqueKeys(r[1..], s[1..], key);
        SubsequenceMultiset(r[1..], s[1..]);
        forall j | 1 <= j < |r| ensures key(r[0]) != key(r[j]) {
          assert r[j] == r[1..][j - 1];
          assert r[j] in multiset(s[1..]);
          var k :| 0 <= k < |s[1..]| && s[1..][k] == r[j];
          assert s[k + 1] == r[j];
        }
      } else {
        SubsequenceKeepsUniqueKeys(r, s[1..], key);
      }
    }
  }

  /** With unique keys, looking a row up by its own key finds that row. */
  lemma FindByUniqueKey<T(!new)>(s: seq<T>, key: T -> string, x: T)
    requires UniqueKeys(s, key) && x in s
    ensures FindFirst(s, KeyIs(key, key(x))) == Some(x)
  {
    var p := KeyIs(key, key(x));
    var k :| 0 <= k < |s| && s[k] == x;
    var f := FindFirst(s, p);
    assert p(s[k]);
    var i :| 0 <= i < |s| && s[i] == f.value && p(f.value) && forall j :: 0 <= j < i ==> !p(s[j]);
    assert i == k;
  }
}
