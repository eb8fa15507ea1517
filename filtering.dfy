/** A model of JavaScript's `Array.prototype.filter` on values, and the facts
    about it that the rest of the model leans on: which elements it keeps and
    how often, that it keeps collection order, and how its length reacts to a
    permutation or to a one-element update of its input. */
module Filtering {

  /** The elements of `s` that satisfy `p`, in their order in `s`. */
  function Where<T>(s: seq<T>, p: T -> bool): (r: seq<T>)
    ensures |r| <= |s|
    ensures forall x :: x in r ==> x in s && p(x)
    decreases |s|
  {
    if s == [] then []
    else (if p(s[0]) then [s[0]] else []) + Where(s[1..], p)
  }

  /** Both `p` and `q`: the predicate of two filters applied one after the other. */
  function And<T>(p: T -> bool, q: T -> bool): T -> bool
  {
    x => p(x) && q(x)
  }

  /** Filtering keeps every element satisfying `p` exactly as often as it occurs in `s`. */
  lemma {:induction false} WhereCount<T>(s: seq<T>, p: T -> bool, x: T)
    ensures multiset(Where(s, p))[x] == if p(x) then multiset(s)[x] else 0
    decreases |s|
  {
    if s != [] {
      WhereCount(s[1..], p, x);
      assert s == [s[0]] + s[1..];
      assert multiset(s) == multiset{s[0]} + multiset(s[1..]);
    }
  }

  /** Filtering distributes over concatenation, so it keeps collection order. */
  lemma {:induction false} WhereConcat<T>(a: seq<T>, b: seq<T>, p: T -> bool)
    ensures Where(a + b, p) == Where(a, p) + Where(b, p)
    decreases |a|
  {
    if a == [] {
      assert a + b == b;
    } else {
      assert (a + b)[0] == a[0];
      assert (a + b)[1..] == a[1..] + b;
      WhereConcat(a[1..], b, p);
    }
  }

  /** Two filters in a row are one filter by the conjunction. */
  lemma {:induction false} WhereWhere<T>(s: seq<T>, p: T -> bool, q: T -> bool)
    ensures Where(Where(s, p), q) == Where(s, And(p, q))
    decreases |s|
  {
    if s != [] {
      WhereWhere(s[1..], p, q);
      assert And(p, q)(s[0]) == (p(s[0]) && q(s[0]));
      if p(s[0]) {
        assert Where(s, p) == [s[0]] + Where(s[1..], p);
        WhereConcat([s[0]], Where(s[1..], p), q);
      } else {
        assert Where(s, p) == Where(s[1..], p);
      }
    }
  }

  /** A filter finds nothing exactly when no element satisfies its predicate. */
  lemma {:induction false} WhereEmpty<T>(s: seq<T>, p: T -> bool)
    ensures Where(s, p) == [] <==> forall j :: 0 <= j < |s| ==> !p(s[j])
    decreases |s|
  {
    if s != [] {
      WhereEmpty(s[1..], p);
      if !p(s[0]) {
        forall j | 1 <= j < |s| ensures s[j] == s[1..][j - 1] { }
      }
    }
  }

  /** The first element a filter keeps is the element at the first index satisfying `p`. */
  lemma {:induction false} WhereHead<T>(s: seq<T>, p: T -> bool) returns (k: nat)
    requires Where(s, p) != []
    ensures k < |s| && p(s[k]) && Where(s, p)[0] == s[k]
    ensures forall j :: 0 <= j < k ==> !p(s[j])
    decreases |s|
  {
    if p(s[0]) {
      k := 0;
    } else {
      var k' := WhereHead(s[1..], p);
      k := k' + 1;
      forall j | 0 <= j < k ensures !p(s[j]) {
        if j > 0 { assert s[j] == s[1..][j - 1]; }
      }
    }
  }

  /** The first two elements a filter keeps are the elements at the first
      two indices satisfying `p`. */
  lemma {:induction false} WhereSecond<T>(s: seq<T>, p: T -> bool) returns (ka: nat, kb: nat)
    requires |Where(s, p)| >= 2
    ensures ka < kb < |s| && p(s[ka]) && p(s[kb])
    ensures Where(s, p)[0] == s[ka] && Where(s, p)[1] == s[kb]
    ensures forall j :: 0 <= j < kb && j != ka ==> !p(s[j])
    decreases |s|
  {
    if p(s[0]) {
      var kt := WhereHead(s[1..], p);
      ka, kb := 0, kt + 1;
      forall j | 0 < j < kb ensures !p(s[j]) {
        assert s[j] == s[1..][j - 1];
      }
    } else {
      var ja, jb := WhereSecond(s[1..], p);
      ka, kb := ja + 1, jb + 1;
      forall j | 0 <= j < kb && j != ka ensures !p(s[j]) {
        if j > 0 { assert s[j] == s[1..][j - 1]; }
      }
    }
  }

  /** If at most one element passes the filter, an element that satisfies `p` is all the filter keeps. */
  lemma WhereSingleton<T>(s: seq<T>, p: T -> bool, k: nat)
    requires k < |s| && p(s[k]) && |Where(s, p)| <= 1
    ensures Where(s, p) == [s[k]]
  {
    WhereCount(s, p, s[k]);
    assert s[k] in multiset(s);
    var w := Where(s, p);
    assert s[k] in multiset(w);
    assert w == [w[0]];
  }

  /** Two different indices satisfying `p` make the filter keep at least two elements. */
  lemma WhereTwo<T>(s: seq<T>, p: T -> bool, i: nat, j: nat)
    requires i < j < |s| && p(s[i]) && p(s[j])
    ensures |Where(s, p)| >= 2
  {
    assert s == s[..j] + s[j..];
    WhereConcat(s[..j], s[j..], p);
    WhereEmpty(s[..j], p);
    assert s[..j][i] == s[i];
    WhereEmpty(s[j..], p);
    assert s[j..][0] == s[j];
  }

  /** Filtering two permutations of each other gives permutations of each other. */
  lemma WherePermutation<T>(s: seq<T>, t: seq<T>, p: T -> bool)
    requires multiset(s) == multiset(t)
    ensures multiset(Where(s, p)) == multiset(Where(t, p))
    ensures |Where(s, p)| == |Where(t, p)|
  {
    forall x ensures multiset(Where(s, p))[x] == multiset(Where(t, p))[x] {
      WhereCount(s, p, x);
      WhereCount(t, p, x);
    }
    MultisetExtensionality(multiset(Where(s, p)), multiset(Where(t, p)));
    assert |multiset(Where(s, p))| == |Where(s, p)|;
    assert |multiset(Where(t, p))| == |Where(t, p)|;
  }

  /** Multisets with the same multiplicities are equal. */
  lemma MultisetExtensionality<T>(a: multiset<T>, b: multiset<T>)
    requires forall x :: a[x] == b[x]
    ensures a == b
  {
  }

  /** Replacing one element changes the number kept by what the old and the new element contribute. */
  lemma {:induction false} WhereUpdate<T>(s: seq<T>, k: nat, y: T, p: T -> bool)
    requires k < |s|
    ensures |Where(s[k := y], p)| == |Where(s, p)| - (if p(s[k]) then 1 else 0) + (if p(y) then 1 else 0)
    decreases |s|
  {
    if k == 0 {
      assert s[k := y][1..] == s[1..];
    } else {
      WhereUpdate(s[1..], k - 1, y, p);
      assert s[k := y][1..] == s[1..][k - 1 := y];
    }
  }

  /** Replacing an element that the filter rejects by another one it rejects changes nothing it keeps. */
  lemma {:induction false} WhereUpdateRejected<T>(s: seq<T>, k: nat, y: T, p: T -> bool)
    requires k < |s| && !p(s[k]) && !p(y)
    ensures Where(s[k := y], p) == Where(s, p)
    decreases |s|
  {
    if k == 0 {
      assert s[k := y][1..] == s[1..];
    } else {
      WhereUpdateRejected(s[1..], k - 1, y, p);
      assert s[k := y][1..] == s[1..][k - 1 := y];
    }
  }
}
