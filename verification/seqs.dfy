/**
  Sequence vocabulary shared by every finding set: a boolean-mask filter (pandas'
  `df[mask]`), order-preserving subsequences, multiplicities, exact sums and the
  lexicographic string order that pandas uses to sort outer-join keys.
 */
module Seqs {

  /** `r` is `s` with some elements dropped and the rest kept in their original order. */
  predicate SubseqOf<T(==)>(r: seq<T>, s: seq<T>)
    decreases |s|
  {
    && |r| <= |s|
    && (|r| == 0 || (r[0] == s[0] && SubseqOf(r[1..], s[1..])) || SubseqOf(r, s[1..]))
  }

  /** `s[mask]` where the mask is `p`: keeps exactly the elements satisfying `p`, in order,
      each as often as it occurs in `s`. */
  function Filter<T(==,!new)>(s: seq<T>, p: T -> bool): (r: seq<T>)
    ensures |r| <= |s|
    ensures forall x :: x in r <==> x in s && p(x)
    ensures forall x :: multiset(r)[x] == if p(x) then multiset(s)[x] else 0
    ensures SubseqOf(r, s)
    decreases |s|
  {
    if |s| == 0 then []
    else
      var rest := Filter(s[1..], p);
      assert s == [s[0]] + s[1..];
      if p(s[0]) then
        assert ([s[0]] + rest)[1..] == rest;
        [s[0]] + rest
      else rest
  }

  /** Filtering twice with the same mask changes nothing the second time. */
  lemma {:induction false} FilterIdempotent<T(!new)>(s: seq<T>, p: T -> bool)
    ensures Filter(Filter(s, p), p) == Filter(s, p)
    decreases |s|
  {
    if |s| > 0 {
      FilterIdempotent(s[1..], p);
      if p(s[0]) {
        assert ([s[0]] + Filter(s[1..], p))[1..] == Filter(s[1..], p);
      }
    }
  }

  /** A mask weaker on the elements of `s` keeps at least as many of them. */
  lemma {:induction false} FilterMonotone<T(!new)>(s: seq<T>, p: T -> bool, q: T -> bool)
    requires forall x :: x in s && p(x) ==> q(x)
    ensures |Filter(s, p)| <= |Filter(s, q)|
    decreases |s|
  {
    if |s| > 0 {
      FilterMonotone(s[1..], p, q);
    }
  }

  /** A mask and its negation split a sequence: every element lands on exactly one side. */
  lemma {:induction false} FilterSplitCount<T(!new)>(s: seq<T>, p: T -> bool, q: T -> bool)
    requires forall x :: q(x) == !p(x)
    ensures |Filter(s, p)| + |Filter(s, q)| == |s|
    decreases |s|
  {
    if |s| > 0 {
      FilterSplitCount(s[1..], p, q);
    }
  }

  /** A value occurs at least twice in `s` exactly when some other position holds it too:
      pandas' `duplicated(keep=False)` marks every member of a repeated group. */
  lemma MultiplicityAtLeastTwo<T>(s: seq<T>, i: int)
    requires 0 <= i < |s|
    ensures multiset(s)[s[i]] >= 2 <==> exists j :: 0 <= j < |s| && j != i && s[j] == s[i]
  {
    var rest := s[..i] + s[i + 1..];
    assert s == s[..i] + [s[i]] + s[i + 1..];
    assert multiset(s) == multiset(rest) + multiset{s[i]};
    if multiset(rest)[s[i]] >= 1 {
      assert s[i] in rest;
      var k :| 0 <= k < |rest| && rest[k] == s[i];
      if k < i {
        assert s[k] == s[i];
      } else {
        assert s[k + 1] == s[i];
      }
    }
    if exists j :: 0 <= j < |s| && j != i && s[j] == s[i] {
      var j :| 0 <= j < |s| && j != i && s[j] == s[i];
      if j < i {
        assert rest[j] == s[i];
      } else {
        assert rest[j - 1] == s[i];
      }
      assert s[i] in multiset(rest);
    }
  }

  /** `f` applied to every element, in order. */
  function Map<A, B>(s: seq<A>, f: A -> B): (r: seq<B>)
    ensures |r| == |s|
    ensures forall i :: 0 <= i < |s| ==> r[i] == f(s[i])
    decreases |s|
  {
    if |s| == 0 then [] else [f(s[0])] + Map(s[1..], f)
  }

  /** A map that sends nothing else to `f(x)` keeps the multiplicity of `x`. */
  lemma {:induction false} MapCount<A, B>(s: seq<A>, f: A -> B, x: A)
    requires forall u :: f(u) == f(x) ==> u == x
    ensures multiset(Map(s, f))[f(x)] == multiset(s)[x]
    decreases |s|
  {
    if |s| > 0 {
      assert s == [s[0]] + s[1..];
      if s[0] != x {
        assert f(s[0]) != f(x);
      }
      MapCount(s[1..], f, x);
    }
  }

  /** A value outside the image of `f` occurs nowhere in a mapped sequence. */
  lemma MapMissing<A, B>(s: seq<A>, f: A -> B, y: B)
    requires forall x :: f(x) != y
    ensures multiset(Map(s, f))[y] == 0
  {
    forall i | 0 <= i < |s| ensures Map(s, f)[i] != y {
      assert f(s[i]) != y;
    }
    assert y !in Map(s, f);
  }

  // ----- Lexicographic order on strings (Python's `<` on `str`, by code point) -----

  predicate LexLess(s: string, t: string)
    decreases |s|
  {
    if |t| == 0 then false
    else if |s| == 0 then true
    else if s[0] != t[0] then s[0] < t[0]
    else LexLess(s[1..], t[1..])
  }

  lemma {:induction false} LexLessIrreflexive(s: string)
    ensures !LexLess(s, s)
    decreases |s|
  {
    if |s| > 0 {
      LexLessIrreflexive(s[1..]);
    }
  }

  lemma {:induction false} LexLessTransitive(s: string, t: string, u: string)
    requires LexLess(s, t) && LexLess(t, u)
    ensures LexLess(s, u)
    decreases |s|
  {
    if |s| > 0 && s[0] == t[0] && t[0] == u[0] {
      LexLessTransitive(s[1..], t[1..], u[1..]);
    }
  }

  lemma {:induction false} LexLessTotal(s: string, t: string)
    requires s != t
    ensures LexLess(s, t) || LexLess(t, s)
    decreases |s|
  {
    if |s| > 0 && |t| > 0 && s[0] == t[0] {
      assert s == [s[0]] + s[1..] && t == [t[0]] + t[1..];
      LexLessTotal(s[1..], t[1..]);
    }
  }

  predicate StrictlySorted(ks: seq<string>) {
    forall i, j :: 0 <= i < j < |ks| ==> LexLess(ks[i], ks[j])
  }

  /** Insert `k` into a strictly sorted key list, skipping it when already present. */
  function InsertKey(k: string, ks: seq<string>): (r: seq<string>)
    requires StrictlySorted(ks)
    ensures StrictlySorted(r)
    ensures forall x :: x in r <==> x == k || x in ks
    decreases |ks|
  {
    if |ks| == 0 then [k]
    else if k == ks[0] then ks
    else if LexLess(k, ks[0]) then
      assert forall j :: 0 < j < |ks| ==> LexLess(k, ks[j]) by {
        forall j | 0 < j < |ks| ensures LexLess(k, ks[j]) {
          LexLessTransitive(k, ks[0], ks[j]);
        }
      }
      [k] + ks
    else
      LexLessTotal(k, ks[0]);
      var rest := InsertKey(k, ks[1..]);
      assert forall x :: x in rest ==> LexLess(ks[0], x);
      [ks[0]] + rest
  }

  /** The distinct strings of `xs`, in lexicographic order. */
  function SortedDistinct(xs: seq<string>): (r: seq<string>)
    ensures StrictlySorted(r)
    ensures forall x :: x in r <==> x in xs
    decreases |xs|
  {
    if |xs| == 0 then []
    else InsertKey(xs[|xs| - 1], SortedDistinct(xs[..|xs| - 1]))
  }

  /** A strictly sorted list holds no string twice. */
  lemma StrictlySortedDistinct(ks: seq<string>, i: int, j: int)
    requires StrictlySorted(ks)
    requires 0 <= i < |ks| && 0 <= j < |ks| && i != j
    ensures ks[i] != ks[j]
  {
    if i < j {
      LexLessIrreflexive(ks[i]);
    } else {
      LexLessIrreflexive(ks[j]);
    }
  }

  /** Dropping the first key keeps the order and leaves that key out. */
  lemma StrictlySortedTail(ks: seq<string>)
    requires StrictlySorted(ks) && |ks| > 0
    ensures StrictlySorted(ks[1..]) && ks[0] !in ks[1..]
  {
    forall i, j | 0 <= i < j < |ks[1..]| ensures LexLess(ks[1..][i], ks[1..][j]) {
      assert ks[1..][i] == ks[i + 1] && ks[1..][j] == ks[j + 1];
    }
    if ks[0] in ks[1..] {
      var j :| 0 <= j < |ks[1..]| && ks[1..][j] == ks[0];
      StrictlySortedDistinct(ks, 0, j + 1);
    }
  }

}
