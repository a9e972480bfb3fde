/** The array operations the storefront uses (`filter`, `find`, `slice(0, n)`),
    stated over Dafny sequences. */
module Seqs {
  import opened Wrappers

  /** `s.filter(f)`: the elements that satisfy `f`, in their original order. */
  function Filter<T(!new)>(s: seq<T>, f: T -> bool): (r: seq<T>)
    ensures |r| <= |s|
    ensures forall x :: x in r <==> x in s && f(x)
  {
    if s == [] then [] else (if f(s[0]) then [s[0]] else []) + Filter(s[1..], f)
  }

  /** `s.find(f)`: the first element that satisfies `f`, or undefined. */
  function Find<T(!new)>(s: seq<T>, f: T -> bool): (r: Option<T>)
    ensures r.None? <==> forall x :: x in s ==> !f(x)
    ensures r.Some? ==> r.value in s && f(r.value)
  {
    if s == [] then None else if f(s[0]) then Some(s[0]) else Find(s[1..], f)
  }

  /** `s.slice(0, n)`: the first `n` elements, or all of them when there are fewer. */
  function Take<T>(s: seq<T>, n: nat): (r: seq<T>)
    ensures |r| == if |s| < n then |s| else n
    ensures r <= s
    ensures forall i :: 0 <= i < |r| ==> r[i] == s[i]
  {
    if |s| <= n then s else s[..n]
  }

  /** Every element of a prefix of a filtered sequence passes the filter. */
  lemma TakeSatisfies<T>(s: seq<T>, f: T -> bool, n: nat)
    requires forall x :: x in s ==> f(x)
    ensures forall i :: 0 <= i < |Take(s, n)| ==> f(Take(s, n)[i])
  {
    forall i | 0 <= i < |Take(s, n)|
      ensures f(Take(s, n)[i])
    {
      assert Take(s, n)[i] == s[i];
    }
  }

  /** `r` can be obtained from `s` by deleting elements: `r` keeps `s`'s order. */
  ghost predicate IsSubsequence<T>(r: seq<T>, s: seq<T>)
    decreases |s|
  {
    if r == [] then true
    else if s == [] then false
    else (r[0] == s[0] && IsSubsequence(r[1..], s[1..])) || IsSubsequence(r, s[1..])
  }

  /** Filtering a concatenation filters each part: together with the
      one-element case this pins `Filter` down completely. */
  lemma {:induction false} FilterConcat<T(!new)>(s: seq<T>, t: seq<T>, f: T -> bool)
    ensures Filter(s + t, f) == Filter(s, f) + Filter(t, f)
  {
    if s == [] {
      assert s + t == t;
    } else {
      assert (s + t)[0] == s[0];
      assert (s + t)[1..] == s[1..] + t;
      FilterConcat(s[1..], t, f);
    }
  }

  /** The filtered elements appear in the order they have in `s`. */
  lemma {:induction false} FilterIsSubsequence<T(!new)>(s: seq<T>, f: T -> bool)
    ensures IsSubsequence(Filter(s, f), s)
  {
    if s != [] {
      FilterIsSubsequence(s[1..], f);
      if f(s[0]) {
        assert Filter(s, f) == [s[0]] + Filter(s[1..], f);
      } else {
        assert Filter(s, f) == Filter(s[1..], f);
        SubsequenceOfTail(Filter(s, f), s);
      }
    }
  }

  /** A subsequence of the tail is a subsequence of the whole. */
  lemma {:induction false} SubsequenceOfTail<T>(r: seq<T>, s: seq<T>)
    requires s != [] && IsSubsequence(r, s[1..])
    ensures IsSubsequence(r, s)
  {
  }

  /** Every sequence is a subsequence of itself. */
  lemma {:induction false} SubsequenceReflexive<T>(s: seq<T>)
    ensures IsSubsequence(s, s)
  {
    if s != [] {
      SubsequenceReflexive(s[1..]);
    }
  }

  /** `find` returns the FIRST match: every element before it fails `f`. */
  lemma {:induction false} FindIsFirst<T(!new)>(s: seq<T>, f: T -> bool)
    requires Find(s, f).Some?
    ensures exists i :: 0 <= i < |s| && s[i] == Find(s, f).value &&
                        forall j :: 0 <= j < i ==> !f(s[j])
  {
    if !f(s[0]) {
      FindIsFirst(s[1..], f);
      var i :| 0 <= i < |s[1..]| && s[1..][i] == Find(s[1..], f).value &&
                forall j :: 0 <= j < i ==> !f(s[1..][j]);
      assert s[i + 1] == Find(s, f).value;
      assert forall j :: 0 <= j < i + 1 ==> !f(s[j]) by {
        forall j | 0 <= j < i + 1 ensures !f(s[j]) {
          if j > 0 { assert s[j] == s[1..][j - 1]; }
        }
      }
    } else {
      assert s[0] == Find(s, f).value;
    }
  }

  /** When no element passes, `filter` returns nothing. */
  lemma {:induction false} FilterKeepsNone<T(!new)>(s: seq<T>, f: T -> bool)
    requires forall i :: 0 <= i < |s| ==> !f(s[i])
    ensures Filter(s, f) == []
  {
    if s != [] {
      FilterKeepsNone(s[1..], f);
    }
  }

  /** When exactly the element at `k` passes, `find` returns it. */
  lemma {:induction false} FindUnique<T(!new)>(s: seq<T>, f: T -> bool, k: nat)
    requires k < |s| && f(s[k])
    requires forall j :: 0 <= j < |s| && j != k ==> !f(s[j])
    ensures Find(s, f) == Some(s[k])
  {
    if k > 0 {
      FindUnique(s[1..], f, k - 1);
    }
  }

  /** When no element passes, `find` returns undefined. */
  lemma {:induction false} FindNoneAt<T(!new)>(s: seq<T>, f: T -> bool)
    requires forall i :: 0 <= i < |s| ==> !f(s[i])
    ensures Find(s, f) == None
  {
    if s != [] {
      FindNoneAt(s[1..], f);
    }
  }
}
