/**
  Python's list comprehension `[x for x in xs if p(x)]`, and the loop that
  appends every matching element to an initially empty list, both compute
  `Keep(xs, p)`. This module proves what that list is: the elements of `xs`
  that satisfy `p`, each as often as in `xs`, in the order of `xs`, and
  nothing else. The first element of the list is the first match.
*/
module Subsequences {

  /** The elements of `s` that satisfy `p`, in the order of `s`. */
  function Keep<T>(s: seq<T>, p: T -> bool): (r: seq<T>)
    ensures |r| <= |s|
    ensures forall i :: 0 <= i < |r| ==> p(r[i])
  {
    if s == [] then []
    else if p(s[0]) then [s[0]] + Keep(s[1..], p)
    else Keep(s[1..], p)
  }

  /** `r` can be obtained from `s` by deleting elements, the rest keeping their order. */
  ghost predicate IsSubseq<T>(r: seq<T>, s: seq<T>)
    decreases |s|
  {
    if r == [] then true
    else if s == [] then false
    else if r[0] == s[0] then IsSubseq(r[1..], s[1..])
    else IsSubseq(r, s[1..])
  }

  /** `r` is exactly what filtering `s` by `p` must give: it keeps the order of
      `s`, it holds only elements that satisfy `p`, and it holds every copy of
      every such element. (KeepUnique shows that only Keep(s, p) does.) */
  ghost predicate IsSelectionOf<T(!new)>(r: seq<T>, s: seq<T>, p: T -> bool)
  {
    && IsSubseq(r, s)
    && (forall i :: 0 <= i < |r| ==> p(r[i]))
    && (forall x :: p(x) ==> multiset(r)[x] == multiset(s)[x])
  }

  /** `h` is the first element of `s`, in order, that satisfies `p`. */
  ghost predicate IsFirstMatch<T>(s: seq<T>, p: T -> bool, h: T)
  {
    exists j :: 0 <= j < |s| && s[j] == h && p(h) && forall i :: 0 <= i < j ==> !p(s[i])
  }

  /** Filtering the concatenation is concatenating the filtered parts; in
      particular, one more element appended to the input appends it to the
      output exactly when it matches. */
  lemma {:induction false} KeepAppend<T>(a: seq<T>, b: seq<T>, p: T -> bool)
    ensures Keep(a + b, p) == Keep(a, p) + Keep(b, p)
  {
    if a != [] {
      assert (a + b)[1..] == a[1..] + b;
      KeepAppend(a[1..], b, p);
    } else {
      assert a + b == b;
    }
  }

  /** Membership: an element is kept iff it is in the input and matches. */
  lemma {:induction false} KeepMembers<T>(s: seq<T>, p: T -> bool)
    ensures forall x :: x in Keep(s, p) <==> x in s && p(x)
  {
    if s != [] {
      KeepMembers(s[1..], p);
      assert forall x :: x in s <==> x == s[0] || x in s[1..];
    }
  }

  /** Every element of the filtered list comes from the input. */
  lemma {:induction false} KeepElementsFromInput<T>(s: seq<T>, p: T -> bool)
    ensures forall i :: 0 <= i < |Keep(s, p)| ==> Keep(s, p)[i] in s
  {
    if s != [] {
      KeepElementsFromInput(s[1..], p);
      assert forall x :: x in s[1..] ==> x in s;
    }
  }

  /** The filtered list is empty iff no element of the input matches. */
  lemma {:induction false} KeepEmpty<T>(s: seq<T>, p: T -> bool)
    ensures Keep(s, p) == [] <==> forall i :: 0 <= i < |s| ==> !p(s[i])
  {
    if s != [] {
      KeepEmpty(s[1..], p);
      assert forall i :: 1 <= i < |s| ==> s[i] == s[1..][i - 1];
    }
  }

  /** The k-th element of the filtered list is some element s[j] that matches
      and is preceded, in `s`, by exactly k matching elements. */
  lemma {:induction false} KeepIndex<T>(s: seq<T>, p: T -> bool, k: nat)
    requires k < |Keep(s, p)|
    ensures exists j :: 0 <= j < |s| && s[j] == Keep(s, p)[k] && p(s[j]) && |Keep(s[..j], p)| == k
  {
    assert s != [];
    var t := s[1..];
    if p(s[0]) && k == 0 {
      assert s[..0] == [];
      assert s[0] == Keep(s, p)[k] && |Keep(s[..0], p)| == 0;
    } else {
      var k' := if p(s[0]) then k - 1 else k;
      assert Keep(s, p)[k] == Keep(t, p)[k'];
      KeepIndex(t, p, k');
      var j :| 0 <= j < |t| && t[j] == Keep(t, p)[k'] && p(t[j]) && |Keep(t[..j], p)| == k';
      assert s[..j + 1] == [s[0]] + t[..j];
      KeepAppend([s[0]], t[..j], p);
      assert Keep([s[0]], p) == if p(s[0]) then [s[0]] else [];
      assert s[j + 1] == Keep(s, p)[k] && p(s[j + 1]) && |Keep(s[..j + 1], p)| == k;
    }
  }

  /** First match wins: the head of the filtered list is the first element of
      `s`, in order, that satisfies `p`. */
  lemma {:induction false} KeepFirst<T>(s: seq<T>, p: T -> bool)
    requires Keep(s, p) != []
    ensures IsFirstMatch(s, p, Keep(s, p)[0])
  {
    KeepIndex(s, p, 0);
    var j :| 0 <= j < |s| && s[j] == Keep(s, p)[0] && p(s[j]) && |Keep(s[..j], p)| == 0;
    KeepEmpty(s[..j], p);
    assert forall i :: 0 <= i < j ==> s[i] == s[..j][i];
  }

  /** The filtered list is a subsequence of the input. */
  lemma {:induction false} KeepIsSubseq<T>(s: seq<T>, p: T -> bool)
    ensures IsSubseq(Keep(s, p), s)
  {
    if s != [] {
      KeepIsSubseq(s[1..], p);
      if !p(s[0]) && Keep(s[1..], p) != [] && Keep(s[1..], p)[0] == s[0] {
        // Keep(s[1..], p)[0] satisfies p, so it cannot be s[0]
        assert false;
      }
    }
  }

  /** Each matching element occurs in the filtered list as often as in the
      input; a non-matching one does not occur at all. */
  lemma {:induction false} KeepCount<T>(s: seq<T>, p: T -> bool, x: T)
    ensures multiset(Keep(s, p))[x] == if p(x) then multiset(s)[x] else 0
  {
    if s == [] {
    } else {
      KeepCount(s[1..], p, x);
      assert s == [s[0]] + s[1..];
      assert multiset(s) == multiset{s[0]} + multiset(s[1..]);
      if p(s[0]) {
        assert multiset(Keep(s, p)) == multiset{s[0]} + multiset(Keep(s[1..], p));
      }
    }
  }

  /** A subsequence has no more copies of anything than the whole. */
  lemma {:induction false} SubseqMultiset<T>(r: seq<T>, s: seq<T>)
    requires IsSubseq(r, s)
    ensures multiset(r) <= multiset(s)
    decreases |s|
  {
    if r == [] {
    } else if r[0] == s[0] {
      SubseqMultiset(r[1..], s[1..]);
      assert r == [r[0]] + r[1..];
      assert s == [s[0]] + s[1..];
    } else {
      SubseqMultiset(r, s[1..]);
      assert s == [s[0]] + s[1..];
    }
  }

  /** Exactness: any list that keeps the order of `s`, holds only matching
      elements and keeps every copy of every matching element is the filtered
      list. So Keep(s, p) is the only order-preserving selection of the
      matching elements of `s`. */
  lemma {:induction false} KeepUnique<T>(s: seq<T>, p: T -> bool, r: seq<T>)
    requires IsSubseq(r, s)
    requires forall i :: 0 <= i < |r| ==> p(r[i])
    requires forall x :: p(x) ==> multiset(r)[x] == multiset(s)[x]
    ensures r == Keep(s, p)
    decreases |s|
  {
    if s == [] {
      assert r == [];
    } else {
      var a, t := s[0], s[1..];
      assert s == [a] + t;
      assert multiset(s) == multiset{a} + multiset(t);
      if p(a) {
        assert multiset(r)[a] == multiset(s)[a] > 0;
        assert r != [];
        if r[0] != a {
          SubseqMultiset(r, t);
          assert false;
        }
        assert r == [a] + r[1..];
        assert multiset(r) == multiset{a} + multiset(r[1..]);
        forall x | p(x)
          ensures multiset(r[1..])[x] == multiset(t)[x]
        {
        }
        assert forall i :: 0 <= i < |r[1..]| ==> r[1..][i] == r[i + 1];
        KeepUnique(t, p, r[1..]);
      } else {
        if r != [] {
          assert p(r[0]);
          assert r[0] != a;
        }
        assert IsSubseq(r, t);
        forall x | p(x)
          ensures multiset(r)[x] == multiset(t)[x]
        {
          assert x != a;
        }
        KeepUnique(t, p, r);
      }
    }
  }

  /** Keep(s, p) is a selection of the matching elements of `s`, and the only one. */
  lemma {:induction false} KeepIsSelection<T(!new)>(s: seq<T>, p: T -> bool)
    ensures IsSelectionOf(Keep(s, p), s, p)
    ensures forall r :: IsSelectionOf(r, s, p) ==> r == Keep(s, p)
  {
    KeepIsSubseq(s, p);
    forall x | p(x)
      ensures multiset(Keep(s, p))[x] == multiset(s)[x]
    {
      KeepCount(s, p, x);
    }
    forall r | IsSelectionOf(r, s, p)
      ensures r == Keep(s, p)
    {
      KeepUnique(s, p, r);
    }
  }
}
