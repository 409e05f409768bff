/** The two array transforms the objective list is built from: `Array.prototype.map`
    and `Array.prototype.filter`, as pure functions on sequences, with the facts about
    order, membership and counting that the list operations rely on. */
module Lists {

  /** `a` is obtained from `b` by deleting elements, keeping the order of the rest. */
  ghost predicate IsSubsequence<T>(a: seq<T>, b: seq<T>)
    decreases |b|
  {
    if a == [] then true
    else if b == [] then false
    else (a[0] == b[0] && IsSubsequence(a[1..], b[1..])) || IsSubsequence(a, b[1..])
  }

  /** `xs.map(f)`: one result per element, in the same order. */
  function Map<T, U>(s: seq<T>, f: T -> U): (r: seq<U>)
    ensures |r| == |s|
    ensures forall i :: 0 <= i < |s| ==> r[i] == f(s[i])
  {
    if s == [] then [] else [f(s[0])] + Map(s[1..], f)
  }

  /** `xs.filter(p)`: the elements that pass `p`, in their original order, each as
      many times as it occurs in `xs`. */
  function Filter<T(!new)>(s: seq<T>, p: T -> bool): (r: seq<T>)
    ensures |r| <= |s|
    ensures forall x :: x in r <==> x in s && p(x)
    ensures forall x {:trigger multiset(r)[x]} :: multiset(r)[x] == if p(x) then multiset(s)[x] else 0
    ensures IsSubsequence(r, s)
  {
    if s == [] then []
    else
      assert s == [s[0]] + s[1..];
      if p(s[0]) then [s[0]] + Filter(s[1..], p)
      else Filter(s[1..], p)
  }

  /** A filter that every element passes returns its input unchanged. */
  lemma {:induction false} FilterAllPass<T(!new)>(s: seq<T>, p: T -> bool)
    requires forall x :: x in s ==> p(x)
    ensures Filter(s, p) == s
  {
    if s != [] {
      assert s[0] in s;
      forall x | x in s[1..] ensures p(x) {
        assert x in s;
      }
      FilterAllPass(s[1..], p);
      assert s == [s[0]] + s[1..];
    }
  }

  /** Filtering a list extended by one element extends the filtered list by that
      element exactly when it passes. */
  lemma {:induction false} FilterAppend<T(!new)>(s: seq<T>, x: T, p: T -> bool)
    ensures Filter(s + [x], p) == Filter(s, p) + (if p(x) then [x] else [])
  {
    if s == [] {
      assert [x][1..] == [];
    } else {
      assert (s + [x])[0] == s[0];
      assert (s + [x])[1..] == s[1..] + [x];
      FilterAppend(s[1..], x, p);
    }
  }

  /** The length of a filtered list is the number of positions of the input whose
      element passes. */
  lemma {:induction false} FilterLengthIsCount<T(!new)>(s: seq<T>, p: T -> bool, positions: set<int>)
    requires forall i :: i in positions <==> 0 <= i < |s| && p(s[i])
    ensures |Filter(s, p)| == |positions|
    decreases |s|
  {
    if s == [] {
      assert forall i :: i !in positions;
      assert positions == {};
    } else {
      var t, x := s[..|s| - 1], s[|s| - 1];
      assert s == t + [x];
      FilterAppend(t, x, p);
      var before := positions - {|t|};
      forall i ensures i in before <==> 0 <= i < |t| && p(t[i]) {
        if 0 <= i < |t| {
          assert t[i] == s[i];
        }
      }
      FilterLengthIsCount(t, p, before);
    }
  }

  /** Two filters whose predicates are complementary on `s` split it: the lengths of
      their results add up to `|s|`. */
  lemma {:induction false} FilterComplementLengths<T(!new)>(s: seq<T>, p: T -> bool, q: T -> bool)
    requires forall x :: x in s ==> (q(x) <==> !p(x))
    ensures |Filter(s, p)| + |Filter(s, q)| == |s|
  {
    if s != [] {
      assert s[0] in s;
      forall x | x in s[1..] ensures q(x) <==> !p(x) {
        assert x in s;
      }
      FilterComplementLengths(s[1..], p, q);
    }
  }

  /** Two lists of the same length whose elements agree, position by position, on
      whether they pass, give filtered lists of the same length. */
  lemma {:induction false} FilterLengthsAgree<T(!new), U(!new)>(s: seq<T>, p: T -> bool, t: seq<U>, q: U -> bool)
    requires |s| == |t|
    requires forall i :: 0 <= i < |s| ==> (p(s[i]) <==> q(t[i]))
    ensures |Filter(s, p)| == |Filter(t, q)|
  {
    if s != [] {
      assert p(s[0]) <==> q(t[0]);
      forall i | 0 <= i < |s[1..]| ensures p(s[1..][i]) <==> q(t[1..][i]) {
        assert s[1..][i] == s[i + 1] && t[1..][i] == t[i + 1];
      }
      FilterLengthsAgree(s[1..], p, t[1..], q);
    }
  }

  /** A subsequence of a subsequence is a subsequence. */
  lemma {:induction false} SubsequenceTransitive<T>(a: seq<T>, b: seq<T>, c: seq<T>)
    requires IsSubsequence(a, b) && IsSubsequence(b, c)
    ensures IsSubsequence(a, c)
    decreases |c|
  {
    if a != [] {
      assert b != [] && c != [];
      if b[0] == c[0] && IsSubsequence(b[1..], c[1..]) {
        if a[0] == b[0] && IsSubsequence(a[1..], b[1..]) {
          SubsequenceTransitive(a[1..], b[1..], c[1..]);
        } else {
          assert IsSubsequence(a, b[1..]);
          SubsequenceTransitive(a, b[1..], c[1..]);
        }
      } else {
        SubsequenceTransitive(a, b, c[1..]);
      }
    }
  }
}
