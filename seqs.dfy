/** Selecting the elements of a sequence that satisfy a condition, in order: a list comprehension with an `if`. */
module Seqs {

  /** The elements of `s` that satisfy `keep`, in their original order. */
  function Select<T>(s: seq<T>, keep: T -> bool): (r: seq<T>)
    ensures |r| <= |s|
    ensures forall k :: 0 <= k < |r| ==> r[k] in s && keep(r[k])
  {
    if s == [] then []
    else
      var init := s[..|s| - 1];
      var rest := Select(init, keep);
      assert forall k :: 0 <= k < |rest| ==> rest[k] in s by {
        forall k | 0 <= k < |rest| ensures rest[k] in s {
          assert rest[k] in init;
        }
      }
      rest + (if keep(s[|s| - 1]) then [s[|s| - 1]] else [])
  }

  /** The positions in `s` of the elements that `Select` keeps, in increasing order. */
  function Positions<T>(s: seq<T>, keep: T -> bool): seq<int> {
    if s == [] then []
    else Positions(s[..|s| - 1], keep) + (if keep(s[|s| - 1]) then [|s| - 1] else [])
  }

  /** `r` is the subsequence of `s` at the strictly increasing positions `idx`. */
  ghost predicate SubsequenceAt<T>(r: seq<T>, s: seq<T>, idx: seq<int>) {
    && |idx| == |r|
    && (forall k :: 0 <= k < |idx| ==> 0 <= idx[k] < |s| && r[k] == s[idx[k]])
    && (forall k, l :: 0 <= k < l < |idx| ==> idx[k] < idx[l])
  }

  /** `Select` keeps exactly the elements that satisfy `keep`, at their positions and in their order. */
  lemma {:induction false} SelectIsSubsequence<T>(s: seq<T>, keep: T -> bool)
    ensures SubsequenceAt(Select(s, keep), s, Positions(s, keep))
    ensures forall i :: 0 <= i < |s| ==> (i in Positions(s, keep) <==> keep(s[i]))
  {
    if s != [] {
      var init := s[..|s| - 1];
      SelectIsSubsequence(init, keep);
      var idx := Positions(init, keep);
      assert forall k :: 0 <= k < |idx| ==> idx[k] < |init|;
      assert forall i :: 0 <= i < |init| ==> s[i] == init[i];
    }
  }

  /** An element is selected exactly when it occurs in `s` and satisfies `keep`. */
  lemma {:induction false} SelectMembership<T>(s: seq<T>, keep: T -> bool, x: T)
    ensures x in Select(s, keep) <==> x in s && keep(x)
  {
    if s != [] {
      var init := s[..|s| - 1];
      SelectMembership(init, keep, x);
      assert s == init + [s[|s| - 1]];
    }
  }

  /** Selecting from a concatenation concatenates the selections. */
  lemma {:induction false} SelectAppend<T>(a: seq<T>, b: seq<T>, keep: T -> bool)
    ensures Select(a + b, keep) == Select(a, keep) + Select(b, keep)
  {
    if b == [] {
      assert a + b == a;
    } else {
      var init := b[..|b| - 1];
      SelectAppend(a, init, keep);
      assert (a + b)[..|a + b| - 1] == a + init;
    }
  }

  /** When every element satisfies `keep`, nothing is dropped. */
  lemma {:induction false} SelectAll<T>(s: seq<T>, keep: T -> bool)
    requires forall x :: x in s ==> keep(x)
    ensures Select(s, keep) == s
  {
    if s != [] {
      var init := s[..|s| - 1];
      assert forall x :: x in init ==> x in s;
      SelectAll(init, keep);
    }
  }

  /** Two conditions that agree position by position on two sequences of equal length pick the same positions. */
  lemma {:induction false} PositionsAgree<T>(s: seq<T>, t: seq<T>, keepS: T -> bool, keepT: T -> bool)
    requires |s| == |t|
    requires forall i :: 0 <= i < |s| ==> keepS(s[i]) == keepT(t[i])
    ensures Positions(s, keepS) == Positions(t, keepT)
  {
    if s != [] {
      PositionsAgree(s[..|s| - 1], t[..|t| - 1], keepS, keepT);
    }
  }

  /** Conditions that agree on every element of `s` select the same elements. */
  lemma {:induction false} SelectAgree<T>(s: seq<T>, keep1: T -> bool, keep2: T -> bool)
    requires forall x :: x in s ==> keep1(x) == keep2(x)
    ensures Select(s, keep1) == Select(s, keep2)
  {
    if s != [] {
      var init := s[..|s| - 1];
      assert forall x :: x in init ==> x in s;
      SelectAgree(init, keep1, keep2);
    }
  }
}
