/** Generic sequence functions: an order-preserving filter and flattening. */
module Seqs {

  /** `a` can be obtained from `b` by deleting elements. */
  ghost predicate IsSubsequence<T>(a: seq<T>, b: seq<T>)
  {
    if a == [] then true
    else if b == [] then false
    else if a[0] == b[0] then IsSubsequence(a[1..], b[1..])
    else IsSubsequence(a, b[1..])
  }

  /** The elements of `s` that satisfy `keep`, in their original order. */
  function Keep<T>(s: seq<T>, keep: T -> bool): (r: seq<T>)
    ensures |r| <= |s|
    ensures forall i :: 0 <= i < |r| ==> keep(r[i])
  {
    if s == [] then []
    else if keep(s[0]) then [s[0]] + Keep(s[1..], keep)
    else Keep(s[1..], keep)
  }

  /** The filter keeps the order of what it keeps, keeps each passing
      element as often as it occurs, and nothing else. */
  lemma {:induction false} KeepContents<T>(s: seq<T>, keep: T -> bool)
    ensures IsSubsequence(Keep(s, keep), s)
    ensures forall x :: keep(x) ==> multiset(Keep(s, keep))[x] == multiset(s)[x]
    ensures forall x :: !keep(x) ==> multiset(Keep(s, keep))[x] == 0
  {
    if s != [] {
      KeepContents(s[1..], keep);
      assert s == [s[0]] + s[1..];
    }
  }

  lemma {:induction false} KeepAppend<T>(a: seq<T>, b: seq<T>, keep: T -> bool)
    ensures Keep(a + b, keep) == Keep(a, keep) + Keep(b, keep)
  {
    if a == [] {
      assert a + b == b;
    } else {
      assert (a + b)[1..] == a[1..] + b;
      KeepAppend(a[1..], b, keep);
    }
  }

  /** A sequence whose elements all pass the test is left unchanged. */
  lemma {:induction false} KeepAll<T>(s: seq<T>, keep: T -> bool)
    requires forall i :: 0 <= i < |s| ==> keep(s[i])
    ensures Keep(s, keep) == s
  {
    if s != [] {
      KeepAll(s[1..], keep);
    }
  }

  /** A sequence with nothing passing the test filters to empty. */
  lemma {:induction false} KeepNone<T>(s: seq<T>, keep: T -> bool)
    requires forall i :: 0 <= i < |s| ==> !keep(s[i])
    ensures Keep(s, keep) == []
  {
    if s != [] {
      KeepNone(s[1..], keep);
    }
  }

  /** Filtering twice is filtering once. */
  lemma {:induction false} KeepIdempotent<T>(s: seq<T>, keep: T -> bool)
    ensures Keep(Keep(s, keep), keep) == Keep(s, keep)
  {
    KeepAll(Keep(s, keep), keep);
  }

  /** Filtering with a stronger test after a weaker one is the stronger filter alone. */
  lemma {:induction false} KeepAbsorb<T>(s: seq<T>, weak: T -> bool, strong: T -> bool)
    requires forall x :: strong(x) ==> weak(x)
    ensures Keep(Keep(s, weak), strong) == Keep(s, strong)
  {
    if s != [] {
      KeepAbsorb(s[1..], weak, strong);
    }
  }

  lemma {:induction false} SubsequenceMultiset<T>(a: seq<T>, b: seq<T>)
    requires IsSubsequence(a, b)
    ensures multiset(a) <= multiset(b)
  {
    if a != [] && b != [] {
      assert b == [b[0]] + b[1..];
      if a[0] == b[0] {
        assert a == [a[0]] + a[1..];
        SubsequenceMultiset(a[1..], b[1..]);
      } else {
        SubsequenceMultiset(a, b[1..]);
      }
    }
  }

  /** `Keep` is the only subsequence that holds exactly the elements passing
      the test, each as often as in the input: the filter neither reorders,
      drops nor duplicates anything it keeps. */
  lemma {:induction false} KeepUnique<T>(s: seq<T>, r: seq<T>, keep: T -> bool)
    requires IsSubsequence(r, s)
    requires forall i :: 0 <= i < |r| ==> keep(r[i])
    requires forall x :: keep(x) ==> multiset(r)[x] == multiset(s)[x]
    ensures r == Keep(s, keep)
    decreases |s|, 1
  {
    if s != [] {
      if r != [] && r[0] == s[0] {
        KeepUniqueTaken(s, r, keep);
      } else {
        KeepUniqueSkipped(s, r, keep);
      }
    }
  }

  /** The case of `KeepUnique` where the first element is kept. */
  lemma {:induction false} KeepUniqueTaken<T>(s: seq<T>, r: seq<T>, keep: T -> bool)
    requires s != [] && r != [] && r[0] == s[0]
    requires IsSubsequence(r, s)
    requires forall i :: 0 <= i < |r| ==> keep(r[i])
    requires forall x :: keep(x) ==> multiset(r)[x] == multiset(s)[x]
    ensures r == Keep(s, keep)
    decreases |s|, 0
  {
    var t := s[1..];
    assert s == [s[0]] + t;
    assert r == [r[0]] + r[1..];
    assert forall x :: keep(x) ==> multiset(r[1..])[x] == multiset(t)[x];
    KeepUnique(t, r[1..], keep);
  }

  /** The case of `KeepUnique` where the first element is dropped. */
  lemma {:induction false} KeepUniqueSkipped<T>(s: seq<T>, r: seq<T>, keep: T -> bool)
    requires s != [] && (r == [] || r[0] != s[0])
    requires IsSubsequence(r, s)
    requires forall i :: 0 <= i < |r| ==> keep(r[i])
    requires forall x :: keep(x) ==> multiset(r)[x] == multiset(s)[x]
    ensures r == Keep(s, keep)
    decreases |s|, 0
  {
    var t := s[1..];
    assert s == [s[0]] + t;
    assert IsSubsequence(r, t);
    SubsequenceMultiset(r, t);
    assert !keep(s[0]);
    KeepUnique(t, r, keep);
  }

  /** Concatenation of a sequence of sequences, in order. */
  function Flatten<T>(ss: seq<seq<T>>): seq<T>
  {
    if ss == [] then [] else ss[0] + Flatten(ss[1..])
  }
}
