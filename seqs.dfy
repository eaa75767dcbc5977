/** Sequence filtering, the one collection operation both source files build on
    (JavaScript's Array.prototype.filter). */
module Seqs {

  /** The elements of `s` that satisfy `keep`, in their original order. */
  function Filter<T(!new)>(s: seq<T>, keep: T -> bool): (r: seq<T>)
    ensures forall x :: x in r <==> x in s && keep(x)
  {
    if |s| == 0 then []
    else
      assert s == [s[0]] + s[1..];
      (if keep(s[0]) then [s[0]] else []) + Filter(s[1..], keep)
  }

  /** Filtering distributes over concatenation: relative order is kept. */
  lemma {:induction false} FilterAppend<T(!new)>(a: seq<T>, b: seq<T>, keep: T -> bool)
    ensures Filter(a + b, keep) == Filter(a, keep) + Filter(b, keep)
  {
    if |a| == 0 {
      assert a + b == b;
    } else {
      assert (a + b)[1..] == a[1..] + b;
      FilterAppend(a[1..], b, keep);
    }
  }

  /** No extras and no omissions, counting repeats: each kept value occurs
      as often as in `s`, each dropped value not at all. */
  lemma {:induction false} FilterCount<T(!new)>(s: seq<T>, keep: T -> bool, x: T)
    ensures multiset(Filter(s, keep))[x] == if keep(x) then multiset(s)[x] else 0
  {
    if |s| > 0 {
      assert s == [s[0]] + s[1..];
      FilterCount(s[1..], keep, x);
    }
  }

  /** The result is empty exactly when no element is kept. */
  lemma FilterEmpty<T(!new)>(s: seq<T>, keep: T -> bool)
    ensures Filter(s, keep) == [] <==> forall x :: x in s ==> !keep(x)
  {
    if Filter(s, keep) != [] {
      assert Filter(s, keep)[0] in Filter(s, keep);
    }
  }

  /** The result is never longer than the input. */
  lemma {:induction false} FilterLength<T(!new)>(s: seq<T>, keep: T -> bool)
    ensures |Filter(s, keep)| <= |s|
  {
    if |s| > 0 {
      FilterLength(s[1..], keep);
    }
  }

  /** Nothing is dropped when every element is kept. */
  lemma {:induction false} FilterKeepsAll<T(!new)>(s: seq<T>, keep: T -> bool)
    requires forall x :: x in s ==> keep(x)
    ensures Filter(s, keep) == s
  {
    if |s| > 0 {
      assert s[0] in s;
      assert forall x :: x in s[1..] ==> x in s;
      FilterKeepsAll(s[1..], keep);
      assert s == [s[0]] + s[1..];
    }
  }
}
