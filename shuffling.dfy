/** The Fisher-Yates shuffle of `shuffleArray` (app.js), as a function of the
    input and of the index drawn at each step. */
module Shuffling {

  /** `pick(i)` is the position that step `i` swaps with position `i`. The
      source draws it as `Math.floor(Math.random() * (i + 1))`, which always
      lies in [0, i]; any choice in that range is allowed here. */
  ghost predicate IndicesInRange(pick: nat -> nat)
  {
    forall i: nat :: pick(i) <= i
  }

  /** `s` with the elements at `i` and `j` exchanged. */
  function Swap<T>(s: seq<T>, i: nat, j: nat): seq<T>
    requires i < |s| && j < |s|
  {
    s[i := s[j]][j := s[i]]
  }

  /** The swap exchanges the two positions and leaves every other one alone. */
  lemma SwapExchanges<T>(s: seq<T>, i: nat, j: nat)
    requires i < |s| && j < |s|
    ensures |Swap(s, i, j)| == |s| && Swap(s, i, j)[i] == s[j] && Swap(s, i, j)[j] == s[i]
    ensures forall k :: 0 <= k < |s| && k != i && k != j ==> Swap(s, i, j)[k] == s[k]
  {
  }

  /** What the loop leaves after its steps for positions i, i - 1, ..., 1
      (no step at all when i <= 0). */
  function ShuffleDown<T>(s: seq<T>, pick: nat -> nat, i: int): (r: seq<T>)
    requires IndicesInRange(pick) && i < |s|
    ensures |r| == |s|
    decreases i
  {
    if i <= 0 then s else ShuffleDown(Swap(s, i, pick(i)), pick, i - 1)
  }

  /** The whole shuffle: steps |s| - 1 down to 1. It only reorders, and
      sequences of length 0 or 1 are left as they are. */
  function Shuffled<T>(s: seq<T>, pick: nat -> nat): (r: seq<T>)
    requires IndicesInRange(pick)
    ensures |r| == |s|
    ensures |s| <= 1 ==> r == s
  {
    ShuffleDown(s, pick, |s| - 1)
  }

  /** A swap keeps the multiset of elements. */
  lemma SwapPermutes<T>(s: seq<T>, i: nat, j: nat)
    requires i < |s| && j < |s|
    ensures multiset(Swap(s, i, j)) == multiset(s)
  {
  }

  /** Each step is a swap, so the loop only reorders its input. */
  lemma {:induction false} ShuffleDownPermutes<T>(s: seq<T>, pick: nat -> nat, i: int)
    requires IndicesInRange(pick) && i < |s|
    ensures multiset(ShuffleDown(s, pick, i)) == multiset(s)
    decreases i
  {
    if i > 0 {
      SwapPermutes(s, i, pick(i));
      ShuffleDownPermutes(Swap(s, i, pick(i)), pick, i - 1);
    }
  }

  /** The shuffle is a permutation of its input, whatever indices are drawn. */
  lemma ShuffledPermutes<T>(s: seq<T>, pick: nat -> nat)
    requires IndicesInRange(pick)
    ensures multiset(Shuffled(s, pick)) == multiset(s)
  {
    ShuffleDownPermutes(s, pick, |s| - 1);
  }

  /** The steps for positions up to `i` touch only the first i + 1 elements. */
  lemma {:induction false} ShuffleDownPrefix<T>(s: seq<T>, pick: nat -> nat, i: nat)
    requires IndicesInRange(pick) && i < |s|
    ensures ShuffleDown(s, pick, i) == ShuffleDown(s[..i + 1], pick, i) + s[i + 1..]
    decreases i
  {
    if i > 0 {
      var j := pick(i);
      var u := Swap(s, i, j);
      var v := Swap(s[..i + 1], i, j);
      assert u[..i] == v[..i];
      assert u[i..] == v[i..] + s[i + 1..];
      ShuffleDownPrefix(u, pick, i - 1);
      ShuffleDownPrefix(v, pick, i - 1);
      assert v[..i] + v[i..] == v;
    } else {
      assert s == s[..1] + s[1..];
    }
  }

  /** The steps for positions up to `i` depend only on the indices drawn there. */
  lemma {:induction false} ShuffleDownSameDraws<T>(s: seq<T>, p: nat -> nat, q: nat -> nat, i: int)
    requires IndicesInRange(p) && IndicesInRange(q) && i < |s|
    requires forall k: nat :: 1 <= k <= i ==> p(k) == q(k)
    ensures ShuffleDown(s, p, i) == ShuffleDown(s, q, i)
    decreases i
  {
    if i > 0 {
      ShuffleDownSameDraws(Swap(s, i, p(i)), p, q, i - 1);
    }
  }

  /** The first step fixes the last position; the rest shuffles what is before it. */
  lemma LastStepFirst<T>(s: seq<T>, pick: nat -> nat)
    requires IndicesInRange(pick) && |s| >= 2
    ensures var u := Swap(s, |s| - 1, pick(|s| - 1));
            Shuffled(s, pick) == Shuffled(u[..|s| - 1], pick) + [u[|s| - 1]]
  {
    var n := |s|;
    var u := Swap(s, n - 1, pick(n - 1));
    ShuffleDownPrefix(u, pick, n - 2);
    assert u[n - 1..] == [u[n - 1]];
  }

  /** Two permutations of each other that end alike are permutations of each
      other without their last elements. */
  lemma DropLast<T>(u: seq<T>, t: seq<T>)
    requires |u| == |t| > 0 && multiset(u) == multiset(t) && u[|u| - 1] == t[|t| - 1]
    ensures multiset(u[..|u| - 1]) == multiset(t[..|t| - 1])
  {
    var n := |u|;
    var a, b, x := multiset(u[..n - 1]), multiset(t[..n - 1]), multiset{t[n - 1]};
    assert u == u[..n - 1] + [t[n - 1]];
    assert t == t[..n - 1] + [t[n - 1]];
    assert a + x == b + x;
    assert a == (a + x) - x;
    assert b == (b + x) - x;
  }

  /** Swapping into the last position an element equal to the last of `t`
      leaves, in front of it, a permutation of the rest of `t`. */
  lemma SwapToEnd<T>(s: seq<T>, t: seq<T>, j: nat)
    requires multiset(s) == multiset(t) && |s| == |t| && j < |s| && s[j] == t[|t| - 1]
    ensures Swap(s, |s| - 1, j)[|s| - 1] == t[|t| - 1]
    ensures multiset(Swap(s, |s| - 1, j)[..|s| - 1]) == multiset(t[..|t| - 1])
  {
    var n := |s|;
    var u := Swap(s, n - 1, j);
    assert multiset(u) == multiset(t) && u[n - 1] == t[n - 1] && |u| == n by {
      SwapPermutes(s, n - 1, j);
    }
    DropLast(u, t);
  }

  /** One more swap in front of a shuffle of the rest: if the first step puts
      the last element of `t` in place and the remaining draws order the rest
      as `t` does, the whole shuffle yields `t`. */
  lemma ExtendShuffle<T>(s: seq<T>, t: seq<T>, pick: nat -> nat, rest: nat -> nat)
    requires |s| == |t| >= 2 && IndicesInRange(pick) && IndicesInRange(rest)
    requires forall k: nat :: k < |s| - 1 ==> pick(k) == rest(k)
    requires Swap(s, |s| - 1, pick(|s| - 1))[|s| - 1] == t[|t| - 1]
    requires Shuffled(Swap(s, |s| - 1, pick(|s| - 1))[..|s| - 1], rest) == t[..|t| - 1]
    ensures Shuffled(s, pick) == t
  {
    var n := |s|;
    var front := Swap(s, n - 1, pick(n - 1))[..n - 1];
    LastStepFirst(s, pick);
    ShuffleDownSameDraws(front, pick, rest, n - 2);
    assert t == t[..n - 1] + [t[n - 1]];
  }

  /** Permutations have equal length. */
  lemma PermutationLength<T>(s: seq<T>, t: seq<T>)
    requires multiset(s) == multiset(t)
    ensures |s| == |t|
  {
    assert |multiset(s)| == |s| && |multiset(t)| == |t|;
  }

  /** If the remaining draws order the rest as `t` does after position `j`
      is swapped to the end, then some choice of indices yields `t`. */
  lemma ReachableByExtending<T>(s: seq<T>, t: seq<T>, j: nat, rest: nat -> nat)
    requires |s| == |t| >= 2 && j < |s|
    requires Swap(s, |s| - 1, j)[|s| - 1] == t[|t| - 1]
    requires IndicesInRange(rest) && Shuffled(Swap(s, |s| - 1, j)[..|s| - 1], rest) == t[..|t| - 1]
    ensures exists pick :: IndicesInRange(pick) && Shuffled(s, pick) == t
  {
    var n := |s|;
    var pick: nat -> nat := k => if k == n - 1 then j else rest(k);
    assert IndicesInRange(pick);
    assert forall k: nat :: k < n - 1 ==> pick(k) == rest(k);
    assert Swap(s, n - 1, pick(n - 1)) == Swap(s, n - 1, j);
    ExtendShuffle(s, t, pick, rest);
  }

  /** Every ordering of `s` is the outcome of some choice of indices: the
      shuffle can produce each permutation of its input. */
  lemma {:induction false} EveryOrderReachable<T>(s: seq<T>, t: seq<T>)
    requires multiset(s) == multiset(t)
    ensures exists pick :: IndicesInRange(pick) && Shuffled(s, pick) == t
    decreases |s|
  {
    var n := |s|;
    PermutationLength(s, t);
    if n <= 1 {
      var zero: nat -> nat := k => 0;
      assert IndicesInRange(zero);
      if n == 1 {
        assert t[0] in multiset(s);
      }
      assert Shuffled(s, zero) == t;
    } else {
      assert t[n - 1] in s by {
        assert t[n - 1] in multiset(t);
      }
      var j :| 0 <= j < n && s[j] == t[n - 1];
      SwapToEnd(s, t, j);
      var front := Swap(s, n - 1, j)[..n - 1];
      EveryOrderReachable(front, t[..n - 1]);
      var rest :| IndicesInRange(rest) && Shuffled(front, rest) == t[..n - 1];
      ReachableByExtending(s, t, j, rest);
    }
  }
}
