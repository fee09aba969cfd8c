/**
 * The array idioms the program relies on: `indexOf`, which finds the first occurrence by
 * identity (for the id and reference values used here, by equality), and `splice(i, 1)`.
 */
module Lists {

  /** The index of the first occurrence of `x`, or -1. */
  function IndexOf<T(==)>(s: seq<T>, x: T): (r: int)
    ensures -1 <= r < |s|
    ensures r >= 0 ==> s[r] == x && x !in s[..r]
    ensures r == -1 <==> x !in s
  {
    if s == [] then -1
    else if s[0] == x then 0
    else
      var k := IndexOf(s[1..], x);
      assert k >= 0 ==> s[1..][..k] == s[1..k + 1] && s[..k + 1] == [s[0]] + s[1..k + 1];
      if k < 0 then -1 else k + 1
  }

  /** `s` without its element at `i`. */
  function RemoveAt<T>(s: seq<T>, i: nat): (r: seq<T>)
    requires i < |s|
    ensures |r| == |s| - 1
  {
    s[..i] + s[i + 1..]
  }

  /** Entries before `i` keep their index; the later ones move down by one. */
  lemma RemoveAtIndex<T>(s: seq<T>, i: nat)
    requires i < |s|
    ensures forall t :: 0 <= t < |s| - 1 ==> RemoveAt(s, i)[t] == if t < i then s[t] else s[t + 1]
  {
    var r := RemoveAt(s, i);
    forall t | 0 <= t < |s| - 1 ensures r[t] == if t < i then s[t] else s[t + 1] {
      if t < i {
        assert r[t] == s[..i][t];
      } else {
        assert r[t] == s[i + 1..][t - i];
      }
    }
  }

  /** Removing entry `i` takes one occurrence of `s[i]` away and nothing else. */
  lemma RemoveAtCount<T>(s: seq<T>, i: nat)
    requires i < |s|
    ensures multiset(RemoveAt(s, i)) == multiset(s) - multiset{s[i]}
  {
    assert s == s[..i] + [s[i]] + s[i + 1..];
  }

  /** `s` without the first occurrence of `x`; `s` itself when there is none. */
  function RemoveFirst<T(==)>(s: seq<T>, x: T): (r: seq<T>)
  {
    var i := IndexOf(s, x);
    if i >= 0 then RemoveAt(s, i) else s
  }

  /** Removing the first `x` takes one occurrence of `x` away, if there is one, and nothing else. */
  lemma RemoveFirstCount<T>(s: seq<T>, x: T)
    ensures multiset(RemoveFirst(s, x)) == multiset(s) - multiset{x}
  {
    var i := IndexOf(s, x);
    if i >= 0 {
      RemoveAtCount(s, i);
    }
  }

  /** `s` after removing the first occurrence of each element of `xs`, in order. */
  function RemoveEach<T(==)>(s: seq<T>, xs: seq<T>): (r: seq<T>)
    decreases |xs|
  {
    if xs == [] then s
    else RemoveEach(RemoveFirst(s, xs[0]), xs[1..])
  }

  /** Removing each element of `xs` takes away, for every value, as many occurrences as `xs` holds, where there are. */
  lemma {:induction false} RemoveEachCount<T>(s: seq<T>, xs: seq<T>)
    ensures multiset(RemoveEach(s, xs)) == multiset(s) - multiset(xs)
    decreases |xs|
  {
    if xs != [] {
      assert xs == [xs[0]] + xs[1..];
      RemoveFirstCount(s, xs[0]);
      RemoveEachCount(RemoveFirst(s, xs[0]), xs[1..]);
    }
  }

  /** A value that `s` does not hold more often than `xs` is gone after `RemoveEach(s, xs)`. */
  lemma RemoveEachAbsent<T>(s: seq<T>, xs: seq<T>, x: T)
    requires multiset(s)[x] <= multiset(xs)[x]
    ensures x !in RemoveEach(s, xs)
  {
    RemoveEachCount(s, xs);
    assert multiset(RemoveEach(s, xs))[x] == 0;
  }
}
