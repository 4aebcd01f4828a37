/** The array operations the reorder is built from: reversal between the
    bottom-to-top and top-to-bottom views, `indexOf`, and the list widget's
    array-move (remove at `from`, then insert at `to`). */
module Sequences {

  /** No element occurs twice. */
  predicate Distinct<T(==)>(s: seq<T>)
  {
    forall i, j :: 0 <= i < j < |s| ==> s[i] != s[j]
  }

  /** The other view of a list: the last element first. */
  function Reverse<T>(s: seq<T>): (r: seq<T>)
    ensures |r| == |s|
  {
    seq(|s|, i requires 0 <= i < |s| => s[|s| - 1 - i])
  }

  /** Reversal only reorders: the same elements with the same multiplicities. */
  lemma {:induction false} ReverseMultiset<T>(s: seq<T>)
    ensures multiset(Reverse(s)) == multiset(s)
  {
    if s != [] {
      var n := |s|;
      ReverseMultiset(s[..n - 1]);
      assert Reverse(s) == [s[n - 1]] + Reverse(s[..n - 1]);
      assert s == s[..n - 1] + [s[n - 1]];
    }
  }

  lemma ReverseReverse<T>(s: seq<T>)
    ensures Reverse(Reverse(s)) == s
  {
  }

  lemma ReverseKeepsMembers<T>(s: seq<T>)
    ensures forall x :: x in s <==> x in Reverse(s)
  {
    forall x | x in s ensures x in Reverse(s) {
      var i :| 0 <= i < |s| && s[i] == x;
      assert Reverse(s)[|s| - 1 - i] == x;
    }
  }

  lemma ReverseDistinct<T>(s: seq<T>)
    requires Distinct(s)
    ensures Distinct(Reverse(s))
  {
  }

  /** JavaScript's `indexOf`: the first position holding `x`, or -1. */
  function IndexOf<T(==)>(s: seq<T>, x: T): (k: int)
    ensures -1 <= k < |s|
    ensures k == -1 <==> x !in s
    ensures 0 <= k ==> s[k] == x && x !in s[..k]
  {
    if s == [] then -1
    else if s[0] == x then 0
    else
      var k := IndexOf(s[1..], x);
      assert s == [s[0]] + s[1..];
      assert 0 <= k ==> s[..k + 1] == [s[0]] + s[1..][..k];
      if k == -1 then -1 else k + 1
  }

  /** In a sequence without repetitions, `indexOf` finds every element at its
      own position. */
  lemma IndexOfDistinct<T>(s: seq<T>, i: int)
    requires Distinct(s)
    requires 0 <= i < |s|
    ensures IndexOf(s, s[i]) == i
  {
  }

  function RemoveAt<T>(s: seq<T>, i: int): (r: seq<T>)
    requires 0 <= i < |s|
  {
    s[..i] + s[i + 1..]
  }

  /** dnd-kit's `arrayMove`: remove the element at `from`, then insert it at
      `to` in what is left. */
  function ArrayMove<T>(s: seq<T>, from: int, to: int): (r: seq<T>)
    requires 0 <= from < |s| && 0 <= to < |s|
    ensures |r| == |s|
    ensures r[to] == s[from]
  {
    var rest := RemoveAt(s, from);
    rest[..to] + [s[from]] + rest[to..]
  }

  /** Apart from the moved element, the order is untouched: taking the moved
      element out of the result leaves what taking it out of the input left. */
  lemma ArrayMoveKeepsOthers<T>(s: seq<T>, from: int, to: int)
    requires 0 <= from < |s| && 0 <= to < |s|
    ensures RemoveAt(ArrayMove(s, from, to), to) == RemoveAt(s, from)
  {
    var rest := RemoveAt(s, from);
    var r := ArrayMove(s, from, to);
    assert r[..to] == rest[..to] && r[to + 1..] == rest[to..];
    assert rest == rest[..to] + rest[to..];
  }

  /** The move is a permutation of its input. */
  lemma ArrayMoveMultiset<T>(s: seq<T>, from: int, to: int)
    requires 0 <= from < |s| && 0 <= to < |s|
    ensures multiset(ArrayMove(s, from, to)) == multiset(s)
  {
    var rest := RemoveAt(s, from);
    var r := ArrayMove(s, from, to);
    assert rest == rest[..to] + rest[to..];
    assert multiset(rest) == multiset(rest[..to]) + multiset(rest[to..]);
    assert multiset(rest) == multiset(s[..from]) + multiset(s[from + 1..]);
    assert multiset(r) == multiset(rest[..to]) + multiset([s[from]]) + multiset(rest[to..]);
    assert s == s[..from] + [s[from]] + s[from + 1..];
    assert multiset(s) == multiset(s[..from]) + multiset([s[from]]) + multiset(s[from + 1..]);
    assert multiset(r) == multiset(rest) + multiset([s[from]]);
  }

  /** The position in the input that position `i` of the moved sequence
      comes from: the target takes the dragged element, the elements in
      between shift by one towards the vacated place, and the rest stay. */
  function MovedFrom(from: int, to: int, i: int): int
  {
    if i == to then from
    else if from < to && from <= i < to then i + 1
    else if to < from && to < i <= from then i - 1
    else i
  }

  lemma ArrayMoveAt<T>(s: seq<T>, from: int, to: int, i: int)
    requires 0 <= from < |s| && 0 <= to < |s| && 0 <= i < |s|
    ensures 0 <= MovedFrom(from, to, i) < |s|
    ensures ArrayMove(s, from, to)[i] == s[MovedFrom(from, to, i)]
  {
    var r := ArrayMove(s, from, to);
    var rest := RemoveAt(s, from);
    ArrayMoveKeepsOthers(s, from, to);
    if i < to {
      assert r[i] == RemoveAt(r, to)[i];
    } else if i > to {
      assert r[i] == RemoveAt(r, to)[i - 1];
    }
  }

  /** Distinct positions are fed from distinct positions: the move is a
      bijection on positions. */
  lemma MovedFromInjective(from: int, to: int, i: int, j: int)
    requires i != j
    ensures MovedFrom(from, to, i) != MovedFrom(from, to, j)
  {
  }

  /** Moving the element back from `to` to `from` undoes the move. */
  lemma {:induction false} ArrayMoveInverse<T>(s: seq<T>, from: int, to: int)
    requires 0 <= from < |s| && 0 <= to < |s|
    ensures ArrayMove(ArrayMove(s, from, to), to, from) == s
  {
    var r := ArrayMove(s, from, to);
    var rest := RemoveAt(s, from);
    ArrayMoveKeepsOthers(s, from, to);
    assert RemoveAt(r, to) == rest;
    assert rest[..from] == s[..from];
    assert rest[from..] == s[from + 1..];
    assert s == s[..from] + [s[from]] + s[from + 1..];
  }
}
