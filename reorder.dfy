/**
 * Sequence operations the board's store updaters are built from: `arrayMove` of
 * `@dnd-kit/sortable` (whose code is not part of this model: only its
 * remove-then-insert contract is), `Array.prototype.filter`, and id distinctness.
 */
module Reorder {

  /** The sequence without its element at index `i`. */
  function Remove<T>(s: seq<T>, i: nat): (r: seq<T>)
    requires i < |s|
    ensures |r| == |s| - 1
    ensures forall k :: 0 <= k < i ==> r[k] == s[k]
    ensures forall k :: i <= k < |r| ==> r[k] == s[k + 1]
  {
    s[..i] + s[i + 1..]
  }

  /** The sequence with `x` placed at index `i`, later elements shifted right. */
  function Insert<T>(s: seq<T>, i: nat, x: T): (r: seq<T>)
    requires i <= |s|
    ensures |r| == |s| + 1 && r[i] == x
    ensures forall k :: 0 <= k < i ==> r[k] == s[k]
    ensures forall k :: i < k < |r| ==> r[k] == s[k - 1]
  {
    s[..i] + [x] + s[i..]
  }

  /**
   * The index `arrayMove` finally puts the moved element at. A negative `to`
   * counts from the end of the sequence, as `Array.prototype.splice` does; this
   * is an ASSUMPTION about the library, needed only for `to == -1`.
   */
  function MoveTarget(n: nat, to: int): (k: nat)
    requires -(n as int) <= to < n
    ensures k < n
    ensures to >= 0 ==> k == to
    ensures to == -1 ==> k == n - 1
  {
    if to < 0 then n + to else to
  }

  /** `arrayMove(s, from, to)`: take the element at `from` out and insert it at `to`. */
  function ArrayMove<T>(s: seq<T>, from: nat, to: int): (r: seq<T>)
    requires from < |s| && -|s| <= to < |s|
    ensures |r| == |s|
    ensures r[MoveTarget(|s|, to)] == s[from]
  {
    Insert(Remove(s, from), MoveTarget(|s|, to), s[from])
  }

  /** Taking an element out and putting it back in the same place changes nothing. */
  lemma InsertRemove<T>(s: seq<T>, i: nat)
    requires i < |s|
    ensures Insert(Remove(s, i), i, s[i]) == s
  {
    assert forall k :: 0 <= k < |s| ==> Insert(Remove(s, i), i, s[i])[k] == s[k];
  }

  /** Removing what was just inserted gives back the sequence. */
  lemma RemoveInsert<T>(s: seq<T>, i: nat, x: T)
    requires i <= |s|
    ensures Remove(Insert(s, i, x), i) == s
  {
    assert forall k :: 0 <= k < |s| ==> Remove(Insert(s, i, x), i)[k] == s[k];
  }

  lemma MultisetRemove<T>(s: seq<T>, i: nat)
    requires i < |s|
    ensures multiset(Remove(s, i)) + multiset{s[i]} == multiset(s)
  {
    assert s == s[..i] + [s[i]] + s[i + 1..];
  }

  lemma MultisetInsert<T>(s: seq<T>, i: nat, x: T)
    requires i <= |s|
    ensures multiset(Insert(s, i, x)) == multiset(s) + multiset{x}
  {
    assert s == s[..i] + s[i..];
  }

  /** `arrayMove` is a permutation: no element is lost or duplicated. */
  lemma ArrayMovePermutes<T>(s: seq<T>, from: nat, to: int)
    requires from < |s| && -|s| <= to < |s|
    ensures multiset(ArrayMove(s, from, to)) == multiset(s)
  {
    MultisetRemove(s, from);
    MultisetInsert(Remove(s, from), MoveTarget(|s|, to), s[from]);
  }

  /** The other elements keep their relative order: dropping the moved one from both sides agrees. */
  lemma ArrayMoveKeepsOthersInOrder<T>(s: seq<T>, from: nat, to: int)
    requires from < |s| && -|s| <= to < |s|
    ensures Remove(ArrayMove(s, from, to), MoveTarget(|s|, to)) == Remove(s, from)
  {
    RemoveInsert(Remove(s, from), MoveTarget(|s|, to), s[from]);
  }

  /**
   * Reference definition of a move, element by element: moving down shifts the
   * elements in between up by one, moving up shifts them down, the rest stay.
   */
  lemma {:induction false} ArrayMoveAt<T>(s: seq<T>, from: nat, to: nat, k: nat)
    requires from < |s| && to < |s| && k < |s|
    ensures ArrayMove(s, from, to)[k] ==
      if k == to then s[from]
      else if from <= to && from <= k < to then s[k + 1]
      else if to < from && to < k <= from then s[k - 1]
      else s[k]
  {
  }

  /** Moving an element back where it came from undoes a move. */
  lemma ArrayMoveUndo<T>(s: seq<T>, from: nat, to: nat)
    requires from < |s| && to < |s|
    ensures ArrayMove(ArrayMove(s, from, to), to, from) == s
  {
    var r := ArrayMove(s, from, to);
    RemoveInsert(Remove(s, from), to, s[from]);
    InsertRemove(s, from);
  }

  /** A move onto its own index is the identity. */
  lemma ArrayMoveSelf<T>(s: seq<T>, i: nat)
    requires i < |s|
    ensures ArrayMove(s, i, i) == s
  {
    InsertRemove(s, i);
  }

  /** Under the negative-index assumption, `arrayMove(s, from, -1)` sends the element to the end. */
  lemma ArrayMoveToEnd<T>(s: seq<T>, from: nat)
    requires from < |s|
    ensures ArrayMove(s, from, -1) == Remove(s, from) + [s[from]]
  {
  }

  /** No value occurs twice. */
  predicate Distinct<T(==)>(s: seq<T>)
  {
    forall i, j :: 0 <= i < j < |s| ==> s[i] != s[j]
  }

  lemma DistinctRemove<T>(s: seq<T>, i: nat)
    requires i < |s| && Distinct(s)
    ensures Distinct(Remove(s, i)) && s[i] !in Remove(s, i)
  {
    var r := Remove(s, i);
    forall a, b | 0 <= a < b < |r| ensures r[a] != r[b] {
      var a' := if a < i then a else a + 1;
      var b' := if b < i then b else b + 1;
      assert r[a] == s[a'] && r[b] == s[b'];
    }
    forall a | 0 <= a < |r| ensures r[a] != s[i] {
      assert r[a] == s[if a < i then a else a + 1];
    }
  }

  lemma DistinctInsert<T>(s: seq<T>, i: nat, x: T)
    requires i <= |s| && Distinct(s) && x !in s
    ensures Distinct(Insert(s, i, x))
  {
    var r := Insert(s, i, x);
    forall a, b | 0 <= a < b < |r| ensures r[a] != r[b] {
      if a != i && b != i {
        var a' := if a < i then a else a - 1;
        var b' := if b < i then b else b - 1;
        assert r[a] == s[a'] && r[b] == s[b'];
      } else if a == i {
        assert r[b] == s[b - 1];
      } else {
        assert r[a] == s[a];
      }
    }
  }

  /** A move keeps a sequence of distinct values distinct. */
  lemma ArrayMoveKeepsDistinct<T>(s: seq<T>, from: nat, to: int)
    requires from < |s| && -|s| <= to < |s| && Distinct(s)
    ensures Distinct(ArrayMove(s, from, to))
  {
    DistinctRemove(s, from);
    DistinctInsert(Remove(s, from), MoveTarget(|s|, to), s[from]);
  }

  /** `r` is `s` with some elements left out, the rest in their order. */
  predicate IsSubsequence<T(==)>(r: seq<T>, s: seq<T>)
    decreases |s|
  {
    r == [] || (s != [] && ((r[0] == s[0] && IsSubsequence(r[1..], s[1..])) || IsSubsequence(r, s[1..])))
  }

  /** `s.filter(keep)`. */
  function Filter<T(==,!new)>(s: seq<T>, keep: T -> bool): (r: seq<T>)
    ensures IsSubsequence(r, s)
    ensures forall x :: multiset(r)[x] == if keep(x) then multiset(s)[x] else 0
  {
    if s == [] then []
    else
      assert s == [s[0]] + s[1..];
      if keep(s[0]) then [s[0]] + Filter(s[1..], keep) else Filter(s[1..], keep)
  }

  /** A filter that keeps every element is the identity. */
  lemma {:induction false} FilterKeepsAll<T(!new)>(s: seq<T>, keep: T -> bool)
    requires forall i :: 0 <= i < |s| ==> keep(s[i])
    ensures Filter(s, keep) == s
  {
    if s != [] {
      FilterKeepsAll(s[1..], keep);
    }
  }

  /** A permutation has the same filtered multiset. */
  lemma FilterOfPermutation<T(!new)>(a: seq<T>, b: seq<T>, keep: T -> bool)
    requires multiset(a) == multiset(b)
    ensures multiset(Filter(a, keep)) == multiset(Filter(b, keep))
  {
    assert forall x :: multiset(Filter(a, keep))[x] == multiset(Filter(b, keep))[x];
  }

  /** Inserting an element the filter drops does not change what the filter keeps. */
  lemma {:induction false} FilterInsertDropped<T(!new)>(s: seq<T>, i: nat, x: T, keep: T -> bool)
    requires i <= |s| && !keep(x)
    ensures Filter(Insert(s, i, x), keep) == Filter(s, keep)
  {
    var u := Insert(s, i, x);
    if i == 0 {
      assert u[1..] == s;
    } else {
      assert u[0] == s[0] && u[1..] == Insert(s[1..], i - 1, x);
      FilterInsertDropped(s[1..], i - 1, x, keep);
    }
  }

  /** Removing an element the filter drops does not change what the filter keeps. */
  lemma FilterRemoveDropped<T(!new)>(s: seq<T>, i: nat, keep: T -> bool)
    requires i < |s| && !keep(s[i])
    ensures Filter(Remove(s, i), keep) == Filter(s, keep)
  {
    InsertRemove(s, i);
    FilterInsertDropped(Remove(s, i), i, s[i], keep);
  }

  /** Replacing, at one index, an element the filter drops by another it drops changes nothing kept. */
  lemma FilterUpdateDropped<T(!new)>(s: seq<T>, i: nat, y: T, keep: T -> bool)
    requires i < |s| && !keep(s[i]) && !keep(y)
    ensures Filter(s[i := y], keep) == Filter(s, keep)
  {
    assert Remove(s[i := y], i) == Remove(s, i);
    FilterRemoveDropped(s[i := y], i, keep);
    FilterRemoveDropped(s, i, keep);
  }

  /** A filter that drops the moved element does not see the move. */
  lemma FilterArrayMoveDropped<T(!new)>(s: seq<T>, from: nat, to: int, keep: T -> bool)
    requires from < |s| && -|s| <= to < |s| && !keep(s[from])
    ensures Filter(ArrayMove(s, from, to), keep) == Filter(s, keep)
  {
    FilterInsertDropped(Remove(s, from), MoveTarget(|s|, to), s[from], keep);
    FilterRemoveDropped(s, from, keep);
  }

  /** Swapping a kept element for a dropped one takes it out of the filtered multiset. */
  lemma FilterSwapOut<T(!new)>(r: seq<T>, s: seq<T>, t: T, t': T, keep: T -> bool)
    requires t in s && keep(t) && !keep(t')
    requires multiset(r) == multiset(s) - multiset{t} + multiset{t'}
    ensures multiset(Filter(r, keep)) == multiset(Filter(s, keep)) - multiset{t}
  {
    var a, b := multiset(Filter(r, keep)), multiset(Filter(s, keep));
    forall x ensures a[x] == (b - multiset{t})[x] {
      if x == t {
        assert multiset(r)[x] == multiset(s)[x] - 1;
      } else if keep(x) {
        assert multiset(r)[x] == multiset(s)[x];
      }
    }
    assert a == b - multiset{t};
  }

  /** Swapping a dropped element for a kept one puts the new one into the filtered multiset. */
  lemma FilterSwapIn<T(!new)>(r: seq<T>, s: seq<T>, t: T, t': T, keep: T -> bool)
    requires t in s && !keep(t) && keep(t')
    requires multiset(r) == multiset(s) - multiset{t} + multiset{t'}
    ensures multiset(Filter(r, keep)) == multiset(Filter(s, keep)) + multiset{t'}
  {
    var a, b := multiset(Filter(r, keep)), multiset(Filter(s, keep));
    forall x ensures a[x] == (b + multiset{t'})[x] {
      if x == t' {
        assert multiset(r)[x] == multiset(s)[x] + 1;
      } else if keep(x) {
        assert multiset(r)[x] == multiset(s)[x];
      }
    }
    assert a == b + multiset{t'};
  }
}
