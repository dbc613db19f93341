/** A stable sort driven by a three-way comparator, as
    `Array.prototype.sort(compareFn)` is: `cmp(a, b)` negative puts `a`
    first, positive puts `b` first, zero keeps the two in input order. */
module Sorting {
  import Seqs

  /** `cmp(a, b)` and `cmp(b, a)` have opposite signs (so `cmp(a, a) == 0`). */
  ghost predicate Antisymmetric<T(!new)>(cmp: (T, T) -> int) {
    forall a, b :: cmp(a, b) == -cmp(b, a)
  }

  /** "May go first" chains. */
  ghost predicate Transitive<T(!new)>(cmp: (T, T) -> int) {
    forall a, b, c :: cmp(a, b) <= 0 && cmp(b, c) <= 0 ==> cmp(a, c) <= 0
  }

  /** With both, `cmp(a, b) <= 0` is a total preorder. */
  ghost predicate TotalPreorder<T(!new)>(cmp: (T, T) -> int) {
    Antisymmetric(cmp) && Transitive(cmp)
  }

  /** `r` is ordered by `cmp`. */
  ghost predicate Sorted<T>(cmp: (T, T) -> int, r: seq<T>) {
    forall i, j :: 0 <= i < j < |r| ==> cmp(r[i], r[j]) <= 0
  }

  /** The elements that tie with `c`. */
  function TiedWith<T>(cmp: (T, T) -> int, c: T): T -> bool {
    (y: T) => cmp(y, c) == 0
  }

  /** Insert `x` behind `sorted`, moving it forward past the elements that
      must come after it. */
  function Insert<T>(cmp: (T, T) -> int, sorted: seq<T>, x: T): (r: seq<T>)
    ensures |r| == |sorted| + 1
    decreases |sorted|
  {
    if sorted == [] then [x]
    else if cmp(sorted[|sorted| - 1], x) > 0 then
      Insert(cmp, sorted[..|sorted| - 1], x) + [sorted[|sorted| - 1]]
    else sorted + [x]
  }

  /** The stable sort of `s`: insertion sort, one element at a time from the
      left. */
  function SortSpec<T>(cmp: (T, T) -> int, s: seq<T>): (r: seq<T>)
    ensures |r| == |s|
    decreases |s|
  {
    if s == [] then [] else Insert(cmp, SortSpec(cmp, s[..|s| - 1]), s[|s| - 1])
  }

  lemma {:induction false} InsertPermutation<T>(cmp: (T, T) -> int, t: seq<T>, x: T)
    ensures multiset(Insert(cmp, t, x)) == multiset(t) + multiset{x}
    decreases |t|
  {
    if t != [] && cmp(t[|t| - 1], x) > 0 {
      InsertPermutation(cmp, t[..|t| - 1], x);
      assert t == t[..|t| - 1] + [t[|t| - 1]];
    }
  }

  /** The sort returns a permutation of its input. */
  lemma {:induction false} SortPermutation<T>(cmp: (T, T) -> int, s: seq<T>)
    ensures multiset(SortSpec(cmp, s)) == multiset(s)
    decreases |s|
  {
    if s != [] {
      SortPermutation(cmp, s[..|s| - 1]);
      InsertPermutation(cmp, SortSpec(cmp, s[..|s| - 1]), s[|s| - 1]);
      assert s == s[..|s| - 1] + [s[|s| - 1]];
    }
  }

  lemma {:induction false} InsertSorted<T(!new)>(cmp: (T, T) -> int, t: seq<T>, x: T)
    requires TotalPreorder(cmp) && Sorted(cmp, t)
    ensures Sorted(cmp, Insert(cmp, t, x))
    decreases |t|
  {
    if t == [] {
    } else if cmp(t[|t| - 1], x) > 0 {
      var init, last := t[..|t| - 1], t[|t| - 1];
      var u := Insert(cmp, init, x);
      InsertSorted(cmp, init, x);
      InsertPermutation(cmp, init, x);
      forall k | 0 <= k < |u| ensures cmp(u[k], last) <= 0 {
        assert u[k] in multiset(u);
        if u[k] != x {
          assert u[k] in init;
        }
      }
    }
  }

  /** Given a total preorder, the sort returns its input ordered by `cmp`. */
  lemma {:induction false} SortSorted<T(!new)>(cmp: (T, T) -> int, s: seq<T>)
    requires TotalPreorder(cmp)
    ensures Sorted(cmp, SortSpec(cmp, s))
    decreases |s|
  {
    if s != [] {
      SortSorted(cmp, s[..|s| - 1]);
      InsertSorted(cmp, SortSpec(cmp, s[..|s| - 1]), s[|s| - 1]);
    }
  }

  lemma {:induction false} InsertStable<T(!new)>(cmp: (T, T) -> int, t: seq<T>, x: T, c: T)
    requires TotalPreorder(cmp)
    ensures Seqs.Filter(TiedWith(cmp, c), Insert(cmp, t, x)) == Seqs.Filter(TiedWith(cmp, c), t + [x])
    decreases |t|
  {
    var p := TiedWith(cmp, c);
    if t != [] && cmp(t[|t| - 1], x) > 0 {
      var init, last := t[..|t| - 1], t[|t| - 1];
      InsertStable(cmp, init, x, c);
      var fx, fl := Seqs.Filter(p, [x]), Seqs.Filter(p, [last]);
      assert fx == [] || fl == [] by {
        assert !(p(last) && p(x));
      }
      calc {
        Seqs.Filter(p, Insert(cmp, t, x));
        Seqs.Filter(p, Insert(cmp, init, x) + [last]);
        { Seqs.FilterAppend(p, Insert(cmp, init, x), [last]); }
        Seqs.Filter(p, init + [x]) + fl;
        { Seqs.FilterAppend(p, init, [x]); }
        Seqs.Filter(p, init) + fx + fl;
        Seqs.Filter(p, init) + fl + fx;
        { Seqs.FilterAppend(p, init, [last]); assert init + [last] == t; }
        Seqs.Filter(p, t) + fx;
        { Seqs.FilterAppend(p, t, [x]); }
        Seqs.Filter(p, t + [x]);
      }
    } else {
      Seqs.FilterAppend(p, t, [x]);
    }
  }

  /** Given a total preorder, the sort is stable: the elements of one tie
      class keep their relative order. */
  lemma {:induction false} SortStable<T(!new)>(cmp: (T, T) -> int, s: seq<T>, c: T)
    requires TotalPreorder(cmp)
    ensures Seqs.Filter(TiedWith(cmp, c), SortSpec(cmp, s)) == Seqs.Filter(TiedWith(cmp, c), s)
    decreases |s|
  {
    if s != [] {
      var init, x := s[..|s| - 1], s[|s| - 1];
      var p := TiedWith(cmp, c);
      SortStable(cmp, init, c);
      InsertStable(cmp, SortSpec(cmp, init), x, c);
      Seqs.FilterAppend(p, SortSpec(cmp, init), [x]);
      Seqs.FilterAppend(p, init, [x]);
      assert s == init + [x];
    }
  }

  /** One step of the inner loop: `x` passes `t[j - 1]`. */
  lemma InsertPasses<T>(cmp: (T, T) -> int, t: seq<T>, x: T, j: nat)
    requires 0 < j <= |t| && cmp(t[j - 1], x) > 0
    ensures Insert(cmp, t[..j], x) + t[j..] == Insert(cmp, t[..j - 1], x) + t[j - 1..]
  {
    assert t[..j][..j - 1] == t[..j - 1];
    assert t[j - 1..] == [t[j - 1]] + t[j..];
  }

  /** Where the inner loop stops, `x` goes right behind `t[..j]`. */
  lemma InsertStops<T>(cmp: (T, T) -> int, t: seq<T>, x: T, j: nat)
    requires j <= |t| && (j == 0 || cmp(t[j - 1], x) <= 0)
    ensures Insert(cmp, t[..j], x) == t[..j] + [x]
  {
  }

  /** Move `a[i]` forward past the elements of `a[..i]` that must come after
      it. */
  method InsertAt<T>(cmp: (T, T) -> int, a: array<T>, i: nat)
    requires i < a.Length
    modifies a
    ensures a[..i + 1] == Insert(cmp, old(a[..i]), old(a[i]))
    ensures a[i + 1..] == old(a[i + 1..])
  {
    var x := a[i];
    ghost var t := a[..i];
    var j := i;
    assert t[..j] == t && t[j..] == [];
    while j > 0 && cmp(a[j - 1], x) > 0
      invariant 0 <= j <= i
      invariant forall k :: 0 <= k < j ==> a[k] == t[k]
      invariant forall k :: j < k <= i ==> a[k] == t[k - 1]
      invariant forall k :: i < k < a.Length ==> a[k] == old(a[k])
      invariant Insert(cmp, t, x) == Insert(cmp, t[..j], x) + t[j..]
    {
      InsertPasses(cmp, t, x, j);
      a[j] := a[j - 1];
      j := j - 1;
    }
    a[j] := x;
    InsertStops(cmp, t, x, j);
    assert a[..i + 1] == t[..j] + [x] + t[j..];
    assert a[i + 1..] == old(a[i + 1..]);
  }

  /** Sort `a` in place with `cmp`: each element in turn is moved forward
      past the elements before it that must come after it. */
  method InsertionSort<T>(cmp: (T, T) -> int, a: array<T>)
    modifies a
    ensures a[..] == SortSpec(cmp, old(a[..]))
  {
    ghost var s := a[..];
    var i := 0;
    while i < a.Length
      invariant 0 <= i <= a.Length
      invariant a[..i] == SortSpec(cmp, s[..i])
      invariant a[i..] == s[i..]
    {
      InsertAt(cmp, a, i);
      assert s[..i + 1][..i] == s[..i];
      i := i + 1;
    }
    assert s[..a.Length] == s;
  }
}
