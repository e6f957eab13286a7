/** `Array.prototype.sort(compareFn)`: an in-place, stable sort driven by a
    comparator that returns a negative number, zero or a positive number.
    The ECMAScript standard (since 2019) requires the sort to be stable, so for
    a consistent comparator its result is the stable sorted permutation; the
    specification below is that permutation, built by stable insertion. */
module StableSort {
  import opened Seqs

  /** What `sort` requires of a comparator for its result to be defined:
      any two elements are ordered one way or the other, and "may come
      before" (`cmp(x, y) <= 0`) is transitive. */
  ghost predicate Consistent<T(!new)>(cmp: (T, T) -> int) {
    (forall x, y :: cmp(x, y) <= 0 || cmp(y, x) <= 0) &&
    (forall x, y, z :: cmp(x, y) <= 0 && cmp(y, z) <= 0 ==> cmp(x, z) <= 0)
  }

  /** Every element may come before every later one. */
  ghost predicate SortedBy<T>(s: seq<T>, cmp: (T, T) -> int) {
    forall i, j :: 0 <= i < j < |s| ==> cmp(s[i], s[j]) <= 0
  }

  /** Neither of the two elements must come before the other. */
  predicate Tie<T>(cmp: (T, T) -> int, x: T, y: T) {
    cmp(x, y) <= 0 && cmp(y, x) <= 0
  }

  /** Place `x` after the elements of `s` that may precede it, scanning from the right. */
  function Insert<T>(s: seq<T>, x: T, cmp: (T, T) -> int): (r: seq<T>)
    ensures |r| == |s| + 1
  {
    if |s| == 0 then [x]
    else if cmp(s[|s| - 1], x) > 0 then
      Insert(s[..|s| - 1], x, cmp) + [s[|s| - 1]]
    else s + [x]
  }

  /** The stable sorted permutation of `s`: each element in turn inserted
      after everything already placed that may precede it. */
  function SortSpec<T>(s: seq<T>, cmp: (T, T) -> int): (r: seq<T>)
    ensures |r| == |s|
  {
    if |s| == 0 then []
    else
      Insert(SortSpec(s[..|s| - 1], cmp), s[|s| - 1], cmp)
  }

  /** Where `Insert` puts `x`. */
  function InsertPos<T>(s: seq<T>, x: T, cmp: (T, T) -> int): (p: nat)
    ensures p <= |s|
  {
    if |s| == 0 then 0
    else if cmp(s[|s| - 1], x) > 0 then InsertPos(s[..|s| - 1], x, cmp)
    else |s|
  }

  /** `Insert` looks at the comparator only with `x` as its second argument. */
  lemma {:induction false} InsertAgrees<T>(s: seq<T>, x: T, c1: (T, T) -> int, c2: (T, T) -> int)
    requires forall i :: 0 <= i < |s| ==> c1(s[i], x) == c2(s[i], x)
    ensures Insert(s, x, c1) == Insert(s, x, c2)
  {
    if |s| > 0 {
      var t := s[..|s| - 1];
      assert forall i :: 0 <= i < |t| ==> t[i] == s[i];
      InsertAgrees(t, x, c1, c2);
    }
  }

  /** Two comparators that agree on the elements of `s` sort it alike. */
  lemma {:induction false} SortSpecAgrees<T>(s: seq<T>, c1: (T, T) -> int, c2: (T, T) -> int)
    requires forall x, y :: x in s && y in s ==> c1(x, y) == c2(x, y)
    ensures SortSpec(s, c1) == SortSpec(s, c2)
  {
    if |s| > 0 {
      var t, x := s[..|s| - 1], s[|s| - 1];
      assert forall y :: y in t ==> y in s;
      SortSpecAgrees(t, c1, c2);
      var r := SortSpec(t, c1);
      SortSpecPermutes(t, c1);
      forall i | 0 <= i < |r| ensures c1(r[i], x) == c2(r[i], x) {
        assert r[i] in multiset(r);
        assert r[i] in t;
      }
      InsertAgrees(r, x, c1, c2);
    }
  }

  /** `Insert` splits `s` at `InsertPos`: what follows `x` must come after it,
      and the element just before `x` may precede it. */
  lemma {:induction false} InsertShape<T>(s: seq<T>, x: T, cmp: (T, T) -> int)
    ensures var p := InsertPos(s, x, cmp);
      Insert(s, x, cmp) == s[..p] + [x] + s[p..] &&
      (forall k :: p <= k < |s| ==> cmp(s[k], x) > 0) &&
      (p > 0 ==> cmp(s[p - 1], x) <= 0)
  {
    if |s| > 0 && cmp(s[|s| - 1], x) > 0 {
      var t := s[..|s| - 1];
      InsertShape(t, x, cmp);
      var p := InsertPos(t, x, cmp);
      assert t[..p] == s[..p];
      assert t[p..] + [s[|s| - 1]] == s[p..];
    }
  }

  /** `Insert` puts `x` at `InsertPos` and keeps everything else in order. */
  lemma InsertSplit<T>(s: seq<T>, x: T, cmp: (T, T) -> int)
    ensures Insert(s, x, cmp) == s[..InsertPos(s, x, cmp)] + [x] + s[InsertPos(s, x, cmp)..]
  {
    InsertShape(s, x, cmp);
  }

  /** Inserting adds exactly `x` to the elements. */
  lemma InsertPermutes<T>(s: seq<T>, x: T, cmp: (T, T) -> int)
    ensures multiset(Insert(s, x, cmp)) == multiset(s) + multiset{x}
  {
    InsertSplit(s, x, cmp);
    SplicedMultiset(s, x, InsertPos(s, x, cmp));
  }

  /** Splicing `x` in anywhere adds exactly `x`. */
  lemma SplicedMultiset<T>(s: seq<T>, x: T, p: nat)
    requires p <= |s|
    ensures multiset(s[..p] + [x] + s[p..]) == multiset(s) + multiset{x}
  {
    assert s == s[..p] + s[p..];
  }

  /** The specification is a permutation of its input. */
  lemma {:induction false} SortSpecPermutes<T>(s: seq<T>, cmp: (T, T) -> int)
    ensures multiset(SortSpec(s, cmp)) == multiset(s)
  {
    if |s| > 0 {
      var init := s[..|s| - 1];
      SortSpecPermutes(init, cmp);
      InsertPermutes(SortSpec(init, cmp), s[|s| - 1], cmp);
      assert s == init + [s[|s| - 1]];
    }
  }

  /** Inserting into a sorted sequence keeps it sorted. */
  lemma InsertSorted<T(!new)>(s: seq<T>, x: T, cmp: (T, T) -> int)
    requires Consistent(cmp) && SortedBy(s, cmp)
    ensures SortedBy(Insert(s, x, cmp), cmp)
  {
    InsertShape(s, x, cmp);
    SplicedSorted(s, x, cmp, InsertPos(s, x, cmp));
  }

  /** `x` spliced in after what may precede it and before what must follow it
      leaves a sorted sequence sorted. */
  lemma SplicedSorted<T(!new)>(s: seq<T>, x: T, cmp: (T, T) -> int, p: nat)
    requires Consistent(cmp) && SortedBy(s, cmp) && p <= |s|
    requires forall k :: p <= k < |s| ==> cmp(s[k], x) > 0
    requires p > 0 ==> cmp(s[p - 1], x) <= 0
    ensures SortedBy(s[..p] + [x] + s[p..], cmp)
  {
    var r := s[..p] + [x] + s[p..];
    forall i, j | 0 <= i < j < |r| ensures cmp(r[i], r[j]) <= 0 {
      if j == p {
        BeforeInserted(s, x, cmp, p, i);
        assert r[i] == s[i] && r[j] == x;
      } else if i == p {
        assert r[i] == x && r[j] == s[j - 1];
        AfterInserted(x, s[j - 1], cmp);
      } else {
        InsertedOthers(s, x, cmp, p, i, j);
      }
    }
  }

  /** Whatever precedes the insertion point may precede `x`. */
  lemma BeforeInserted<T(!new)>(s: seq<T>, x: T, cmp: (T, T) -> int, p: nat, i: nat)
    requires Consistent(cmp) && SortedBy(s, cmp)
    requires i < p <= |s| && cmp(s[p - 1], x) <= 0
    ensures cmp(s[i], x) <= 0
  {
    if i < p - 1 {
      assert cmp(s[i], s[p - 1]) <= 0;
    }
  }

  /** What must come after `x` may be preceded by it. */
  lemma AfterInserted<T(!new)>(x: T, y: T, cmp: (T, T) -> int)
    requires Consistent(cmp) && cmp(y, x) > 0
    ensures cmp(x, y) <= 0
  {
  }

  /** Two positions of `s[..p] + [x] + s[p..]` other than `x`'s keep the order of `s`. */
  lemma InsertedOthers<T>(s: seq<T>, x: T, cmp: (T, T) -> int, p: nat, i: nat, j: nat)
    requires SortedBy(s, cmp)
    requires p <= |s| && i < j <= |s| && i != p && j != p
    ensures var r := s[..p] + [x] + s[p..]; cmp(r[i], r[j]) <= 0
  {
    var r := s[..p] + [x] + s[p..];
    if j < p {
      assert r[i] == s[i] && r[j] == s[j];
    } else if i < p {
      assert r[i] == s[i] && r[j] == s[j - 1];
    } else {
      assert r[i] == s[i - 1] && r[j] == s[j - 1];
    }
  }

  /** The specification is sorted for a consistent comparator. */
  lemma {:induction false} SortSpecSorted<T(!new)>(s: seq<T>, cmp: (T, T) -> int)
    requires Consistent(cmp)
    ensures SortedBy(SortSpec(s, cmp), cmp)
  {
    if |s| > 0 {
      SortSpecSorted(s[..|s| - 1], cmp);
      InsertSorted(SortSpec(s[..|s| - 1], cmp), s[|s| - 1], cmp);
    }
  }

  /** The test "ties with `c`", as one function value. */
  function TiedWith<T>(cmp: (T, T) -> int, c: T): T -> bool {
    y => Tie(cmp, y, c)
  }

  /** Stability: the elements tied with any given `c` keep their input order. */
  lemma {:induction false} SortSpecStable<T(!new)>(s: seq<T>, cmp: (T, T) -> int, c: T)
    requires Consistent(cmp)
    ensures Filter(SortSpec(s, cmp), TiedWith(cmp, c)) == Filter(s, TiedWith(cmp, c))
  {
    if |s| > 0 {
      var init, x := s[..|s| - 1], s[|s| - 1];
      SortSpecStable(init, cmp, c);
      InsertFilter(SortSpec(init, cmp), x, cmp, c);
      assert s == init + [x];
      FilterAppend(init, [x], TiedWith(cmp, c));
    }
  }

  /** Inserting `x` adds it to the end of its own tie class and leaves the others alone. */
  lemma InsertFilter<T(!new)>(s: seq<T>, x: T, cmp: (T, T) -> int, c: T)
    requires Consistent(cmp)
    ensures Filter(Insert(s, x, cmp), TiedWith(cmp, c)) ==
            Filter(s, TiedWith(cmp, c)) + Filter([x], TiedWith(cmp, c))
  {
    if Tie(cmp, x, c) {
      NothingTiedAfter(s, x, cmp, c);
    }
    InsertFilterSplit(s, x, cmp, TiedWith(cmp, c));
  }

  /** The filtered insertion, given that nothing after `x` passes when `x` does. */
  lemma InsertFilterSplit<T>(s: seq<T>, x: T, cmp: (T, T) -> int, tied: T -> bool)
    requires tied(x) ==> Filter(s[InsertPos(s, x, cmp)..], tied) == []
    ensures Filter(Insert(s, x, cmp), tied) == Filter(s, tied) + Filter([x], tied)
  {
    var p := InsertPos(s, x, cmp);
    InsertSplit(s, x, cmp);
    assert s == s[..p] + s[p..];
    SpliceFilterLast(s[..p], x, s[p..], tied);
  }

  /** When nothing after `x` passes, filtering `u + [x] + v` is filtering
      `u + v` with `x`'s own filter appended. */
  lemma SpliceFilterLast<T>(u: seq<T>, x: T, v: seq<T>, tied: T -> bool)
    requires tied(x) ==> Filter(v, tied) == []
    ensures Filter(u + [x] + v, tied) == Filter(u + v, tied) + Filter([x], tied)
  {
    var fu, fx, fv := Filter(u, tied), Filter([x], tied), Filter(v, tied);
    SpliceFilter(u, x, v, tied);
    FilterAppend(u, v, tied);
    if tied(x) {
      assert fu + fx + fv == fu + fv + fx;
    } else {
      assert fx == [];
      assert fu + fx + fv == fu + fv + fx;
    }
  }

  /** Filtering `u + [x] + v` filters the three parts. */
  lemma SpliceFilter<T>(u: seq<T>, x: T, v: seq<T>, p: T -> bool)
    ensures Filter(u + [x] + v, p) == Filter(u, p) + Filter([x], p) + Filter(v, p)
  {
    FilterAppend(u + [x], v, p);
    FilterAppend(u, [x], p);
  }

  /** Nothing `Insert` places after `x` ties with what `x` ties with. */
  lemma NothingTiedAfter<T(!new)>(s: seq<T>, x: T, cmp: (T, T) -> int, c: T)
    requires Consistent(cmp) && Tie(cmp, x, c)
    ensures Filter(s[InsertPos(s, x, cmp)..], TiedWith(cmp, c)) == []
  {
    InsertShape(s, x, cmp);
    NoTieAfterInsert(s[InsertPos(s, x, cmp)..], x, cmp, c);
  }

  /** Elements that must come after `x` cannot tie with anything `x` ties with. */
  lemma {:induction false} NoTieAfterInsert<T(!new)>(t: seq<T>, x: T, cmp: (T, T) -> int, c: T)
    requires Consistent(cmp)
    requires forall k :: 0 <= k < |t| ==> cmp(t[k], x) > 0
    requires Tie(cmp, x, c)
    ensures Filter(t, TiedWith(cmp, c)) == []
  {
    if |t| > 0 {
      assert !Tie(cmp, t[0], c);
      NoTieAfterInsert(t[1..], x, cmp, c);
    }
  }

  /** One step of `InsertPos` when the last element must come after `x`. */
  lemma InsertPosUnfold<T>(s: seq<T>, j: nat, x: T, cmp: (T, T) -> int)
    requires 0 < j <= |s| && cmp(s[j - 1], x) > 0
    ensures InsertPos(s[..j], x, cmp) == InsertPos(s[..j - 1], x, cmp)
  {
    assert s[..j][..j - 1] == s[..j - 1];
  }

  /** Moves `a[i]` left past the elements of the sorted prefix `a[..i]` that
      must come after it. */
  method InsertAt<T>(a: array<T>, i: nat, cmp: (T, T) -> int)
    requires i < a.Length
    modifies a
    ensures a[..i + 1] == Insert(old(a[..i]), old(a[i]), cmp)
    ensures forall k :: i < k < a.Length ==> a[k] == old(a[k])
  {
    ghost var sorted := a[..i];
    var x := a[i];
    var j := ShiftRight(a, i, x, cmp);
    a[j] := x;
    ghost var r := a[..i + 1];
    assert forall k :: 0 <= k < j ==> r[k] == sorted[k];
    assert forall k :: j < k < |r| ==> r[k] == sorted[k - 1];
    InsertAtResult(sorted, x, cmp, j, r);
  }

  /** The shifting loop of `InsertAt`: moves one place to the right every
      element of `a[..i]`, from the right, that must come after `x`, and
      returns the hole it leaves. */
  method ShiftRight<T>(a: array<T>, i: nat, x: T, cmp: (T, T) -> int) returns (j: nat)
    requires i < a.Length
    modifies a
    ensures j <= i
    ensures forall k :: 0 <= k < j ==> a[k] == old(a[k])
    ensures forall k :: j < k <= i ==> a[k] == old(a[k - 1])
    ensures forall k :: i < k < a.Length ==> a[k] == old(a[k])
    ensures InsertPos(old(a[..i]), x, cmp) == InsertPos(old(a[..i])[..j], x, cmp)
    ensures j == 0 || cmp(old(a[j - 1]), x) <= 0
  {
    ghost var sorted := a[..i];
    j := i;
    assert sorted[..j] == sorted;
    while j > 0 && cmp(a[j - 1], x) > 0
      invariant 0 <= j <= i
      invariant forall k :: 0 <= k < j ==> a[k] == old(a[k])
      invariant forall k :: j < k <= i ==> a[k] == old(a[k - 1])
      invariant forall k :: i < k < a.Length ==> a[k] == old(a[k])
      invariant InsertPos(sorted, x, cmp) == InsertPos(sorted[..j], x, cmp)
    {
      InsertPosUnfold(sorted, j, x, cmp);
      a[j] := a[j - 1];
      j := j - 1;
    }
  }

  /** What the shifting loop leaves: the prefix before `j`, then `x`, then
      the rest of the prefix moved one place right. */
  lemma InsertAtResult<T>(sorted: seq<T>, x: T, cmp: (T, T) -> int, j: nat, r: seq<T>)
    requires j <= |sorted| && |r| == |sorted| + 1
    requires InsertPos(sorted, x, cmp) == InsertPos(sorted[..j], x, cmp)
    requires j == 0 || cmp(sorted[j - 1], x) <= 0
    requires forall k :: 0 <= k < j ==> r[k] == sorted[k]
    requires r[j] == x
    requires forall k :: j < k < |r| ==> r[k] == sorted[k - 1]
    ensures r == Insert(sorted, x, cmp)
  {
    assert InsertPos(sorted, x, cmp) == j by {
      if j > 0 {
        assert sorted[..j][j - 1] == sorted[j - 1];
      } else {
        assert sorted[..j] == [];
      }
    }
    InsertSplit(sorted, x, cmp);
    Spliced(sorted, x, j, r);
  }

  /** A sequence that agrees with `s[..j] + [x] + s[j..]` at every index is it. */
  lemma Spliced<T>(s: seq<T>, x: T, j: nat, r: seq<T>)
    requires j <= |s| && |r| == |s| + 1
    requires forall k :: 0 <= k < j ==> r[k] == s[k]
    requires r[j] == x
    requires forall k :: j < k < |r| ==> r[k] == s[k - 1]
    ensures r == s[..j] + [x] + s[j..]
  {
    var want := s[..j] + [x] + s[j..];
    forall k | 0 <= k < |r| ensures r[k] == want[k] {
      if k < j {
        assert want[k] == s[k];
      } else if k > j {
        assert want[k] == s[j..][k - j - 1] == s[k - 1];
      }
    }
  }

  /** `a.sort(cmp)`: insertion sort, in place. */
  method SortInPlace<T>(a: array<T>, cmp: (T, T) -> int)
    modifies a
    ensures a[..] == SortSpec(old(a[..]), cmp)
  {
    ghost var input := a[..];
    var i := 0;
    while i < a.Length
      invariant 0 <= i <= a.Length
      invariant a[..i] == SortSpec(input[..i], cmp)
      invariant a[i..] == input[i..]
    {
      ghost var before := a[..];
      InsertAt(a, i, cmp);
      assert before[..i] == SortSpec(input[..i], cmp) && before[i] == input[i];
      assert input[..i + 1][..i] == input[..i];
      assert a[i + 1..] == input[i + 1..] by {
        assert forall k :: i < k < a.Length ==> a[k] == before[k] == input[k];
      }
      i := i + 1;
    }
    assert a[..] == a[..a.Length];
    assert input == input[..a.Length];
  }
}
