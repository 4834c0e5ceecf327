/** table.sort: quicksort in place, recursive on the smaller part only
    (src/ltablib.c:166-267). */
module Sort {
  import opened Bits

  /** What the manual asks of the order: it must be a strict weak order. */
  ghost predicate StrictWeak<T(!new)>(less: (T, T) -> bool) {
    && (forall x :: !less(x, x))
    && (forall x, y, z :: less(x, y) && less(y, z) ==> less(x, z))
    && (forall x, y, z :: !less(x, y) && !less(y, x) && !less(y, z) && !less(z, y) ==> !less(x, z) && !less(z, x))
  }

  /** x may stand before y. */
  predicate Le<T>(less: (T, T) -> bool, x: T, y: T) {
    !less(y, x)
  }

  lemma LeTransitive<T(!new)>(less: (T, T) -> bool, x: T, y: T, z: T)
    requires StrictWeak(less) && Le(less, x, y) && Le(less, y, z)
    ensures Le(less, x, z)
  {
    if less(x, y) {
    } else if less(y, z) {
    }
  }

  ghost predicate Sorted<T>(less: (T, T) -> bool, s: seq<T>, l: int, u: int) {
    forall p, q :: 0 <= p < |s| && 0 <= q < |s| && l <= p < q <= u ==> Le(less, s[p], s[q])
  }

  // ------------------------------------------------------------- rearrangements

  /** t has the elements of s; outside l..u they are where they were. */
  ghost predicate Rearranged<T>(s: seq<T>, t: seq<T>, l: int, u: int)
    requires 0 <= l <= u + 1 <= |s|
  {
    && |t| == |s|
    && (forall p :: 0 <= p < |s| && !(l <= p <= u) ==> t[p] == s[p])
    && multiset(t[l..u + 1]) == multiset(s[l..u + 1])
  }

  lemma RearrangedTransitive<T>(s: seq<T>, t: seq<T>, v: seq<T>, l: int, u: int)
    requires 0 <= l <= u + 1 <= |s| && Rearranged(s, t, l, u) && Rearranged(t, v, l, u)
    ensures Rearranged(s, v, l, u)
  {
  }

  lemma RearrangedPart<T>(s: seq<T>, t: seq<T>, j: int, i: int, l: int, u: int)
    requires 0 <= l <= j <= i + 1 <= u + 1 <= |s| && Rearranged(s, t, j, i)
    ensures Rearranged(s, t, l, u)
  {
    assert s[l..u + 1] == s[l..j] + s[j..i + 1] + s[i + 1..u + 1];
    assert t[l..u + 1] == t[l..j] + t[j..i + 1] + t[i + 1..u + 1];
    assert s[l..j] == t[l..j] && s[i + 1..u + 1] == t[i + 1..u + 1];
  }

  function Swapped<T>(s: seq<T>, i: nat, j: nat): seq<T>
    requires i < |s| && j < |s|
  {
    s[i := s[j]][j := s[i]]
  }

  lemma SwapEnds<T>(x: T, m: seq<T>, y: T)
    ensures multiset([x] + m + [y]) == multiset([y] + m + [x])
  {
  }

  lemma SwappedInner<T>(s: seq<T>, p: nat, q: nat)
    requires p < q < |s|
    ensures Rearranged(s, Swapped(s, p, q), p, q)
  {
    var t, m := Swapped(s, p, q), s[p + 1..q];
    assert s[p..q + 1] == [s[p]] + m + [s[q]];
    assert t[p..q + 1] == [s[q]] + m + [s[p]];
    SwapEnds(s[p], m, s[q]);
  }

  lemma SwappedRearranged<T>(s: seq<T>, i: nat, j: nat, l: int, u: int)
    requires 0 <= l <= i <= u < |s| && l <= j <= u
    ensures Rearranged(s, Swapped(s, i, j), l, u)
  {
    hide Rearranged;
    var p, q := if i < j then i else j, if i < j then j else i;
    assert Swapped(s, i, j) == Swapped(s, p, q);
    if p < q {
      SwappedInner(s, p, q);
      RearrangedPart(s, Swapped(s, p, q), p, q, l, u);
    } else {
      assert Swapped(s, p, q) == s;
      RearrangedSame(s, l, u);
    }
  }

  lemma RearrangedSame<T>(s: seq<T>, l: int, u: int)
    requires 0 <= l <= u + 1 <= |s|
    ensures Rearranged(s, s, l, u)
  {
  }

  /** Every element of the part comes from the part. */
  lemma ComesFrom<T>(s: seq<T>, t: seq<T>, l: int, u: int, p: int) returns (q: int)
    requires 0 <= l <= u + 1 <= |s| && Rearranged(s, t, l, u) && l <= p <= u
    ensures l <= q <= u && t[p] == s[q]
  {
    var x := t[l..u + 1][p - l];
    assert x in multiset(t[l..u + 1]);
    assert x in s[l..u + 1];
    var k :| 0 <= k < |s[l..u + 1]| && s[l..u + 1][k] == x;
    q := l + k;
  }

  // ------------------------------------------------------------------- bounds

  ghost predicate AllLe<T>(less: (T, T) -> bool, s: seq<T>, l: int, i: int, pivot: T) {
    forall p :: 0 <= p < |s| && l <= p <= i ==> Le(less, s[p], pivot)
  }

  ghost predicate AllGe<T>(less: (T, T) -> bool, s: seq<T>, j: int, u: int, pivot: T) {
    forall p :: 0 <= p < |s| && j <= p <= u ==> Le(less, pivot, s[p])
  }

  /** All pairs but those inside l..u are in order. */
  ghost predicate Outside<T>(less: (T, T) -> bool, s: seq<T>, l0: int, u0: int, l: int, u: int) {
    forall p, q :: 0 <= p < |s| && 0 <= q < |s| && l0 <= p < q <= u0 && (p < l || q > u) ==> Le(less, s[p], s[q])
  }

  lemma OutsideRearranged<T>(less: (T, T) -> bool, s: seq<T>, t: seq<T>, l0: int, u0: int, l: int, u: int)
    requires 0 <= l0 <= l <= u + 1 <= u0 + 1 <= |s| && Outside(less, s, l0, u0, l, u) && Rearranged(s, t, l, u)
    ensures Outside(less, t, l0, u0, l, u)
  {
    forall p, q | 0 <= p < |t| && 0 <= q < |t| && l0 <= p < q <= u0 && (p < l || q > u)
      ensures Le(less, t[p], t[q])
    {
      if l <= p <= u {
        var p' := ComesFrom(s, t, l, u, p);
      } else if l <= q <= u {
        var q' := ComesFrom(s, t, l, u, q);
      }
    }
  }

  lemma AllLeRearranged<T>(less: (T, T) -> bool, s: seq<T>, t: seq<T>, l: int, i: int, pivot: T)
    requires 0 <= l <= i + 1 <= |s| && AllLe(less, s, l, i, pivot) && Rearranged(s, t, l, i)
    ensures AllLe(less, t, l, i, pivot)
  {
    forall p | 0 <= p < |t| && l <= p <= i
      ensures Le(less, t[p], pivot)
    {
      var q := ComesFrom(s, t, l, i, p);
    }
  }

  lemma AllGeRearranged<T>(less: (T, T) -> bool, s: seq<T>, t: seq<T>, j: int, u: int, pivot: T)
    requires 0 <= j <= u + 1 <= |s| && AllGe(less, s, j, u, pivot) && Rearranged(s, t, j, u)
    ensures AllGe(less, t, j, u, pivot)
  {
    forall p | 0 <= p < |t| && j <= p <= u
      ensures Le(less, pivot, t[p])
    {
      var q := ComesFrom(s, t, j, u, p);
    }
  }

  // -------------------------------------------------------------------- methods

  /** set2: a[i] and a[j] change places. */
  method Swap<T>(a: array<T>, i: nat, j: nat)
    requires i < a.Length && j < a.Length
    modifies a
    ensures a[..] == Swapped(old(a[..]), i, j)
  {
    a[i], a[j] := a[j], a[i];
  }

  /** Orders a[l], a[(l+u)/2] and a[u]. */
  method OrderThree<T(!new)>(a: array<T>, less: (T, T) -> bool, l: nat, u: nat) returns (i: nat)
    requires StrictWeak(less) && l + 2 <= u < a.Length && Le(less, a[l], a[u])
    modifies a
    ensures i == (l + u) / 2 && l < i < u
    ensures Le(less, a[l], a[i]) && Le(less, a[i], a[u]) && Rearranged(old(a[..]), a[..], l, u)
  {
    ghost var s := a[..];
    i := (l + u) / 2;
    SwappedRearranged(s, i, i, l, u);
    SwappedRearranged(s, i, l, l, u);
    SwappedRearranged(s, i, u, l, u);
    assert Swapped(s, i, i) == s;
    if less(a[i], a[l]) {
      Swap(a, i, l);
    } else if less(a[u], a[i]) {
      Swap(a, i, u);
    }
  }

  /** Looks upwards for an element that is not before the pivot.  The scan stays
      inside the array, and so the order is never found to be invalid. */
  method ScanUp<T(!new)>(a: array<T>, less: (T, T) -> bool, pivot: T, i0: nat, l: nat, u: nat, ghost j: nat) returns (ok: bool, i: nat)
    requires StrictWeak(less) && l <= i0 <= j < u < a.Length && (i0 == j ==> j < u - 1)
    requires AllLe(less, a[..], l, i0, pivot) && AllGe(less, a[..], j, u, pivot) && a[u - 1] == pivot
    ensures ok && i0 < i < u && !less(a[i], pivot)
    ensures AllLe(less, a[..], l, i - 1, pivot) && (if i0 < j then i <= j else i == j + 1)
  {
    i := i0 + 1;
    while less(a[i], pivot)
      invariant i0 < i < u && AllLe(less, a[..], l, i - 1, pivot) && (if i0 < j then i <= j else i == j + 1)
      decreases u - i
    {
      if i > u {
        return false, i;
      }
      assert i < j;
      i := i + 1;
    }
    ok := true;
  }

  /** Looks downwards for an element that is not behind the pivot. */
  method ScanDown<T(!new)>(a: array<T>, less: (T, T) -> bool, pivot: T, j0: nat, l: nat, u: nat, ghost i: nat) returns (ok: bool, j: nat)
    requires StrictWeak(less) && l < i < u < a.Length && l < j0 <= u && i - 1 <= j0
    requires AllLe(less, a[..], l, i - 1, pivot) && AllGe(less, a[..], j0, u, pivot)
    ensures ok && l <= j < j0 && (i - 1 <= j || j == j0 - 1) && !less(pivot, a[j])
    ensures AllGe(less, a[..], j + 1, u, pivot)
  {
    j := j0 - 1;
    while less(pivot, a[j])
      invariant l <= j < j0 && (i - 1 <= j || j == j0 - 1) && AllGe(less, a[..], j + 1, u, pivot)
      decreases j
    {
      if j < l {
        return false, j;
      }
      assert j > i - 1;
      j := j - 1;
    }
    ok := true;
  }

  lemma PartitionStarts<T(!new)>(less: (T, T) -> bool, s: seq<T>, l: nat, u: nat)
    requires StrictWeak(less) && l + 3 <= u < |s| && Le(less, s[l], s[u - 1]) && Le(less, s[u - 1], s[u])
    ensures AllLe(less, s, l, l, s[u - 1]) && AllGe(less, s, u - 1, u, s[u - 1])
  {
  }

  /** Swapping a[i] and a[j] puts both on their sides of the pivot. */
  lemma PartitionStep<T>(less: (T, T) -> bool, s: seq<T>, l: nat, i: nat, j: nat, u: nat, pivot: T)
    requires l < i <= j < u - 1 && u < |s|
    requires AllLe(less, s, l, i - 1, pivot) && AllGe(less, s, j + 1, u, pivot)
    requires Le(less, pivot, s[i]) && Le(less, s[j], pivot)
    ensures AllLe(less, Swapped(s, i, j), l, i, pivot) && AllGe(less, Swapped(s, i, j), j, u, pivot)
    ensures |Swapped(s, i, j)| == |s| && Swapped(s, i, j)[u - 1] == s[u - 1]
  {
  }

  /** The scans have crossed: swapping the pivot in finishes the division. */
  lemma PartitionEnds<T>(less: (T, T) -> bool, s: seq<T>, l: nat, i: nat, j: nat, u: nat)
    requires l < i < u < |s| && j < i
    requires AllLe(less, s, l, i - 1, s[u - 1]) && AllGe(less, s, j + 1, u, s[u - 1])
    ensures AllLe(less, Swapped(s, u - 1, i), l, i - 1, s[u - 1]) && AllGe(less, Swapped(s, u - 1, i), i + 1, u, s[u - 1])
    ensures |Swapped(s, u - 1, i)| == |s| && Swapped(s, u - 1, i)[i] == s[u - 1]
  {
  }

  /** Divides a[l..u] around the pivot a[u-1]; a[l] and a[u] are in order already. */
  method Partition<T(!new)>(a: array<T>, less: (T, T) -> bool, l: nat, u: nat) returns (ok: bool, i: nat)
    requires StrictWeak(less) && l + 3 <= u < a.Length
    requires Le(less, a[l], a[u - 1]) && Le(less, a[u - 1], a[u])
    modifies a
    ensures ok && l < i < u && Rearranged(old(a[..]), a[..], l, u)
    ensures AllLe(less, a[..], l, i - 1, a[i]) && AllGe(less, a[..], i + 1, u, a[i])
  {
    hide StrictWeak, Rearranged, AllLe, AllGe, Swapped;
    var pivot := a[u - 1];
    i := l;
    var j := u - 1;
    PartitionStarts(less, a[..], l, u);
    RearrangedSame(a[..], l, u);
    while true
      invariant l <= i <= j <= u - 1 && (i == j ==> l < j < u - 1) && a[u - 1] == pivot
      invariant AllLe(less, a[..], l, i, pivot) && AllGe(less, a[..], j, u, pivot)
      invariant Rearranged(old(a[..]), a[..], l, u)
      decreases j - i + 1
    {
      ok, i := ScanUp(a, less, pivot, i, l, u, j);
      if !ok {
        return;
      }
      ok, j := ScanDown(a, less, pivot, j, l, u, i);
      if !ok {
        return;
      }
      if j < i {
        break;
      }
      ghost var s := a[..];
      SwappedRearranged(s, i, j, l, u);
      PartitionStep(less, s, l, i, j, u, pivot);
      Swap(a, i, j);
      RearrangedTransitive(old(a[..]), s, a[..], l, u);
      assert a[..][u - 1] == pivot;
    }
    ghost var s := a[..];
    SwappedRearranged(s, u - 1, i, l, u);
    PartitionEnds(less, s, l, i, j, u);
    Swap(a, u - 1, i);
    RearrangedTransitive(old(a[..]), s, a[..], l, u);
    assert a[..][i] == pivot;
  }

  /** a[l..u] is in order and so is every pair outside it: the whole part is. */
  lemma Finish<T>(less: (T, T) -> bool, s: seq<T>, t: seq<T>, l0: int, u0: int, l: int, u: int)
    requires 0 <= l0 <= l <= u + 1 <= u0 + 1 <= |s| && Outside(less, s, l0, u0, l, u)
    requires Rearranged(s, t, l, u) && Sorted(less, t, l, u)
    ensures Sorted(less, t, l0, u0)
  {
    OutsideRearranged(less, s, t, l0, u0, l, u);
  }

  /** The part below the pivot is in order: only the part above it is left. */
  lemma LowerDone<T(!new)>(less: (T, T) -> bool, s: seq<T>, t: seq<T>, l0: int, u0: int, l: int, i: int, u: int)
    requires StrictWeak(less) && 0 <= l0 <= l <= i <= u <= u0 < |s| && Outside(less, s, l0, u0, l, u)
    requires AllLe(less, s, l, i - 1, s[i]) && AllGe(less, s, i + 1, u, s[i])
    requires Rearranged(s, t, l, i - 1) && Sorted(less, t, l, i - 1)
    ensures Outside(less, t, l0, u0, i + 1, u)
  {
    RearrangedPart(s, t, l, i - 1, l, u);
    OutsideRearranged(less, s, t, l0, u0, l, u);
    AllLeRearranged(less, s, t, l, i - 1, s[i]);
    forall p, q | 0 <= p < |t| && 0 <= q < |t| && l0 <= p < q <= u0 && (p < i + 1 || q > u)
      ensures Le(less, t[p], t[q])
    {
      if l <= p <= i && i < q <= u {
        LeTransitive(less, t[p], s[i], t[q]);
      }
    }
  }

  /** The part above the pivot is in order: only the part below it is left. */
  lemma UpperDone<T(!new)>(less: (T, T) -> bool, s: seq<T>, t: seq<T>, l0: int, u0: int, l: int, i: int, u: int)
    requires StrictWeak(less) && 0 <= l0 <= l <= i <= u <= u0 < |s| && Outside(less, s, l0, u0, l, u)
    requires AllLe(less, s, l, i - 1, s[i]) && AllGe(less, s, i + 1, u, s[i])
    requires Rearranged(s, t, i + 1, u) && Sorted(less, t, i + 1, u)
    ensures Outside(less, t, l0, u0, l, i - 1)
  {
    RearrangedPart(s, t, i + 1, u, l, u);
    OutsideRearranged(less, s, t, l0, u0, l, u);
    AllGeRearranged(less, s, t, i + 1, u, s[i]);
    forall p, q | 0 <= p < |t| && 0 <= q < |t| && l0 <= p < q <= u0 && (p < l || q > i - 1)
      ensures Le(less, t[p], t[q])
    {
      if l <= p < i && i <= q <= u {
        LeTransitive(less, t[p], s[i], t[q]);
      }
    }
  }

  lemma HalfFits(size: int, smaller: int, depth: nat)
    requires 4 <= size < Pow2(depth + 1) && 2 * smaller <= size - 1
    ensures depth > 0 && smaller < Pow2(depth)
  {
    assert Pow2(depth + 1) == 2 * Pow2(depth);
  }

  lemma SortedTwo<T>(less: (T, T) -> bool, s: seq<T>, l: nat)
    requires l + 1 < |s| && Le(less, s[l], s[l + 1])
    ensures Sorted(less, s, l, l + 1)
  {
  }

  lemma SortedThree<T(!new)>(less: (T, T) -> bool, s: seq<T>, l: nat)
    requires StrictWeak(less) && l + 2 < |s| && Le(less, s[l], s[l + 1]) && Le(less, s[l + 1], s[l + 2])
    ensures Sorted(less, s, l, l + 2)
  {
    LeTransitive(less, s[l], s[l + 1], s[l + 2]);
  }

  /** A strict order never has both x before y and y before x. */
  lemma Asymmetric<T(!new)>(less: (T, T) -> bool, x: T, y: T)
    requires StrictWeak(less) && less(x, y)
    ensures Le(less, x, y)
  {
  }

  /** a[l] and a[u], in order. */
  method OrderEnds<T(!new)>(a: array<T>, less: (T, T) -> bool, l: nat, u: nat)
    requires StrictWeak(less) && l < u < a.Length
    modifies a
    ensures Rearranged(old(a[..]), a[..], l, u) && Le(less, a[l], a[u])
  {
    hide StrictWeak, Rearranged;
    SwappedRearranged(a[..], l, u, l, u);
    RearrangedSame(a[..], l, u);
    if less(a[u], a[l]) {
      Asymmetric(less, a[u], a[l]);
      Swap(a, l, u);
    }
  }

  /** The body of the loop up to the recursive call: either a[l..u] is in order
      already (`done`), or it is divided around a[i]. */
  method Divide<T(!new)>(a: array<T>, less: (T, T) -> bool, l: nat, u: nat) returns (ok: bool, done: bool, i: nat)
    requires StrictWeak(less) && l < u < a.Length
    modifies a
    ensures ok && Rearranged(old(a[..]), a[..], l, u) && done == (u - l <= 2)
    ensures done ==> Sorted(less, a[..], l, u)
    ensures !done ==> l < i < u && AllLe(less, a[..], l, i - 1, a[i]) && AllGe(less, a[..], i + 1, u, a[i])
  {
    hide StrictWeak, Rearranged, AllLe, AllGe, Sorted;
    OrderEnds(a, less, l, u);
    if u - l == 1 {
      SortedTwo(less, a[..], l);
      return true, true, l;
    }
    ghost var s1 := a[..];
    i := OrderThree(a, less, l, u);
    RearrangedTransitive(old(a[..]), s1, a[..], l, u);
    if u - l == 2 {
      SortedThree(less, a[..], l);
      return true, true, l;
    }
    ghost var s2 := a[..];
    SwappedRearranged(s2, i, u - 1, l, u);
    LeTransitive(less, a[l], a[i], a[u]);
    Swap(a, i, u - 1);
    ghost var s3 := a[..];
    RearrangedTransitive(old(a[..]), s2, s3, l, u);
    ok, i := Partition(a, less, l, u);
    RearrangedTransitive(old(a[..]), s3, a[..], l, u);
    done := false;
  }

  /** auxsort.  `depth` bounds how deep the recursion goes: each level of it has
      less than half of the elements of the level above. */
  method AuxSort<T(!new)>(a: array<T>, less: (T, T) -> bool, l0: int, u0: int, ghost depth: nat) returns (ok: bool)
    requires StrictWeak(less) && 0 <= l0 <= u0 + 1 <= a.Length && u0 - l0 + 1 < Pow2(depth + 1)
    modifies a
    ensures ok && Sorted(less, a[..], l0, u0) && Rearranged(old(a[..]), a[..], l0, u0)
    decreases depth
  {
    hide StrictWeak, Rearranged, AllLe, AllGe, Pow2, Outside, Sorted;
    var l, u := l0, u0;
    OutsideNothing(less, a[..], l0, u0);
    RearrangedSame(a[..], l0, u0);
    while l < u
      invariant l0 <= l <= u + 1 <= u0 + 1 && Outside(less, a[..], l0, u0, l, u)
      invariant Rearranged(old(a[..]), a[..], l0, u0)
      decreases u - l
    {
      ghost var s := a[..];
      var done, i;
      ok, done, i := Divide(a, less, l, u);
      ghost var t := a[..];
      RearrangedPart(s, t, l, u, l0, u0);
      RearrangedTransitive(old(a[..]), s, t, l0, u0);
      if !ok {
        return;
      }
      if done {
        Finish(less, s, t, l0, u0, l, u);
        return true;
      }
      OutsideRearranged(less, s, t, l0, u0, l, u);
      if i - l < u - i {
        HalfFits(u - l + 1, i - l, depth);
        ok := AuxSort(a, less, l, i - 1, depth - 1);
        LowerDone(less, t, a[..], l0, u0, l, i, u);
        RearrangedPart(t, a[..], l, i - 1, l0, u0);
        l := i + 1;
      } else {
        HalfFits(u - l + 1, u - i, depth);
        ok := AuxSort(a, less, i + 1, u, depth - 1);
        UpperDone(less, t, a[..], l0, u0, l, i, u);
        RearrangedPart(t, a[..], i + 1, u, l0, u0);
        u := i - 1;
      }
      RearrangedTransitive(old(a[..]), t, a[..], l0, u0);
      if !ok {
        return;
      }
    }
    OutsideAll(less, a[..], l0, u0, l, u);
    ok := true;
  }

  lemma OutsideNothing<T>(less: (T, T) -> bool, s: seq<T>, l: int, u: int)
    ensures Outside(less, s, l, u, l, u)
  {
  }

  lemma OutsideAll<T>(less: (T, T) -> bool, s: seq<T>, l0: int, u0: int, l: int, u: int)
    requires u <= l && Outside(less, s, l0, u0, l, u)
    ensures Sorted(less, s, l0, u0)
  {
  }

  /** table.sort: for every strict weak order the whole array ends in order, has its
      old elements, and "invalid order function" is never raised; the recursion
      is at most log2 of the size deep. */
  method SortTable<T(!new)>(a: array<T>, less: (T, T) -> bool) returns (ok: bool)
    requires StrictWeak(less)
    modifies a
    ensures ok && multiset(a[..]) == multiset(old(a[..]))
    ensures forall p, q :: 0 <= p < q < a.Length ==> !less(a[q], a[p])
  {
    ghost var depth := Depth(a.Length);
    ok := AuxSort(a, less, 0, a.Length - 1, depth);
    assert a[..][0..a.Length] == a[..] && old(a[..])[0..a.Length] == old(a[..]);
  }

  /** The binary logarithm of n. */
  ghost function Depth(n: nat): (d: nat)
    ensures n < Pow2(d + 1) && (n > 0 ==> Pow2(d) <= n)
  {
    if n <= 1 then 0 else 1 + Depth(n / 2)
  }
}
