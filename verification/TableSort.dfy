/** table.sort (lib_table.c): quicksort in place with median of three, sentinels, and recursion
    into the smaller part only. */
module TableSort {
  /** A comparison function that always answers the same for the same values. */
  type Less<!T> = (T, T) -> bool

  /** The order the documentation of table.sort asks for: a strict order in which being
      incomparable is transitive. */
  ghost predicate StrictWeakOrder<T(!new)>(lt: Less<T>) {
    && (forall x, y :: lt(x, y) ==> !lt(y, x))
    && (forall x, y, z {:trigger lt(x, y), lt(y, z)} :: !lt(x, y) && !lt(y, z) ==> !lt(x, z))
  }

  lemma Asymmetric<T(!new)>(lt: Less<T>, x: T, y: T)
    requires StrictWeakOrder(lt) && lt(x, y)
    ensures !lt(y, x)
  {
  }

  lemma NotLessTrans<T(!new)>(lt: Less<T>, x: T, y: T, z: T)
    requires StrictWeakOrder(lt) && !lt(x, y) && !lt(y, z)
    ensures !lt(x, z)
  {
  }

  /** No element is less than one before it. */
  ghost predicate Sorted<T>(lt: Less<T>, s: seq<T>) {
    forall x, y {:trigger s[x], s[y]} :: 0 <= x < y < |s| ==> !lt(s[y], s[x])
  }

  // ---- permutations of a part ------------------------------------------------------------------

  /** s' has the elements of s, and differs from it at most from l to u. */
  ghost predicate Permuted<T>(s: seq<T>, s': seq<T>, l: int, u: int) {
    && |s| == |s'| && multiset(s) == multiset(s')
    && forall k {:trigger s'[k]} {:trigger s[k]} :: 0 <= k < |s| && !(l <= k <= u) ==> s'[k] == s[k]
  }

  lemma PermutedTrans<T>(s: seq<T>, s': seq<T>, s'': seq<T>, l: int, u: int, l': int, u': int)
    requires Permuted(s, s', l, u) && Permuted(s', s'', l', u') && l <= l' && u' <= u
    ensures Permuted(s, s'', l, u)
  {
  }

  lemma Cancel<T>(a: multiset<T>, b: multiset<T>, c: multiset<T>)
    requires a + b == a + c
    ensures b == c
  {
    assert (a + b) - a == b && (a + c) - a == c;
  }

  lemma SwapPermuted<T>(s0: seq<T>, s: seq<T>, i: int, j: int, l: int, u: int)
    requires Permuted(s0, s, l, u) && 0 <= i < |s| && 0 <= j < |s| && l <= i <= u && l <= j <= u
    ensures Permuted(s0, s[i := s[j]][j := s[i]], l, u)
  {
  }

  lemma PermutedSelf<T>(s: seq<T>, l: int, u: int)
    ensures Permuted(s, s, l, u)
  {
  }

  /** The part that changed has the same elements. */
  lemma PartSame<T>(s: seq<T>, s': seq<T>, l: int, u: int)
    requires Permuted(s, s', l, u) && 0 <= l <= u + 1 <= |s|
    ensures multiset(s[l..u + 1]) == multiset(s'[l..u + 1])
  {
    assert s == s[..l] + s[l..u + 1] + s[u + 1..];
    assert s' == s'[..l] + s'[l..u + 1] + s'[u + 1..];
    assert s[..l] == s'[..l] && s[u + 1..] == s'[u + 1..];
    assert multiset(s) == multiset(s[..l]) + multiset(s[l..u + 1]) + multiset(s[u + 1..]);
    assert multiset(s') == multiset(s'[..l]) + multiset(s'[l..u + 1]) + multiset(s'[u + 1..]);
    assert multiset(s) == (multiset(s[..l]) + multiset(s[u + 1..])) + multiset(s[l..u + 1]);
    assert multiset(s') == (multiset(s[..l]) + multiset(s[u + 1..])) + multiset(s'[l..u + 1]);
    Cancel(multiset(s[..l]) + multiset(s[u + 1..]), multiset(s[l..u + 1]), multiset(s'[l..u + 1]));
  }

  /** Every element of the part was in the part before. */
  lemma Origin<T>(s: seq<T>, s': seq<T>, l: int, u: int, k: int) returns (m: int)
    requires Permuted(s, s', l, u) && 0 <= l <= k <= u < |s|
    ensures l <= m <= u && s[m] == s'[k]
  {
    PartSame(s, s', l, u);
    assert s'[l..u + 1][k - l] == s'[k];
    assert s'[k] in multiset(s'[l..u + 1]);
    assert s'[k] in s[l..u + 1];
    var n :| 0 <= n < u + 1 - l && s[l..u + 1][n] == s'[k];
    m := l + n;
  }

  method Swap<T>(a: array<T>, i: int, j: int)
    requires 0 <= i < a.Length && 0 <= j < a.Length
    modifies a
    ensures a[..] == old(a[..])[i := old(a[j])][j := old(a[i])]
  {
    a[i], a[j] := a[j], a[i];
  }

  // ---- one round -------------------------------------------------------------------------------

  /** The first three elements to look at are put in order: a[l] <= a[i] <= a[u]. */
  method MedianOfThree<T(!new)>(a: array<T>, l: int, u: int, lt: Less<T>) returns (i: int)
    requires 0 <= l < u < a.Length
    modifies a
    ensures Permuted(old(a[..]), a[..], l, u)
    ensures i == (l + u) / 2
    ensures StrictWeakOrder(lt) ==> !lt(a[u], a[l]) && (u - l > 1 ==> !lt(a[i], a[l]) && !lt(a[u], a[i]))
  {
    hide StrictWeakOrder, Permuted;
    ghost var s0 := a[..];
    PermutedSelf(s0, l, u);
    ghost var order := StrictWeakOrder(lt);
    if lt(a[u], a[l]) {
      if order {
        Asymmetric(lt, a[u], a[l]);
      }
      SwapPermuted(s0, a[..], l, u, l, u);
      Swap(a, l, u);
    }
    i := (l + u) / 2;
    if u - l == 1 {
      return;
    }
    ghost var x, y, z := a[l], a[i], a[u];
    if lt(a[i], a[l]) {
      if order {
        Asymmetric(lt, y, x);
        NotLessTrans(lt, z, x, y);
      }
      SwapPermuted(s0, a[..], i, l, l, u);
      Swap(a, i, l);
    } else if lt(a[u], a[i]) {
      if order {
        Asymmetric(lt, z, y);
      }
      SwapPermuted(s0, a[..], i, u, l, u);
      Swap(a, i, u);
    }
  }

  /** Forward from i to an element that is not less than the pivot; running into the end u means
      that the order is invalid. */
  method ScanUp<T>(a: array<T>, i0: int, u: int, pivot: T, lt: Less<T>) returns (ok: bool, i: int)
    requires 0 <= i0 + 1 <= u < a.Length
    ensures i0 < i <= u && forall k {:trigger a[k]} :: i0 < k < i ==> lt(a[k], pivot)
    ensures ok ==> !lt(a[i], pivot)
    ensures !ok ==> i == u && lt(a[u], pivot)
  {
    i := i0 + 1;
    while lt(a[i], pivot)
      invariant i0 < i <= u && forall k {:trigger a[k]} :: i0 < k < i ==> lt(a[k], pivot)
      decreases u - i
    {
      if i >= u {
        return false, i;
      }
      i := i + 1;
    }
    return true, i;
  }

  /** Backward from j to an element that the pivot is not less than. */
  method ScanDown<T>(a: array<T>, j0: int, l: int, pivot: T, lt: Less<T>) returns (ok: bool, j: int)
    requires 0 <= l <= j0 - 1 < a.Length
    ensures l <= j < j0 && forall k {:trigger a[k]} :: j < k < j0 ==> lt(pivot, a[k])
    ensures ok ==> !lt(pivot, a[j])
    ensures !ok ==> j == l && lt(pivot, a[l])
  {
    j := j0 - 1;
    while lt(pivot, a[j])
      invariant l <= j < j0 && forall k {:trigger a[k]} :: j < k < j0 ==> lt(pivot, a[k])
      decreases j - l
    {
      if j <= l {
        return false, j;
      }
      j := j - 1;
    }
    return true, j;
  }

  /** Everything from l to u on the left of i is at most the element there, everything on the
      right at least. */
  ghost predicate Split<T>(lt: Less<T>, s: seq<T>, l: int, u: int, i: int) {
    && 0 <= l <= i <= u < |s|
    && (forall k {:trigger s[k]} :: l <= k < i ==> !lt(s[i], s[k]))
    && (forall k {:trigger s[k]} :: i < k <= u ==> !lt(s[k], s[i]))
  }

  ghost predicate AtMost<T>(lt: Less<T>, s: seq<T>, l: int, u: int, p: T) {
    forall k {:trigger s[k]} :: 0 <= l <= k <= u < |s| ==> !lt(p, s[k])
  }

  ghost predicate AtLeast<T>(lt: Less<T>, s: seq<T>, l: int, u: int, p: T) {
    forall k {:trigger s[k]} :: 0 <= l <= k <= u < |s| ==> !lt(s[k], p)
  }

  /** What the two scans have passed is on the right side of the pivot. */
  lemma Passed<T(!new)>(lt: Less<T>, s: seq<T>, l: int, u: int, i0: int, i: int, j: int, j0: int, pivot: T)
    requires StrictWeakOrder(lt) && 0 <= l <= i0 < i <= u < |s| && l <= j < j0 <= u
    requires AtMost(lt, s, l, i0, pivot) && AtLeast(lt, s, j0, u, pivot)
    requires forall k {:trigger s[k]} :: i0 < k < i ==> lt(s[k], pivot)
    requires forall k {:trigger s[k]} :: j < k < j0 ==> lt(pivot, s[k])
    ensures AtMost(lt, s, l, i - 1, pivot) && AtLeast(lt, s, j + 1, u, pivot)
  {
    forall k | l <= k <= i - 1 ensures !lt(pivot, s[k]) {
      if k > i0 {
        Asymmetric(lt, s[k], pivot);
      }
    }
    forall k | j + 1 <= k <= u ensures !lt(s[k], pivot) {
      if k < j0 {
        Asymmetric(lt, pivot, s[k]);
      }
    }
  }

  /** The partition loop: the pivot waits at u - 1, and ends at i. */
  method Partition<T(!new)>(a: array<T>, l: int, u: int, mid: int, lt: Less<T>) returns (ok: bool, i: int)
    requires 0 <= l && l + 2 < u < a.Length && l < mid < u
    requires StrictWeakOrder(lt) ==> !lt(a[mid], a[l]) && !lt(a[u], a[mid])
    modifies a
    ensures Permuted(old(a[..]), a[..], l, u)
    ensures ok ==> l < i <= u
    ensures StrictWeakOrder(lt) ==> ok && Split(lt, a[..], l, u, i)
  {
    hide StrictWeakOrder, AtMost, AtLeast, Split, Permuted;
    ghost var s0 := a[..];
    var pivot := a[mid];
    PermutedSelf(s0, l, u);
    SwapPermuted(s0, s0, mid, u - 1, l, u);
    Swap(a, mid, u - 1);
    i := l;
    var j := u - 1;
    if StrictWeakOrder(lt) {
      Sides(lt, a[..], l, u, pivot);
    }
    while true
      invariant l <= i <= u - 2 && l < j <= u - 1 && Permuted(s0, a[..], l, u) && a[u - 1] == pivot
      invariant StrictWeakOrder(lt) ==> AtMost(lt, a[..], l, i, pivot) && AtLeast(lt, a[..], j, u, pivot)
      invariant StrictWeakOrder(lt) ==> !lt(pivot, a[l]) && !lt(a[u], pivot) && !lt(pivot, pivot)
      decreases u - i
    {
      ghost var i0, j0, s := i, j, a[..];
      ok, i := ScanUp(a, i, u, pivot, lt);
      if !ok {
        return;
      }
      assert i == u ==> a[u - 1] == s[u - 1];
      ok, j := ScanDown(a, j, l, pivot, lt);
      if !ok {
        return;
      }
      if StrictWeakOrder(lt) {
        Passed(lt, s, l, u, i0, i, j, j0, pivot);
      }
      if j < i {
        break;
      }
      SwapPermuted(s0, s, i, j, l, u);
      Swap(a, i, j);
      if StrictWeakOrder(lt) {
        Exchanged(lt, s, l, u, i, j, pivot, a[..]);
      }
    }
    ghost var s := a[..];
    SwapPermuted(s0, s, u - 1, i, l, u);
    Swap(a, u - 1, i);
    if StrictWeakOrder(lt) {
      SplitThere(lt, s, l, u, i, j, pivot, a[..]);
    }
  }

  lemma Sides<T(!new)>(lt: Less<T>, s: seq<T>, l: int, u: int, pivot: T)
    requires StrictWeakOrder(lt) && 0 <= l && l + 1 < u < |s| && s[u - 1] == pivot && !lt(pivot, s[l]) && !lt(s[u], pivot)
    ensures AtMost(lt, s, l, l, pivot) && AtLeast(lt, s, u - 1, u, pivot) && !lt(pivot, pivot)
  {
  }

  lemma Exchanged<T>(lt: Less<T>, s: seq<T>, l: int, u: int, i: int, j: int, pivot: T, s': seq<T>)
    requires 0 <= l < i <= j <= u - 2 && u < |s| && s' == s[i := s[j]][j := s[i]]
    requires AtMost(lt, s, l, i - 1, pivot) && AtLeast(lt, s, j + 1, u, pivot) && !lt(s[i], pivot) && !lt(pivot, s[j])
    ensures AtMost(lt, s', l, i, pivot) && AtLeast(lt, s', j, u, pivot) && s'[u - 1] == s[u - 1] && s'[l] == s[l] && s'[u] == s[u]
  {
  }

  /** The pivot comes to its place. */
  lemma SplitThere<T>(lt: Less<T>, s: seq<T>, l: int, u: int, i: int, j: int, pivot: T, s': seq<T>)
    requires 0 <= l <= j < i <= u - 1 && u < |s| && s' == s[u - 1 := s[i]][i := s[u - 1]] && s[u - 1] == pivot
    requires AtMost(lt, s, l, i - 1, pivot) && AtLeast(lt, s, j + 1, u, pivot)
    ensures Split(lt, s', l, u, i)
  {
  }

  // ---- sorting -----------------------------------------------------------------------------------

  function Pow2(n: nat): nat {
    if n == 0 then 1 else 2 * Pow2(n - 1)
  }

  /** Within l0 to u0, only elements that both lie within l to u may still be in wrong order. */
  ghost predicate SortedAround<T>(lt: Less<T>, s: seq<T>, l0: int, u0: int, l: int, u: int) {
    forall x, y {:trigger s[x], s[y]} :: 0 <= l0 <= x < y <= u0 < |s| && !(l <= x && y <= u) ==> !lt(s[y], s[x])
  }

  /** Permuting the open part does no harm outside. */
  lemma AroundPermuted<T>(lt: Less<T>, s: seq<T>, s': seq<T>, l0: int, u0: int, l: int, u: int)
    requires SortedAround(lt, s, l0, u0, l, u) && Permuted(s, s', l, u) && 0 <= l0 <= l <= u <= u0 < |s|
    ensures SortedAround(lt, s', l0, u0, l, u)
  {
    forall x, y | l0 <= x < y <= u0 && !(l <= x && y <= u) ensures !lt(s'[y], s'[x]) {
      var m, n := x, y;
      if l <= x <= u {
        m := Origin(s, s', l, u, x);
      }
      if l <= y <= u {
        n := Origin(s, s', l, u, y);
      }
      assert s[m] == s'[x] && s[n] == s'[y];
    }
  }

  /** After the split at i and the sorting of one side only the other side is open. */
  lemma AroundSplit<T(!new)>(lt: Less<T>, s: seq<T>, s': seq<T>, l0: int, u0: int, l: int, u: int, i: int, left: bool)
    requires StrictWeakOrder(lt) && SortedAround(lt, s, l0, u0, l, u) && Split(lt, s, l, u, i) && 0 <= l0 <= l <= u <= u0 < |s|
    requires Permuted(s, s', if left then l else i + 1, if left then i - 1 else u)
    requires Sorted(lt, s'[if left then l else i + 1..if left then i else u + 1])
    ensures SortedAround(lt, s', l0, u0, if left then i + 1 else l, if left then u else i - 1)
  {
    var p, q := if left then l else i + 1, if left then i - 1 else u;
    SplitPermuted(lt, s, s', l, u, i, p, q);
    assert Permuted(s, s', l, u);
    AroundPermuted(lt, s, s', l0, u0, l, u);
    forall x, y | l0 <= x < y <= u0 && !((if left then i + 1 else l) <= x && y <= (if left then u else i - 1)) ensures !lt(s'[y], s'[x]) {
      if l <= x && y <= u {
        if p <= x && y <= q {
          assert s'[p..q + 1][x - p] == s'[x] && s'[p..q + 1][y - p] == s'[y];
        } else {
          NotLessTrans(lt, s'[y], s'[i], s'[x]);
        }
      }
    }
  }

  lemma SplitPermuted<T>(lt: Less<T>, s: seq<T>, s': seq<T>, l: int, u: int, i: int, p: int, q: int)
    requires Split(lt, s, l, u, i) && Permuted(s, s', p, q) && l <= p && q <= u && (q < i || i < p)
    ensures Split(lt, s', l, u, i)
  {
    forall k | l <= k <= u && k != i ensures k < i ==> !lt(s'[i], s'[k])
      ensures k > i ==> !lt(s'[k], s'[i])
    {
      if p <= k <= q {
        var m := Origin(s, s', p, q, k);
      }
    }
  }

  /** One round of auxsort: two or three elements are put in order, more are split at i. */
  method Round<T(!new)>(a: array<T>, l: int, u: int, lt: Less<T>) returns (ok: bool, i: int)
    requires 0 <= l < u < a.Length
    modifies a
    ensures Permuted(old(a[..]), a[..], l, u)
    ensures u - l <= 2 ==> ok && (StrictWeakOrder(lt) ==> InOrder(lt, a[..], l, u))
    ensures u - l > 2 && ok ==> l < i <= u
    ensures u - l > 2 && StrictWeakOrder(lt) ==> ok && Split(lt, a[..], l, u, i)
  {
    hide StrictWeakOrder, Permuted, Split;
    ghost var s0 := a[..];
    i := MedianOfThree(a, l, u, lt);
    ok := true;
    if u - l > 2 {
      ghost var s1 := a[..];
      ok, i := Partition(a, l, u, i, lt);
      PermutedTrans(s0, s1, a[..], l, u, l, u);
    }
  }

  /** The first, the middle and the last element are in order. */
  ghost predicate InOrder<T>(lt: Less<T>, s: seq<T>, l: int, u: int) {
    && 0 <= l < u < |s| && !lt(s[u], s[l])
    && (u - l > 1 ==> !lt(s[(l + u) / 2], s[l]) && !lt(s[u], s[(l + u) / 2]))
  }

  /** auxsort: for any comparison function the elements from l to u are permuted, and nothing else
      changes; the function ends, and calls itself at most so deep that two to the depth is no
      more than the number of elements. For a strict weak order it never reports an invalid order,
      and the elements are sorted. */
  method AuxSort<T(!new)>(a: array<T>, l0: int, u0: int, lt: Less<T>) returns (ok: bool, ghost depth: nat)
    requires 0 <= l0 && u0 < a.Length && l0 <= u0 + 1
    modifies a
    ensures Permuted(old(a[..]), a[..], l0, u0)
    ensures Pow2(depth) <= if l0 < u0 then u0 - l0 + 1 else 1
    ensures StrictWeakOrder(lt) ==> ok && Sorted(lt, a[l0..u0 + 1])
    decreases u0 - l0 + 1
  {
    hide StrictWeakOrder, Permuted, Sorted, SortedAround, Split, InOrder;
    ghost var s0, order := a[..], StrictWeakOrder(lt);
    var l, u, more := l0, u0, true;
    ok, depth := true, 0;
    PermutedSelf(s0, l0, u0);
    AroundAll(lt, s0, l0, u0);
    while l < u && more
      invariant l0 <= l && u <= u0 && l <= u + 1 && Permuted(s0, a[..], l0, u0)
      invariant Pow2(depth) <= if l0 < u0 then u0 - l0 + 1 else 1
      invariant order ==> SortedAround(lt, a[..], l0, u0, l, if more then u else l)
      invariant ok
      decreases u - l, more
    {
      ghost var s1 := a[..];
      var i;
      ok, i := Round(a, l, u, lt);
      ghost var s2 := a[..];
      PermutedTrans(s0, s1, s2, l0, u0, l, u);
      if !ok {
        return;
      }
      if order {
        AroundPermuted(lt, s1, s2, l0, u0, l, u);
      }
      if u - l <= 2 {
        if order {
          AroundSmall(lt, s2, l0, u0, l, u);
        }
        more := false;
      } else {
        var j;
        ghost var left := i - l < u - i;
        ghost var l1, u1, i1 := l, u, i;
        if i - l < u - i {
          j := l;
          i := i - 1;
          l := i + 2;
        } else {
          j := i + 1;
          i := u;
          u := j - 2;
        }
        ghost var d;
        ok, d := AuxSort(a, j, i, lt);
        PermutedTrans(s0, s2, a[..], l0, u0, j, i);
        if d + 1 > depth {
          depth := d + 1;
        }
        if !ok {
          return;
        }
        if order {
          AroundSplit(lt, s2, a[..], l0, u0, l1, u1, i1, left);
        }
      }
    }
    if order {
      AroundSorted(lt, a[..], l0, u0, l, if more then u else l);
    }
  }

  lemma AroundAll<T>(lt: Less<T>, s: seq<T>, l: int, u: int)
    ensures SortedAround(lt, s, l, u, l, u)
  {
  }

  /** Two or three elements are in order after the first three comparisons. */
  lemma AroundSmall<T(!new)>(lt: Less<T>, s: seq<T>, l0: int, u0: int, l: int, u: int)
    requires StrictWeakOrder(lt) && SortedAround(lt, s, l0, u0, l, u) && 0 <= l0 <= l < u <= u0 < |s| && u - l <= 2
    requires InOrder(lt, s, l, u)
    ensures SortedAround(lt, s, l0, u0, l, l)
  {
    assert u - l == 2 ==> (l + u) / 2 == l + 1;
  }

  lemma AroundSorted<T>(lt: Less<T>, s: seq<T>, l0: int, u0: int, l: int, u: int)
    requires SortedAround(lt, s, l0, u0, l, u) && u <= l && 0 <= l0 <= u0 + 1 <= |s|
    ensures Sorted(lt, s[l0..u0 + 1])
  {
    var t := s[l0..u0 + 1];
    forall x, y {:trigger t[x], t[y]} | 0 <= x < y < |t| ensures !lt(t[y], t[x]) {
      assert t[y] == s[l0 + y] && t[x] == s[l0 + x];
    }
  }

  /** table.sort of a table of any length: the whole table is permuted, and sorted for a strict
      weak order. */
  method Sort<T(!new)>(a: array<T>, lt: Less<T>) returns (ok: bool)
    modifies a
    ensures multiset(a[..]) == multiset(old(a[..]))
    ensures StrictWeakOrder(lt) ==> ok && Sorted(lt, a[..])
  {
    ghost var depth;
    ok, depth := AuxSort(a, 0, a.Length - 1, lt);
    assert a[0..a.Length] == a[..];
  }
}
