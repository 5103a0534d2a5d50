/** `table.sort` (ltablib.c, `auxsort`): quicksort in place. */
module LuaSort {
  import opened LuaBasics

  /** The order function: a strict weak order. */
  ghost predicate StrictWeakOrder<T(!new)>(lt: (T, T) -> bool) {
    && (forall x, y :: lt(x, y) ==> !lt(y, x))
    && (forall x, y, z :: !lt(x, y) && !lt(y, z) ==> !lt(x, z))
  }

  /** `x` may stand before `y`. */
  predicate NotAfter<T(!new)>(lt: (T, T) -> bool, x: T, y: T) { !lt(y, x) }

  /** Any two elements from `l` to `u` are in order, except if both are between `from` and `to`. */
  ghost predicate OrderedBut<T(!new)>(lt: (T, T) -> bool, s: seq<T>, l: nat, u: int, from: nat, to: int)
    requires u < |s|
  {
    forall p, q :: l <= p < q <= u && !(from <= p && q <= to) ==> NotAfter(lt, s[p], s[q])
  }

  ghost predicate Ordered<T(!new)>(lt: (T, T) -> bool, s: seq<T>, l: nat, u: int)
    requires u < |s|
  {
    forall p, q :: l <= p < q <= u ==> NotAfter(lt, s[p], s[q])
  }

  /** The elements from `l` to `u` have been rearranged, and nothing else. */
  ghost predicate Rearranged<T>(s: seq<T>, s': seq<T>, l: nat, u: int)
    requires l - 1 <= u < |s|
  {
    && |s'| == |s| && s'[..l] == s[..l] && s'[u + 1..] == s[u + 1..]
    && multiset(s'[l..u + 1]) == multiset(s[l..u + 1])
  }

  lemma SameRearranges<T>(s: seq<T>, l: nat, u: int)
    requires l - 1 <= u < |s|
    ensures Rearranged(s, s, l, u)
  {
  }

  lemma RearrangedTwice<T>(s: seq<T>, s': seq<T>, s'': seq<T>, l: nat, u: int)
    requires l - 1 <= u < |s| && Rearranged(s, s', l, u) && Rearranged(s', s'', l, u)
    ensures Rearranged(s, s'', l, u)
  {
  }

  lemma RearrangedMore<T>(s: seq<T>, s': seq<T>, l: nat, u: int, l': nat, u': int)
    requires l' <= l && l - 1 <= u <= u' < |s| && Rearranged(s, s', l, u)
    ensures Rearranged(s, s', l', u')
  {
    assert s[l'..u' + 1] == s[l'..l] + s[l..u + 1] + s[u + 1..u' + 1];
    assert s'[l'..u' + 1] == s'[l'..l] + s'[l..u + 1] + s'[u + 1..u' + 1];
    assert s'[l'..l] == s'[..l][l'..] && s[l'..l] == s[..l][l'..];
    assert s'[u + 1..u' + 1] == s'[u + 1..][..u' - u] && s[u + 1..u' + 1] == s[u + 1..][..u' - u];
    assert s'[..l'] == s'[..l][..l'] && s[..l'] == s[..l][..l'];
    assert s'[u' + 1..] == s'[u + 1..][u' - u..] && s[u' + 1..] == s[u + 1..][u' - u..];
  }

  lemma SwapRearranges<T>(s: seq<T>, i: nat, j: nat, l: nat, u: nat)
    requires l <= i <= u < |s| && l <= j <= u
    ensures Rearranged(s, s[i := s[j]][j := s[i]], l, u)
  {
    var s' := s[i := s[j]][j := s[i]];
    var a, b := s[l..u + 1], s'[l..u + 1];
    assert b == a[i - l := a[j - l]][j - l := a[i - l]];
  }

  /** What holds of all elements holds of them when they have been rearranged. */
  lemma StillAll<T>(s: seq<T>, s': seq<T>, l: nat, u: int, k: nat) returns (m: nat)
    requires l - 1 <= u < |s| && Rearranged(s, s', l, u) && l <= k <= u
    ensures l <= m <= u && s'[k] == s[m]
  {
    assert s'[l..u + 1][k - l] == s'[k];
    assert s'[k] in multiset(s'[l..u + 1]);
    assert s'[k] in s[l..u + 1];
    m :| l <= m <= u && s'[k] == s[m];
  }

  lemma StillOrderedBut<T(!new)>(lt: (T, T) -> bool, s: seq<T>, s': seq<T>, l: nat, u: int, from: nat, to: int)
    requires l <= from && from - 1 <= to <= u < |s| && Rearranged(s, s', from, to) && OrderedBut(lt, s, l, u, from, to)
    ensures OrderedBut(lt, s', l, u, from, to)
  {
    forall p, q | l <= p < q <= u && !(from <= p && q <= to) ensures NotAfter(lt, s'[p], s'[q]) {
      var p', q' := p, q;
      if from <= p <= to {
        p' := StillAll(s, s', from, to, p);
      } else {
        SameOutside(s, s', from, to, p);
      }
      if from <= q <= to {
        q' := StillAll(s, s', from, to, q);
      } else {
        SameOutside(s, s', from, to, q);
      }
      assert NotAfter(lt, s[p'], s[q']);
    }
  }

  lemma SameOutside<T>(s: seq<T>, s': seq<T>, l: nat, u: int, k: nat)
    requires l - 1 <= u < |s| && Rearranged(s, s', l, u) && k < |s| && !(l <= k <= u)
    ensures s'[k] == s[k]
  {
    if k < l {
      assert s'[..l][k] == s[..l][k];
    } else {
      assert s'[u + 1..][k - (u + 1)] == s[u + 1..][k - (u + 1)];
    }
  }

  method Swap<T>(a: array<T>, i: nat, j: nat, ghost l: nat, ghost u: nat)
    requires l <= i <= u < a.Length && l <= j <= u
    modifies a
    ensures a[..] == old(a[..])[i := old(a[j])][j := old(a[i])]
    ensures Rearranged(old(a[..]), a[..], l, u)
  {
    SwapRearranges(a[..], i, j, l, u);
    a[i], a[j] := a[j], a[i];
    assert a[..] == old(a[..])[i := old(a[j])][j := old(a[i])];
  }

  /** Sorts the first, the middle and the last element. */
  method SortThree<T(!new)>(a: array<T>, lt: (T, T) -> bool, l: nat, u: nat)
    requires 1 <= l < u < a.Length && StrictWeakOrder(lt)
    modifies a
    ensures Rearranged(old(a[..]), a[..], l, u)
    ensures var m := (l + u) / 2; NotAfter(lt, a[l], a[m]) && NotAfter(lt, a[m], a[u]) && NotAfter(lt, a[l], a[u])
  {
    hide Rearranged, StrictWeakOrder;
    ghost var s, x, z := a[..], a[l], a[u];
    var i := (l + u) / 2;
    SameRearranges(s, l, u);
    InOrder(lt, z, x, x);
    if lt(a[u], a[l]) {
      Swap(a, l, u, l, u);
    }
    if u - l == 1 {
      InOrder(lt, a[l], a[l], a[l]);
      return;
    }
    ghost var s1, x1, y1, z1 := a[..], a[l], a[i], a[u];
    SameRearranges(s1, l, u);
    InOrder(lt, y1, x1, z1);
    InOrder(lt, z1, y1, y1);
    if lt(a[i], a[l]) {
      Swap(a, i, l, l, u);
    } else if lt(a[u], a[i]) {
      Swap(a, i, u, l, u);
    }
    RearrangedTwice(s, s1, a[..], l, u);
  }

  lemma InOrder<T(!new)>(lt: (T, T) -> bool, x: T, y: T, z: T)
    requires StrictWeakOrder(lt)
    ensures lt(x, y) ==> NotAfter(lt, x, y)
    ensures NotAfter(lt, x, y) && NotAfter(lt, y, z) ==> NotAfter(lt, x, z)
  {
  }

  ghost predicate UpTo<T(!new)>(lt: (T, T) -> bool, s: seq<T>, l: nat, i: int, p: T)
    requires i < |s|
  {
    forall k :: l <= k <= i ==> NotAfter(lt, s[k], p)
  }

  ghost predicate From<T(!new)>(lt: (T, T) -> bool, s: seq<T>, j: nat, u: int, p: T)
    requires u < |s|
  {
    forall k :: j <= k <= u ==> NotAfter(lt, p, s[k])
  }

  /** Repeats `++i` until `a[i]` is not less than the pivot `p`, which stops it at `u - 1` if not before:
      the error for an invalid order function is not raised. */
  method ScanUp<T(!new)>(a: array<T>, lt: (T, T) -> bool, start: nat, p: T, ghost l: nat, u: nat) returns (i: nat)
    requires StrictWeakOrder(lt) && l <= start < u - 1 < a.Length && a[u - 1] == p && UpTo(lt, a[..], l, start, p)
    ensures start < i <= u - 1 && UpTo(lt, a[..], l, i - 1, p) && NotAfter(lt, p, a[i])
  {
    i := start + 1;
    while lt(a[i], p)
      invariant start < i <= u - 1 && UpTo(lt, a[..], l, i - 1, p)
      decreases u - i
    {
      if i > u {
        assert false;  // "invalid order function for sorting"
      }
      i := i + 1;
    }
  }

  /** Repeats `--j` until the pivot is not less than `a[j]`, which stops it at `l` if not before. */
  method ScanDown<T(!new)>(a: array<T>, lt: (T, T) -> bool, start: nat, p: T, l: nat, ghost u: nat) returns (j: nat)
    requires StrictWeakOrder(lt) && l < start <= u < a.Length && UpTo(lt, a[..], l, l, p) &&
      From(lt, a[..], start, u, p)
    ensures l <= j < start && From(lt, a[..], j + 1, u, p) && NotAfter(lt, a[j], p)
  {
    j := start - 1;
    while lt(p, a[j])
      invariant l <= j < start && From(lt, a[..], j + 1, u, p)
      decreases j
    {
      if j < l {
        assert false;  // "invalid order function for sorting"
      }
      j := j - 1;
    }
  }

  /** The pivot `p` is at `u - 1`, and the elements up to `i` and from `j` are on their sides. */
  ghost predicate Split<T(!new)>(lt: (T, T) -> bool, s: seq<T>, l: nat, i: int, j: int, u: nat, p: T) {
    l < u < |s| && i < |s| && j >= 0 && s[u - 1] == p && UpTo(lt, s, l, i, p) && From(lt, s, j, u, p)
  }

  /** One round of the partition: looks for two elements on the wrong sides, and swaps them. */
  method Round<T(!new)>(a: array<T>, lt: (T, T) -> bool, i: nat, j: nat, p: T, l: nat, u: nat)
      returns (i': nat, j': nat)
    requires StrictWeakOrder(lt) && l <= i <= j <= u - 1 && i < u - 1 && l < j && u < a.Length &&
      Split(lt, a[..], l, i, j, u, p)
    modifies a
    ensures i < i' <= u - 1 && l <= j' < j && Rearranged(old(a[..]), a[..], l, u)
    ensures if j' < i' then Split(lt, a[..], l, i' - 1, j' + 1, u, p) else Split(lt, a[..], l, i', j', u, p)
  {
    hide StrictWeakOrder, UpTo, From, NotAfter, Rearranged;
    ghost var s := a[..];
    i' := ScanUp(a, lt, i, p, l, u);
    FirstOf(lt, s, l, i, p);
    j' := ScanDown(a, lt, j, p, l, u);
    if j' >= i' {
      Swap(a, i', j', l, u);
      BothInPlace(lt, s, a[..], l, i', j', u, p);
    } else {
      SameRearranges(s, l, u);
    }
  }

  /** Puts the pivot, which is at `u - 1`, to its place: what is before it is not greater, and what is
      after it is not less. */
  method Partition<T(!new)>(a: array<T>, lt: (T, T) -> bool, l: nat, u: nat) returns (i: nat)
    requires 1 <= l && l + 2 < u < a.Length && StrictWeakOrder(lt)
    requires NotAfter(lt, a[l], a[u - 1]) && NotAfter(lt, a[u - 1], a[u])
    modifies a
    ensures l < i < u && Rearranged(old(a[..]), a[..], l, u)
    ensures UpTo(lt, a[..], l, i - 1, a[i]) && From(lt, a[..], i + 1, u, a[i])
  {
    hide Rearranged, StrictWeakOrder, UpTo, From, NotAfter;
    ghost var s := a[..];
    var p, j := a[u - 1], u - 1;
    i := l;
    SameOrder(lt, a[..], l, u);
    SameRearranges(s, l, u);
    while i <= j
      invariant l <= i && j <= u - 1 && Rearranged(s, a[..], l, u)
      invariant i <= j ==> i < u - 1 && l < j && Split(lt, a[..], l, i, j, u, p)
      invariant i > j ==> l < i <= u - 1 && Split(lt, a[..], l, i - 1, j + 1, u, p)
      decreases j - i + 1
    {
      ghost var s1 := a[..];
      i, j := Round(a, lt, i, j, p, l, u);
      RearrangedTwice(s, s1, a[..], l, u);
    }
    ghost var s1 := a[..];
    Swap(a, u - 1, i, l, u);
    RearrangedTwice(s, s1, a[..], l, u);
    PivotInPlace(lt, s1, a[..], l, i, j, u, p);
  }

  lemma BothInPlace<T(!new)>(lt: (T, T) -> bool, s: seq<T>, s': seq<T>, l: nat, i: nat, j: nat, u: nat, p: T)
    requires l < i <= j < u - 1 && u < |s| && s' == s[i := s[j]][j := s[i]]
    requires UpTo(lt, s, l, i - 1, p) && From(lt, s, j + 1, u, p) && NotAfter(lt, p, s[i]) && NotAfter(lt, s[j], p)
    ensures UpTo(lt, s', l, i, p) && From(lt, s', j, u, p) && s'[u - 1] == s[u - 1]
  {
  }

  lemma PivotInPlace<T(!new)>(lt: (T, T) -> bool, s: seq<T>, s': seq<T>, l: nat, i: nat, j: nat, u: nat, p: T)
    requires j < i <= u - 1 && l < i && u < |s| && s' == s[u - 1 := s[i]][i := s[u - 1]] && s[u - 1] == p
    requires UpTo(lt, s, l, i - 1, p) && From(lt, s, j + 1, u, p)
    ensures s'[i] == p && UpTo(lt, s', l, i - 1, p) && From(lt, s', i + 1, u, p)
  {
  }

  lemma FirstOf<T(!new)>(lt: (T, T) -> bool, s: seq<T>, l: nat, i: nat, p: T)
    requires l <= i < |s| && UpTo(lt, s, l, i, p)
    ensures UpTo(lt, s, l, l, p)
  {
  }

  lemma SameOrder<T(!new)>(lt: (T, T) -> bool, s: seq<T>, l: nat, u: nat)
    requires StrictWeakOrder(lt) && 1 <= l < u < |s|
    requires NotAfter(lt, s[l], s[u - 1]) && NotAfter(lt, s[u - 1], s[u])
    ensures Split(lt, s, l, l, u - 1, u, s[u - 1])
  {
    assert NotAfter(lt, s[u - 1], s[u - 1]);
  }

  /** With the pivot in its place and one side in order, the other side is left. */
  lemma Placed<T(!new)>(lt: (T, T) -> bool, s: seq<T>, l0: nat, u0: int, l: nat, i: nat, u: nat, from: nat, to: int)
    requires StrictWeakOrder(lt) && l0 <= l <= i <= u <= u0 < |s| && OrderedBut(lt, s, l0, u0, l, u)
    requires UpTo(lt, s, l, i - 1, s[i]) && From(lt, s, i + 1, u, s[i])
    requires (from == i + 1 && to == u && Ordered(lt, s, l, i - 1)) ||
      (from == l && to == i - 1 && Ordered(lt, s, i + 1, u))
    ensures OrderedBut(lt, s, l0, u0, from, to)
  {
    forall p, q | l0 <= p < q <= u0 && !(from <= p && q <= to) ensures NotAfter(lt, s[p], s[q]) {
      if l <= p && q <= u && p <= i <= q {
        assert p < i ==> NotAfter(lt, s[p], s[i]);
        assert i < q ==> NotAfter(lt, s[i], s[q]);
      }
    }
  }

  lemma StillPartitioned<T(!new)>(lt: (T, T) -> bool, s: seq<T>, s': seq<T>, l: nat, i: nat, u: nat, from: nat, to: int)
    requires l <= i <= u < |s| && UpTo(lt, s, l, i - 1, s[i]) && From(lt, s, i + 1, u, s[i])
    requires l <= from && from - 1 <= to <= u && (to < i || i < from) && Rearranged(s, s', from, to)
    ensures UpTo(lt, s', l, i - 1, s'[i]) && From(lt, s', i + 1, u, s'[i])
  {
    SameOutside(s, s', from, to, i);
    forall k | l <= k <= u ensures k < i ==> NotAfter(lt, s'[k], s'[i])
      ensures k > i ==> NotAfter(lt, s'[i], s'[k])
    {
      if from <= k <= to {
        var m := StillAll(s, s', from, to, k);
      } else {
        SameOutside(s, s', from, to, k);
      }
    }
  }

  /** Sorts three elements, or more roughly: with the pivot in its place. */
  method Divide<T(!new)>(a: array<T>, lt: (T, T) -> bool, l: nat, u: nat) returns (done: bool, i: nat)
    requires 1 <= l < u < a.Length && StrictWeakOrder(lt)
    modifies a
    ensures Rearranged(old(a[..]), a[..], l, u) && done == (u - l <= 2)
    ensures done ==> Ordered(lt, a[..], l, u)
    ensures !done ==> l < i < u && UpTo(lt, a[..], l, i - 1, a[i]) && From(lt, a[..], i + 1, u, a[i])
  {
    hide Rearranged;
    ghost var s := a[..];
    SortThree(a, lt, l, u);
    if u - l <= 2 {
      return true, l;
    }
    ghost var s1 := a[..];
    Swap(a, (l + u) / 2, u - 1, l, u);
    RearrangedTwice(s, s1, a[..], l, u);
    ghost var s2 := a[..];
    i := Partition(a, lt, l, u);
    RearrangedTwice(s, s2, a[..], l, u);
    return false, i;
  }

  /** `auxsort`. The smaller part is sorted by a recursive call: `depth` nested calls are enough for
      less than 2 to the power `depth` elements. */
  method AuxSort<T(!new)>(a: array<T>, lt: (T, T) -> bool, first: nat, last: int, ghost depth: nat)
    requires 1 <= first && first - 1 <= last < a.Length && StrictWeakOrder(lt) && last - first + 1 < Pow2(depth)
    modifies a
    ensures Ordered(lt, a[..], first, last) && Rearranged(old(a[..]), a[..], first, last)
    decreases depth
  {
    hide Rearranged, OrderedBut, Ordered, StrictWeakOrder, UpTo, From;
    ghost var s := a[..];
    var l, u := first, last;
    NothingDone(lt, s, first, last);
    while l < u
      invariant first <= l && l - 1 <= u <= last && u - l + 1 < Pow2(depth)
      invariant Rearranged(s, a[..], first, last) && OrderedBut(lt, a[..], first, last, l, u)
      decreases u - l
    {
      ghost var s1 := a[..];
      var done, i := Divide(a, lt, l, u);
      Progress(lt, s, s1, a[..], first, last, l, u);
      if done {
        AllDone(lt, a[..], first, last, l, u);
        return;
      }
      ghost var s2 := a[..];
      if i - l < u - i {
        AuxSort(a, lt, l, i - 1, depth - 1);
        Halved(lt, s, s2, a[..], first, last, l, i, u, l, i - 1);
        Placed(lt, a[..], first, last, l, i, u, i + 1, u);
        l := i + 1;
      } else {
        AuxSort(a, lt, i + 1, u, depth - 1);
        Halved(lt, s, s2, a[..], first, last, l, i, u, i + 1, u);
        Placed(lt, a[..], first, last, l, i, u, l, i - 1);
        u := i - 1;
      }
    }
    NothingToDo(lt, a[..], first, last, l, u);
  }

  lemma NothingDone<T(!new)>(lt: (T, T) -> bool, s: seq<T>, first: nat, last: int)
    requires first - 1 <= last < |s|
    ensures Rearranged(s, s, first, last) && OrderedBut(lt, s, first, last, first, last)
  {
  }

  lemma NothingToDo<T(!new)>(lt: (T, T) -> bool, s: seq<T>, first: nat, last: int, l: nat, u: int)
    requires last < |s| && l >= u && OrderedBut(lt, s, first, last, l, u)
    ensures Ordered(lt, s, first, last)
  {
  }

  lemma AllDone<T(!new)>(lt: (T, T) -> bool, s: seq<T>, first: nat, last: int, l: nat, u: int)
    requires last < |s| && u <= last && OrderedBut(lt, s, first, last, l, u) && Ordered(lt, s, l, u)
    ensures Ordered(lt, s, first, last)
  {
  }

  lemma Halved<T(!new)>(lt: (T, T) -> bool, s: seq<T>, s1: seq<T>, s2: seq<T>, first: nat, last: int, l: nat, i: nat,
      u: int, from: nat, to: int)
    requires first <= l <= i <= u <= last < |s| && Rearranged(s, s1, first, last) &&
      OrderedBut(lt, s1, first, last, l, u)
    requires UpTo(lt, s1, l, i - 1, s1[i]) && From(lt, s1, i + 1, u, s1[i])
    requires l <= from && from - 1 <= to <= u && (to < i || i < from) && Rearranged(s1, s2, from, to)
    ensures Rearranged(s, s2, first, last) && OrderedBut(lt, s2, first, last, l, u)
    ensures UpTo(lt, s2, l, i - 1, s2[i]) && From(lt, s2, i + 1, u, s2[i])
  {
    hide OrderedBut, UpTo, From;
    RearrangedMore(s1, s2, from, to, l, u);
    StillPartitioned(lt, s1, s2, l, i, u, from, to);
    Progress(lt, s, s1, s2, first, last, l, u);
  }

  lemma Progress<T(!new)>(lt: (T, T) -> bool, s: seq<T>, s1: seq<T>, s2: seq<T>, first: nat, last: int, l: nat, u: int)
    requires first <= l && l - 1 <= u <= last < |s| && Rearranged(s, s1, first, last) && Rearranged(s1, s2, l, u)
    requires OrderedBut(lt, s1, first, last, l, u)
    ensures Rearranged(s, s2, first, last) && OrderedBut(lt, s2, first, last, l, u)
  {
    hide OrderedBut;
    RearrangedMore(s1, s2, l, u, first, last);
    RearrangedTwice(s, s1, s2, first, last);
    StillOrderedBut(lt, s1, s2, first, last, l, u);
  }

  /** `table.sort`: the elements at 1 to `n`. */
  method Sort<T(!new)>(a: array<T>, lt: (T, T) -> bool)
    requires a.Length > 0 && StrictWeakOrder(lt)
    modifies a
    ensures Ordered(lt, a[..], 1, a.Length - 1)
    ensures multiset(a[1..]) == multiset(old(a[1..]))
  {
    ghost var depth := Depth(a.Length);
    AuxSort(a, lt, 1, a.Length - 1, depth);
    assert a[..][1..a.Length] == a[1..] && old(a[..])[1..a.Length] == old(a[1..]);
  }

  lemma Depth(n: nat) returns (depth: nat)
    ensures n < Pow2(depth) && (n > 0 ==> Pow2(depth) <= 2 * n)
  {
    depth := 0;
    while Pow2(depth) <= n
      invariant n > 0 ==> Pow2(depth) <= 2 * n
      decreases n - Pow2(depth)
    {
      depth := depth + 1;
    }
  }
}
