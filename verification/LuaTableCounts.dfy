/** Counting the keys of a table, to choose the sizes of its two parts (`numusearray`, `numusehash`,
    `countint`, `computesizes`). */
module LuaTableCounts {
  import opened LuaBasics
  import opened LuaTableChains

  const MAXBITS: nat := 26

  lemma {:induction false} Pow2Grows(m: nat, n: nat)
    requires m <= n
    ensures Pow2(m) <= Pow2(n) && (m < n ==> 2 * Pow2(m) <= Pow2(n)) && n < Pow2(n)
    decreases n
  {
    if m < n {
      Pow2Grows(m, n - 1);
    } else if n > 0 {
      Pow2Grows(n - 1, n - 1);
    }
  }

  /** `ceillog2`: the least n with x <= 2^n. */
  function CeilLog2(x: nat): (n: nat)
    requires x >= 1
    ensures x <= Pow2(n) && (n > 0 ==> Pow2(n - 1) < x)
  {
    if x == 1 then 0 else CeilLog2((x + 1) / 2) + 1
  }

  /** Slice `j` of the positive integers: those above the bound of the slices before, up to 2^j. */
  function SliceLow(j: nat): nat {
    if j == 0 then 0 else Pow2(j - 1)
  }

  lemma SliceOf(k: nat, j: nat)
    requires k >= 1
    ensures CeilLog2(k) == j <==> SliceLow(j) < k <= Pow2(j)
  {
    var n := CeilLog2(k);
    if n < j {
      Pow2Grows(n, j - 1);
    } else if j < n {
      Pow2Grows(j, n - 1);
    }
  }

  /** Values other than nil among `arr[lo..hi]`. */
  function CountArray(arr: seq<TValue>, lo: nat, hi: nat): (c: nat)
    requires lo <= hi <= |arr|
    ensures c <= hi - lo
    decreases hi
  {
    if lo == hi then 0 else CountArray(arr, lo, hi - 1) + if arr[hi - 1] == Nil then 0 else 1
  }

  lemma NothingCounted(arr: seq<TValue>, lo: nat)
    requires lo <= |arr|
    ensures CountArray(arr, lo, lo) == 0
  {
  }

  lemma OneMoreCounted(arr: seq<TValue>, lo: nat, i: nat)
    requires lo < i <= |arr|
    ensures CountArray(arr, lo, i) == CountArray(arr, lo, i - 1) + One(arr[i - 1] != Nil)
  {
  }

  lemma {:induction false} CountArraySplits(arr: seq<TValue>, lo: nat, mid: nat, hi: nat)
    requires lo <= mid <= hi <= |arr|
    ensures CountArray(arr, lo, hi) == CountArray(arr, lo, mid) + CountArray(arr, mid, hi)
    decreases hi
  {
    if mid < hi {
      CountArraySplits(arr, lo, mid, hi - 1);
    }
  }

  predicate IsIndex(key: TValue, lo: nat, hi: nat) {
    key.Int? && lo < key.i <= hi
  }

  function One(b: bool): nat { if b then 1 else 0 }

  /** Nodes from `from` on with a value other than nil and an integer key in (lo, hi]. */
  function CountIndices(node: seq<Node>, from: nat, lo: nat, hi: nat): nat
    requires from <= |node|
    decreases |node| - from
  {
    if from == |node| then 0
    else CountIndices(node, from + 1, lo, hi) + One(node[from].val != Nil && IsIndex(node[from].key, lo, hi))
  }

  /** Nodes from `from` on with a value other than nil. */
  function CountUsed(node: seq<Node>, from: nat): nat
    requires from <= |node|
    decreases |node| - from
  {
    if from == |node| then 0 else CountUsed(node, from + 1) + One(node[from].val != Nil)
  }

  lemma {:induction false} CountIndicesSplits(node: seq<Node>, from: nat, lo: nat, mid: nat, hi: nat)
    requires from <= |node| && lo <= mid <= hi
    ensures CountIndices(node, from, lo, hi) == CountIndices(node, from, lo, mid) + CountIndices(node, from, mid, hi)
    ensures CountIndices(node, from, lo, lo) == 0
    ensures CountIndices(node, from, lo, hi) <= CountUsed(node, from)
    decreases |node| - from
  {
    if from < |node| {
      CountIndicesSplits(node, from + 1, lo, mid, hi);
    }
  }

  /** Nodes from `from` on that do not go to an array part of the given size. */
  function CountOutside(node: seq<Node>, from: nat, size: nat): nat
    requires from <= |node|
    decreases |node| - from
  {
    if from == |node| then 0
    else CountOutside(node, from + 1, size) + One(node[from].val != Nil && !IsIndex(node[from].key, 0, size))
  }

  lemma {:induction false} CountOutsideGrows(node: seq<Node>, from: nat, i: nat, size: nat)
    requires from <= i <= |node|
    ensures CountOutside(node, i, size) <= CountOutside(node, from, size)
    ensures CountOutside(node, from, size) == CountUsed(node, from) - CountIndices(node, from, 0, size) <= |node| - from
    decreases |node| - from
  {
    if from < i {
      CountOutsideGrows(node, from + 1, i, size);
    } else if from < |node| {
      CountOutsideGrows(node, from + 1, from + 1, size);
    }
  }

  lemma {:induction false} NoIndices(node: seq<Node>, from: nat, lo: nat, hi: nat, i: nat)
    requires from <= i < |node| && CountIndices(node, from, lo, hi) == 0 && node[i].val != Nil
    ensures !IsIndex(node[i].key, lo, hi)
    decreases |node| - from
  {
    if from < i {
      NoIndices(node, from + 1, lo, hi, i);
    }
  }

  function Min(a: nat, b: nat): nat { if a <= b then a else b }

  /** Keys in (lo, hi] of the array, of the hash part, and the extra key. */
  function CountKeys(arr: seq<TValue>, node: seq<Node>, ek: TValue, lo: nat, hi: nat): nat
    requires lo <= hi
  {
    CountArray(arr, Min(lo, |arr|), Min(hi, |arr|)) + CountIndices(node, 0, lo, hi) + One(IsIndex(ek, lo, hi))
  }

  lemma CountKeysSplits(arr: seq<TValue>, node: seq<Node>, ek: TValue, lo: nat, mid: nat, hi: nat)
    requires lo <= mid <= hi
    ensures CountKeys(arr, node, ek, lo, hi) == CountKeys(arr, node, ek, lo, mid) + CountKeys(arr, node, ek, mid, hi)
  {
    CountArraySplits(arr, Min(lo, |arr|), Min(mid, |arr|), Min(hi, |arr|));
    CountIndicesSplits(node, 0, lo, mid, hi);
  }

  /** Sum of the first `n` slice counts. */
  function Sum(nums: seq<nat>, n: nat): nat
    requires n <= |nums|
  {
    if n == 0 then 0 else Sum(nums, n - 1) + nums[n - 1]
  }

  /** The slice counts of a table and an extra key. */
  ghost predicate SliceCounts(nums: seq<nat>, arr: seq<TValue>, node: seq<Node>, ek: TValue) {
    |nums| == MAXBITS + 1 && forall j :: 0 <= j < |nums| ==>
      LowBelow(j) && nums[j] == CountKeys(arr, node, ek, SliceLow(j), Pow2(j))
  }

  /** For well-definedness: the bounds of a slice are in order. */
  predicate LowBelow(j: nat)
    ensures LowBelow(j) && SliceLow(j) <= Pow2(j)
  {
    true
  }

  lemma {:induction false} SumCounts(nums: seq<nat>, arr: seq<TValue>, node: seq<Node>, ek: TValue, n: nat)
    requires SliceCounts(nums, arr, node, ek) && 1 <= n <= |nums|
    ensures Sum(nums, n) == CountKeys(arr, node, ek, 0, Pow2(n - 1))
  {
    if n == 1 {
      assert nums[0] == CountKeys(arr, node, ek, SliceLow(0), Pow2(0));
      assert Sum(nums, 1) == Sum(nums, 0) + nums[0];
    } else {
      SumCounts(nums, arr, node, ek, n - 1);
      assert nums[n - 1] == CountKeys(arr, node, ek, SliceLow(n - 1), Pow2(n - 1));
      CountKeysSplits(arr, node, ek, 0, Pow2(n - 2), Pow2(n - 1));
    }
  }

  // ---- keys are distinct

  ghost predicate DistinctKeys(node: seq<Node>) {
    forall i, j :: 0 <= i < j < |node| && node[i].key == node[j].key ==> node[i].key == Nil
  }

  ghost function IndexSet(node: seq<Node>, from: nat, lo: nat, hi: nat): set<int>
    requires from <= |node|
  {
    set i | from <= i < |node| && node[i].val != Nil && IsIndex(node[i].key, lo, hi) :: node[i].key.i
  }

  lemma {:induction false} IndexSetSize(node: seq<Node>, from: nat, lo: nat, hi: nat)
    requires DistinctKeys(node) && from <= |node|
    ensures |IndexSet(node, from, lo, hi)| == CountIndices(node, from, lo, hi)
    decreases |node| - from
  {
    if from < |node| {
      IndexSetSize(node, from + 1, lo, hi);
      var rest := IndexSet(node, from + 1, lo, hi);
      if node[from].val != Nil && IsIndex(node[from].key, lo, hi) {
        assert forall j :: from < j < |node| && node[j].key.Int? ==> node[j].key.i != node[from].key.i;
        assert node[from].key.i !in rest;
        assert IndexSet(node, from, lo, hi) == rest + {node[from].key.i};
      } else {
        assert IndexSet(node, from, lo, hi) == rest;
      }
    }
  }

  lemma {:induction false} IntervalSize(lo: nat, hi: nat, s: set<int>)
    requires lo <= hi && forall x :: x in s ==> lo < x <= hi
    ensures |s| <= hi - lo
    decreases hi - lo
  {
    if lo == hi {
      assert forall x :: x !in s;
    } else if hi in s {
      IntervalSize(lo, hi - 1, s - {hi});
    } else {
      IntervalSize(lo, hi - 1, s);
    }
  }

  /** An extra key that is in neither part. */
  ghost predicate IsExtra(arr: seq<TValue>, node: seq<Node>, ek: TValue) {
    && !IsIndex(ek, 0, |arr|)
    && forall i :: 0 <= i < |node| && node[i].val != Nil ==> node[i].key != ek && !IsIndex(node[i].key, 0, |arr|)
  }

  /** No more keys than integers. */
  lemma CountKeysBound(arr: seq<TValue>, node: seq<Node>, ek: TValue, hi: nat)
    requires DistinctKeys(node) && IsExtra(arr, node, ek)
    ensures CountKeys(arr, node, ek, 0, hi) <= hi
  {
    var m := Min(hi, |arr|);
    CountIndicesSplits(node, 0, 0, m, hi);
    IndexSetSize(node, 0, 0, m);
    assert IndexSet(node, 0, 0, m) == {};
    IndexSetSize(node, 0, m, hi);
    var s := IndexSet(node, 0, m, hi);
    if IsIndex(ek, 0, hi) {
      assert ek.i !in s;
      IntervalSize(m, hi, s + {ek.i});
    } else {
      IntervalSize(m, hi, s);
    }
  }

  /** The sizes chosen: `n` is 0 or a power of two with more than half of the slots 1..n in use, the
      largest there is, and `na` is how many are. */
  ghost predicate Optimal(nums: seq<nat>, n: nat, na: nat) {
    && ((n == 0 && na == 0) || exists i: nat :: HalfUsed(nums, i) && n == Pow2(i) && na == Sum(nums, i + 1))
    && forall i: nat :: HalfUsed(nums, i) ==> Pow2(i) <= n
  }

  /** More than half of the slots 1..2^i are in use. */
  ghost predicate HalfUsed(nums: seq<nat>, i: nat) {
    i < |nums| && Sum(nums, i + 1) > Pow2(i) / 2
  }

  lemma {:induction false} SumGrows(nums: seq<nat>, m: nat, n: nat)
    requires m <= n <= |nums|
    ensures Sum(nums, m) <= Sum(nums, n)
  {
    if m < n {
      SumGrows(nums, m, n - 1);
    }
  }

  ghost predicate Best(nums: seq<nat>, best: int, n: nat, na: nat) {
    if best < 0 then n == 0 && na == 0
    else best < |nums| && HalfUsed(nums, best) && n == Pow2(best) && na == Sum(nums, best + 1)
  }

  method ComputeSizes(nums: seq<nat>, narray: nat) returns (n: nat, na: nat)
    requires |nums| == MAXBITS + 1 && narray == Sum(nums, |nums|)
    requires forall i :: 0 <= i < |nums| ==> Sum(nums, i + 1) <= Pow2(i)
    ensures Optimal(nums, n, na)
    ensures n / 2 <= na <= n && na <= narray
  {
    hide HalfUsed;
    var i, twotoi, a := 0, 1, 0;
    n, na := 0, 0;
    ghost var best := -1;
    while twotoi / 2 < narray
      invariant 0 <= i <= |nums| && twotoi == Pow2(i) && a == Sum(nums, i) && a <= narray
      invariant -1 <= best < i && Best(nums, best, n, na)
      invariant forall j: nat :: best < j < i ==> !HalfUsed(nums, j)
      invariant i > 0 ==> a < narray
      decreases |nums| - i
    {
      StillInside(nums, i, narray);
      SumGrows(nums, i + 1, |nums|);
      NextSlice(nums, i, a);
      if nums[i] > 0 {
        a := a + nums[i];
        if a > twotoi / 2 {
          n := twotoi;
          na := a;
          best := i;
        }
      }
      i := i + 1;
      if a == narray {
        break;
      }
      twotoi := twotoi * 2;
    }
    NoneLater(nums, i, narray);
    ChosenIsOptimal(nums, best, i, n, na, narray);
  }

  lemma StillInside(nums: seq<nat>, i: nat, narray: nat)
    requires |nums| == MAXBITS + 1 && i <= |nums| && narray == Sum(nums, |nums|) && Pow2(i) / 2 < narray
    requires forall i :: 0 <= i < |nums| ==> Sum(nums, i + 1) <= Pow2(i)
    ensures i < |nums|
  {
    assert Sum(nums, MAXBITS + 1) <= Pow2(MAXBITS);
  }

  /** An empty slice makes no larger size worth while. */
  lemma NextSlice(nums: seq<nat>, i: nat, a: nat)
    requires i < |nums| && a == Sum(nums, i)
    requires forall i :: 0 <= i < |nums| ==> Sum(nums, i + 1) <= Pow2(i)
    ensures Sum(nums, i + 1) == a + nums[i]
    ensures HalfUsed(nums, i) <==> nums[i] > 0 && a + nums[i] > Pow2(i) / 2
  {
    if nums[i] == 0 && i > 0 {
      assert Sum(nums, i - 1 + 1) <= Pow2(i - 1);
    }
  }

  /** Beyond the point where the search stops, no power of two is half used. */
  lemma NoneLater(nums: seq<nat>, i: nat, narray: nat)
    requires |nums| == MAXBITS + 1 && i <= |nums| && narray == Sum(nums, |nums|)
    requires forall i :: 0 <= i < |nums| ==> Sum(nums, i + 1) <= Pow2(i)
    requires Pow2(i) / 2 >= narray || (i > 0 && Sum(nums, i) == narray)
    ensures forall j: nat :: i <= j ==> !HalfUsed(nums, j)
  {
    assert narray <= Pow2(i) / 2 by {
      if i > 0 && Sum(nums, i) == narray {
        assert Sum(nums, i - 1 + 1) <= Pow2(i - 1);
      }
    }
    forall j: nat | i <= j < |nums| ensures Sum(nums, j + 1) <= Pow2(j) / 2 {
      Pow2Grows(i, j);
      SumGrows(nums, j + 1, |nums|);
    }
  }

  lemma ChosenIsOptimal(nums: seq<nat>, best: int, i: nat, n: nat, na: nat, narray: nat)
    requires |nums| == MAXBITS + 1 && -1 <= best < i && Best(nums, best, n, na) && narray == Sum(nums, |nums|)
    requires forall i :: 0 <= i < |nums| ==> Sum(nums, i + 1) <= Pow2(i)
    requires forall j: nat :: best < j ==> !HalfUsed(nums, j)
    ensures Optimal(nums, n, na) && n / 2 <= na <= n && na <= narray
  {
    forall j: nat | HalfUsed(nums, j) ensures Pow2(j) <= n {
      Pow2Grows(j, best);
    }
    if best >= 0 {
      SumGrows(nums, best + 1, |nums|);
      assert Sum(nums, best + 1) <= Pow2(best);
    }
  }
}
