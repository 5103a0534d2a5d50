/** Tables (ltable.c): an array part for the keys 1..n and a chained scatter table for the others. */
module LuaTable {
  import opened LuaBasics
  import opened LuaResults
  import opened LuaTableChains
  import opened LuaTableCounts
  import opened LuaTableContents

  /** A pointer to a value inside a table; NoSlot is the nil object outside all tables. */
  datatype Slot = NoSlot | ArraySlot(i: nat) | NodeSlot(i: nat)

  /** `luaO_rawequalObj`. */
  predicate RawEqual(a: TValue, b: TValue) { a == b && a != NaN }

  /** The array part has the size the documentation promises: the largest power of two such that
      more than half of the slots 1..n are in use, or zero. */
  ghost predicate BestSize(arr: seq<TValue>, node: seq<Node>, ek: TValue, n: nat) {
    && (n == 0 || exists i: nat :: WorthWhile(arr, node, ek, i) && n == Pow2(i))
    && forall i: nat :: WorthWhile(arr, node, ek, i) ==> Pow2(i) <= n
  }

  ghost predicate WorthWhile(arr: seq<TValue>, node: seq<Node>, ek: TValue, i: nat) {
    i <= MAXBITS && 2 * CountKeys(arr, node, ek, 0, Pow2(i)) > Pow2(i)
  }

  /** Of the integers 1..size more than half are keys. */
  ghost predicate MoreThanHalf(arr: seq<TValue>, node: seq<Node>, ek: TValue, size: nat) {
    2 * |KeysUpTo(arr, node, ek, size)| > size
  }

  /** The same of the map that the table represents, and the key to be inserted: the size is the largest power of
      two such that more than half of the integers up to it are keys. */
  ghost predicate LargestHalfFull(arr: seq<TValue>, node: seq<Node>, ek: TValue, size: nat) {
    && (size == 0 || exists i: nat :: i <= 26 && size == Pow2(i) && MoreThanHalf(arr, node, ek, Pow2(i)))
    && forall i: nat :: i <= 26 && MoreThanHalf(arr, node, ek, Pow2(i)) ==> Pow2(i) <= size
  }

  lemma BestIsLargest(arr: seq<TValue>, node: seq<Node>, arr': seq<TValue>, node': seq<Node>, ek: TValue, n: nat)
    requires DistinctKeys(node) && Separate(arr, node) && IsExtra(arr, node, ek) && BestSize(arr, node, ek, n)
    requires forall k :: Content(arr', node', k) == Content(arr, node, k)
    ensures LargestHalfFull(arr', node', ek, n)
  {
    hide DistinctKeys, Separate, IsExtra, CountKeys, Content;
    forall i: nat ensures i <= 26 && MoreThanHalf(arr', node', ek, Pow2(i)) <==> WorthWhile(arr, node, ek, i) {
      CountKeysIs(arr, node, ek, Pow2(i));
      assert KeysUpTo(arr', node', ek, Pow2(i)) == KeysUpTo(arr, node, ek, Pow2(i));
    }
  }

  /** How many keys go to the hash part when the array part gets the given size. */
  ghost function Demand(arr: seq<TValue>, node: seq<Node>, size: nat): nat {
    CountArray(arr, Min(size, |arr|), |arr|) + CountOutside(node, 0, size)
  }

  lemma HalfUsedIsWorthWhile(arr: seq<TValue>, node: seq<Node>, ek: TValue, nums: seq<nat>, i: nat)
    requires SliceCounts(nums, arr, node, ek)
    ensures i <= MAXBITS ==> Sum(nums, i + 1) == CountKeys(arr, node, ek, 0, Pow2(i))
    ensures WorthWhile(arr, node, ek, i) <==> HalfUsed(nums, i)
  {
    if i <= MAXBITS {
      SumCounts(nums, arr, node, ek, i + 1);
    }
    hide CountKeys;
  }

  lemma ChosenIsBest(arr: seq<TValue>, node: seq<Node>, ek: TValue, nums: seq<nat>, n: nat, na: nat)
    requires SliceCounts(nums, arr, node, ek) && Optimal(nums, n, na)
    ensures BestSize(arr, node, ek, n) && na == CountKeys(arr, node, ek, 0, n) && n <= MAXASIZE
  {
    hide CountKeys, SliceCounts, WorthWhile;
    SlicesNumber(arr, node, ek, nums);
    forall i: nat ensures WorthWhile(arr, node, ek, i) <==> HalfUsed(nums, i) {
      HalfUsedIsWorthWhile(arr, node, ek, nums, i);
    }
    if n == 0 {
      NoKeys(arr, node, ek);
    } else {
      var i: nat :| HalfUsed(nums, i) && n == Pow2(i) && na == Sum(nums, i + 1);
      HalfUsedIsWorthWhile(arr, node, ek, nums, i);
      Pow2Grows(i, MAXBITS);
    }
  }

  lemma SlicesNumber(arr: seq<TValue>, node: seq<Node>, ek: TValue, nums: seq<nat>)
    requires SliceCounts(nums, arr, node, ek)
    ensures |nums| == MAXBITS + 1
  {
  }

  lemma NoKeys(arr: seq<TValue>, node: seq<Node>, ek: TValue)
    ensures CountKeys(arr, node, ek, 0, 0) == 0
  {
    CountIndicesSplits(node, 0, 0, 0, 0);
  }

  /** The counts satisfy what `computesizes` relies on. */
  lemma CountsAreBounded(arr: seq<TValue>, node: seq<Node>, ek: TValue, nums: seq<nat>)
    requires SliceCounts(nums, arr, node, ek) && DistinctKeys(node) && IsExtra(arr, node, ek)
    ensures forall i :: 0 <= i < |nums| ==> Sum(nums, i + 1) <= Pow2(i)
    ensures Sum(nums, |nums|) == CountKeys(arr, node, ek, 0, MAXASIZE)
  {
    forall i | 0 <= i < |nums| ensures Sum(nums, i + 1) <= Pow2(i) {
      SumCounts(nums, arr, node, ek, i + 1);
      CountKeysBound(arr, node, ek, Pow2(i));
    }
    SumCounts(nums, arr, node, ek, |nums|);
  }

  /** The hash part that `rehash` asks for holds all keys that stay out of the array part, and the
      new one if it does not go there either. */
  lemma DemandIsMet(arr: seq<TValue>, node: seq<Node>, ek: TValue, n: nat)
    ensures CountArray(arr, 0, |arr|) + CountUsed(node, 0) + 1 - CountKeys(arr, node, ek, 0, n)
         == Demand(arr, node, n) + 1 - One(IsIndex(ek, 0, n))
  {
    CountArraySplits(arr, 0, Min(n, |arr|), |arr|);
    CountOutsideGrows(node, 0, 0, n);
  }

  /** An array part that grows leaves room for an oversized hash part only if no key moves to it. */
  lemma OverflowMovesNothing(arr: seq<TValue>, node: seq<Node>, ek: TValue, n: nat)
    requires |node| <= MAXASIZE && |arr| < n
    requires Demand(arr, node, n) + 1 - One(IsIndex(ek, 0, n)) > MAXASIZE
    ensures forall i :: 0 <= i < |node| && node[i].val != Nil ==> !IsIndex(node[i].key, 0, n)
  {
    CountOutsideGrows(node, 0, 0, n);
    UsedBound(node, 0);
    assert CountIndices(node, 0, 0, n) == 0;
    forall i | 0 <= i < |node| && node[i].val != Nil ensures !IsIndex(node[i].key, 0, n) {
      NoIndices(node, 0, 0, n, i);
    }
  }

  lemma NewIsExtra(arr: seq<TValue>, node: seq<Node>, ek: TValue)
    requires Separate(arr, node) && !InArray(arr, ek) && forall i :: 0 <= i < |node| ==> node[i].key != ek
    ensures IsExtra(arr, node, ek)
  {
  }

  lemma SliceHolds(k: nat, j: nat)
    requires 1 <= k && j <= MAXBITS
    ensures CeilLog2(k) == j <==> SliceLow(j) < k <= Pow2(j)
    ensures k <= MAXASIZE ==> CeilLog2(k) <= MAXBITS
  {
    SliceOf(k, j);
    if k <= MAXASIZE && CeilLog2(k) > MAXBITS {
      Pow2Grows(MAXBITS, CeilLog2(k) - 1);
    }
  }

  /** `countint`. */
  method CountInt(key: TValue, nums: seq<nat>) returns (c: nat, nums': seq<nat>)
    requires |nums| == MAXBITS + 1
    ensures c == One(IsIndex(key, 0, MAXASIZE))
    ensures |nums'| == |nums|
    ensures forall j :: 0 <= j < |nums| ==> nums'[j] == nums[j] + One(IsIndex(key, SliceLow(j), Pow2(j)))
  {
    forall j: nat | j <= MAXBITS ensures Pow2(j) <= MAXASIZE {
      Pow2Grows(j, MAXBITS);
    }
    if key.Int? && 0 < key.i <= MAXASIZE {
      forall j: nat | j <= MAXBITS ensures (CeilLog2(key.i) == j <==> SliceLow(j) < key.i <= Pow2(j)) &&
        CeilLog2(key.i) <= MAXBITS {
        SliceHolds(key.i, j);
      }
      return 1, nums[CeilLog2(key.i) := nums[CeilLog2(key.i)] + 1];
    }
    return 0, nums;
  }

  class Table {
    const position: Position
    var arr: seq<TValue>
    var node: seq<Node>
    var isDummy: bool
    var lastFree: int
    ghost var line: seq<nat>

    ghost predicate Valid()
      reads this
    {
      Intact() && KeyedFrom(lastFree)
    }

    ghost predicate Intact()
      reads this
    {
      && GoodPosition(position)
      && Chained(node, line, position)
      && Separate(arr, node)
      && |arr| <= MAXASIZE
      && 0 < |node| <= MAXASIZE
      && (isDummy ==> node == DUMMY && lastFree <= 0)
      && (!isDummy ==> lastFree <= |node|)
    }

    /** All nodes from the given one on have a key. */
    ghost predicate KeyedFrom(from: int)
      reads this
    {
      !isDummy ==> forall i :: 0 <= i < |node| && i >= from ==> node[i].key != Nil
    }

    /** What the table holds at a key. */
    ghost function Lookup(key: TValue): TValue
      reads this
    {
      Content(arr, node, key)
    }

    /** The number of keys with a value. */
    ghost function Used(): nat
      reads this
    {
      CountArray(arr, 0, |arr|) + CountUsed(node, 0)
    }

    /** Another key fits in the hash part. */
    ghost predicate HasRoom()
      reads this
    {
      !isDummy && |line| < |node|
    }

    /** The slot of a key that the table holds, perhaps with the value nil. */
    ghost predicate IsSlotOf(s: Slot, key: TValue)
      reads this
    {
      match s
      case NoSlot => !InArray(arr, key) && (key == Nil || forall i :: 0 <= i < |node| ==> node[i].key != key)
      case ArraySlot(i) => key == Int(i + 1) && i < |arr|
      case NodeSlot(i) => i < |node| && node[i].key == key && key != Nil && !InArray(arr, key)
    }

    ghost function At(s: Slot): TValue
      reads this
    {
      match s
      case NoSlot => Nil
      case ArraySlot(i) => if i < |arr| then arr[i] else Nil
      case NodeSlot(i) => if i < |node| then node[i].val else Nil
    }

    /** Walks the chain from the main position of the key. */
    method SearchChain(key: TValue) returns (s: Slot)
      requires Valid() && key != Nil && !InArray(arr, key)
      ensures IsSlotOf(s, key) && !s.ArraySlot?
    {
      hide Chained, Separate, KeyedFrom;
      var n := position(key, |node|);
      if node[n].key == Nil {
        SearchBegins(node, line, position, n, key);
        return NoSlot;
      }
      ghost var p := KeyedIsListed(node, line, position, n);
      ghost var r := p;
      while true
        invariant p <= r < |line| && Run(node, line, p, r) && n == line[r] < |node|
        invariant forall x :: p <= x < r ==> line[x] < |node| && node[line[x]].key != key
        decreases |line| - r
      {
        ListedIsLinked(node, line, position, r);
        if RawEqual(node[n].key, key) {
          return NodeSlot(n);
        }
        if node[n].next == NULL {
          SearchEnds(node, line, position, key, p, r);
          return NoSlot;
        }
        n := node[n].next;
        r := r + 1;
      }
    }

    /** `luaH_get`, `luaH_getnum` and `luaH_getstr`. */
    method Get(key: TValue) returns (s: Slot)
      requires Valid()
      ensures IsSlotOf(s, key) && At(s) == Lookup(key)
    {
      if key == Nil {
        return NoSlot;
      }
      if key.Int? && 0 < key.i <= |arr| {
        return ArraySlot(key.i - 1);
      }
      s := SearchChain(key);
      if s.NodeSlot? {
        ContentAt(arr, node, s.i);
      }
    }

    /** `getfreepos`. */
    method GetFreePos() returns (n: int)
      requires Valid()
      modifies this`lastFree
      ensures n != NULL <==> old(HasRoom())
      ensures n == NULL ==> Valid()
      ensures n != NULL ==> Intact() && 0 <= n < |node| && node[n].key == Nil && lastFree == n && KeyedFrom(n + 1)
    {
      hide Chained, Separate, GoodPosition, Listed;
      ChainedIsListed(node, line, position);
      FullWhenAllKeyed(node, line);
      while lastFree > 0
        invariant Valid()
        decreases lastFree
      {
        lastFree := lastFree - 1;
        if node[lastFree].key == Nil {
          return lastFree;
        }
      }
      lastFree := lastFree - 1;
      return NULL;
    }

    /** `setobj2t` on a slot returned by a search. */
    method Store(s: Slot, v: TValue, ghost key: TValue)
      requires Valid() && IsSlotOf(s, key) && s != NoSlot
      modifies this`arr, this`node
      ensures Valid() && |arr| == |old(arr)| && |node| == |old(node)|
      ensures forall k :: Lookup(k) == if k == key then v else old(Lookup(k))
      ensures forall i :: 0 <= i < |node| ==> node[i].key == old(node[i].key)
    {
      if s.ArraySlot? {
        arr := arr[s.i := v];
      } else {
        ValueStored(arr, node, line, position, s.i, v);
        hide Chained, Separate, Content;
        node := node[s.i := node[s.i].(val := v)];
      }
    }

    /** The node before `mp` in its chain. */
    method Previous(othern: nat, mp: nat) returns (prev: nat, ghost a: nat)
      requires Intact() && mp < |node| && node[mp].key != Nil && othern == position(node[mp].key, |node|) != mp
      ensures prev < |node| && node[prev].next == mp && prev != mp && node[prev].key != Nil
      ensures 0 < a < |line| && line[a] == mp && line[a - 1] == prev
    {
      a := IndexIn(line, mp);
      assert HasHome(node, line, position, a);
      ghost var p: nat :| HomeAt(node, line, position, p, a);
      prev := othern;
      ghost var x := p;
      while node[prev].next != mp
        invariant p <= x < a && prev == line[x] < |node|
        decreases a - x
      {
        assert node[line[x]].next == line[x + 1];
        prev := node[prev].next;
        x := x + 1;
      }
      assert node[line[x]].next == line[x + 1];
      assert line[a - 1] in line;
    }

    /** A place for a key whose main position is taken: the colliding node leaves it if it is out of
        its own main position; otherwise the free node joins the chain. */
    method MakeRoom(key: TValue, mp: nat, n: nat) returns (at: nat)
      requires Intact() && key != Nil && key != NaN && IsSlotOf(NoSlot, key)
      requires mp < |node| && node[mp].key != Nil && mp == position(key, |node|)
      requires n < |node| && node[n].key == Nil
      modifies this`node, this`line
      ensures |node| == |old(node)| && at < |node| && (at == mp || at == n)
      ensures Inserted(arr, old(node), old(line), position, key, at, node[at := node[at].(key := key)], line)
      ensures node[n].key != Nil || at == n
    {
      hide Chained, Separate, Content, GoodPosition, Inserted;
      ghost var node0, line0 := node, line;
      PositionInside(position, node[mp].key, |node|);
      var othern := position(node[mp].key, |node|);
      if othern != mp {
        var prev, a := Previous(othern, mp);
        MoveColliding(prev, n, mp);
        line := line[a := n] + [mp];
        InsertByMove(arr, node0, line0, position, prev, mp, n, a, key, node);
        return mp;
      } else {
        ghost var a := KeyedIsListed(node, line, position, mp);
        ChainAfter(mp, n);
        line := line[..a + 1] + [n] + line[a + 1..];
        InsertInChain(arr, node0, line0, position, mp, n, a, key, node);
        return n;
      }
    }

    /** `newkey`: inserts a key that the table does not have. A table with room never rehashes. */
    method NewKey(key: TValue, ghost depth: nat) returns (r: Result<Slot>)
      requires Valid() && key != Nil && key != NaN && IsSlotOf(NoSlot, key)
      requires depth == 0 ==> HasRoom()
      modifies this
      ensures Valid() && forall k :: Lookup(k) == old(Lookup(k))
      ensures r.Success? ==> r.value != NoSlot && IsSlotOf(r.value, key)
      ensures depth == 0 ==> r.Success? && SameParts(old(arr), old(node), old(line), old(isDummy))
      ensures r.Failure? ==> r.error == "table overflow" && old(Used()) >= MAXASIZE
      decreases depth, 0
    {
      hide Chained, Separate, Content, GoodPosition;
      PositionInside(position, key, |node|);
      var mp := position(key, |node|);
      ghost var node0, line0 := node, line;
      ChainedIsListed(node, line, position);
      hide Listed;
      if node[mp].val != Nil || isDummy {
        var n := GetFreePos();
        if n == NULL {
          r := RehashAndSet(key);
          return;
        }
        mp := MakeRoom(key, mp, n);
      } else {
        line := if node[mp].key != Nil then line else line + [mp];
        InsertInPlace(arr, node0, line0, position, mp, key);
      }
      node := node[mp := node[mp].(key := key)];
      return Success(NodeSlot(mp));
    }

    /** There is no free node: the parts get new sizes, and the key goes where there is room now. */
    method RehashAndSet(key: TValue) returns (r: Result<Slot>)
      requires Valid() && key != Nil && key != NaN && IsSlotOf(NoSlot, key)
      modifies this
      ensures Valid() && forall k :: Lookup(k) == old(Lookup(k))
      ensures r.Success? ==> r.value != NoSlot && IsSlotOf(r.value, key)
      ensures r.Failure? ==> r.error == "table overflow" && old(Used()) >= MAXASIZE
      decreases 0, 6
    {
      hide Table.Valid, Content;
      var done := Rehash(key);
      if done.Failure? {
        return Failure(done.error);
      }
      r := HSet(key, 0);
    }

    /** The parts keep their sizes, and the hash part has at most one more key. */
    ghost predicate SameParts(arr0: seq<TValue>, node0: seq<Node>, line0: seq<nat>, dummy0: bool)
      reads this
    {
      arr == arr0 && |node| == |node0| && |line| <= |line0| + 1 && isDummy == dummy0
    }

    /** Moves the node at `mp` to the free node `n`, and frees `mp`. */
    method MoveColliding(prev: nat, n: nat, mp: nat)
      requires prev < |node| && n < |node| && mp < |node| && prev != mp && n != mp && prev != n
      modifies this`node
      ensures node == old(node)[prev := old(node)[prev].(next := n)][n := old(node)[mp]][mp := Node(old(node)[mp].key,
        Nil, NULL)]
    {
      node := node[prev := node[prev].(next := n)];
      node := node[n := node[mp]];
      node := node[mp := node[mp].(next := NULL)];
      node := node[mp := node[mp].(val := Nil)];
    }

    /** Chains the free node `n` after `mp`. */
    method ChainAfter(mp: nat, n: nat)
      requires n < |node| && mp < |node| && n != mp
      modifies this`node
      ensures node == old(node)[n := old(node)[n].(next := old(node)[mp].next)][mp := old(node)[mp].(next := n)]
    {
      node := node[n := node[n].(next := node[mp].next)];
      node := node[mp := node[mp].(next := n)];
    }

    /** `luaH_set` and its variants: the slot of a key, made if there is none. */
    method HSet(key: TValue, ghost depth: nat) returns (r: Result<Slot>)
      requires Valid()
      requires depth == 0 ==> key != Nil && key != NaN && (InArray(arr, key) || HasRoom())
      modifies this
      ensures Valid() && forall k :: Lookup(k) == old(Lookup(k))
      ensures r.Success? ==> r.value != NoSlot && IsSlotOf(r.value, key)
      ensures depth == 0 ==> r.Success? && SameParts(old(arr), old(node), old(line), old(isDummy))
      ensures depth == 0 && InArray(arr, key) ==> line == old(line)
      ensures !old(IsSlotOf(NoSlot, key)) ==> r.Success? && unchanged(this)
      ensures key == Nil <==> r == Failure("table index is nil")
      ensures key == NaN <==> r == Failure("table index is NaN")
      ensures r.Failure? && key != Nil && key != NaN ==> r.error == "table overflow" && old(Used()) >= MAXASIZE
      decreases depth, 1
    {
      var p := Get(key);
      if p != NoSlot {
        return Success(p);
      }
      if key == Nil {
        return Failure("table index is nil");
      } else if key == NaN {
        return Failure("table index is NaN");
      }
      r := NewKey(key, depth);
    }

    /** A key and its value go into a table that has room for them. */
    method Insert(key: TValue, v: TValue)
      requires Valid() && key != Nil && key != NaN && (InArray(arr, key) || HasRoom())
      modifies this
      ensures Valid() && |arr| == |old(arr)| && |node| == |old(node)| && isDummy == old(isDummy)
      ensures |line| <= |old(line)| + One(!InArray(arr, key))
      ensures forall k :: Lookup(k) == if k == key then v else old(Lookup(k))
      decreases 0, 2
    {
      var s := HSet(key, 0);
      hide Content, Valid;
      Store(s.value, v, key);
    }

    /** `setnodevector`. */
    method SetNodeVector(size: nat) returns (r: Result<()>)
      requires GoodPosition(position)
      modifies this`node, this`isDummy, this`lastFree, this`line
      ensures r.Success? <==> size <= MAXASIZE
      ensures r.Success? ==> Fresh(size) && (forall i :: 0 <= i < |node| ==> node[i] == EMPTY)
      ensures r.Failure? ==> r.error == "table overflow" && unchanged(this)
    {
      hide Pow2;
      if size == 0 {
        node, isDummy, lastFree, line := DUMMY, true, 0, [];
      } else {
        var lsize := CeilLog2(size);
        if lsize > MAXBITS {
          Pow2Grows(MAXBITS, lsize - 1);
          return Failure("table overflow");
        }
        Pow2Grows(lsize, MAXBITS);
        node := seq(Pow2(lsize), _ => EMPTY);
        isDummy, lastFree, line := false, |node|, [];
      }
      return Success(());
    }

    /** A new hash part for `size` keys. */
    ghost predicate Fresh(size: nat)
      reads this
    {
      line == [] && 0 < |node| <= MAXASIZE && lastFree <= |node| && (isDummy <==> size == 0) && size <= |node|
      && (isDummy ==> node == DUMMY && lastFree == 0) && (!isDummy ==> lastFree == |node|)
    }

    /** `resize`: new sizes for both parts. Nothing is lost, and no insertion needs another rehash. */
    method Resize(nasize: nat, nhsize: nat) returns (r: Result<()>)
      requires Valid() && nasize <= MAXASIZE && Demand(arr, node, nasize) <= nhsize
      requires nhsize > MAXASIZE && nasize > |arr| ==> forall i :: 0 <= i < |node| && node[i].val != Nil ==>
        !IsIndex(node[i].key, 0, nasize)
      modifies this
      ensures Valid() && forall k :: Lookup(k) == old(Lookup(k))
      ensures r.Success? ==> |arr| == nasize && (isDummy <==> nhsize == 0) && nhsize <= |node|
      ensures r.Success? ==> |line| <= Demand(old(arr), old(node), nasize)
      ensures r.Failure? ==> nhsize > MAXASIZE && r.error == "table overflow"
      decreases 0, 4
    {
      var oldasize, nold := |arr|, node;
      ghost var arr0 := arr;
      if nasize > oldasize {
        arr := arr + seq(nasize - oldasize, _ => Nil);
      }
      var done := SetNodeVector(nhsize);
      if done.Failure? {
        GrownContent(arr0, arr, nold);
        return done;
      }
      EmptyIsChained(arr, node, position);
      if nasize < oldasize {
        var vanishing := arr;
        arr := arr[..nasize];
        EmptyIsChained(arr, node, position);
        ReinsertSlice(vanishing, nasize, nhsize);
      }
      ReinsertNodes(arr0, nold, nasize, nhsize);
      return Success(());
    }

    /** Re-inserts the elements of the vanishing slice of the array. */
    method ReinsertSlice(vanishing: seq<TValue>, nasize: nat, ghost room: nat)
      requires Valid() && Fresh(room) && nasize < |vanishing| && arr == vanishing[..nasize]
      requires CountArray(vanishing, nasize, |vanishing|) <= room
      requires forall k :: Lookup(k) == Content(arr, [], k)
      modifies this
      ensures Valid() && |arr| == nasize && |node| == |old(node)| && isDummy == old(isDummy)
      ensures |line| <= CountArray(vanishing, nasize, |vanishing|)
      ensures forall k :: Lookup(k) == Content(vanishing, [], k)
      decreases 0, 3
    {
      hide CountArray;
      NothingCounted(vanishing, nasize);
      var i := nasize;
      while i < |vanishing|
        invariant nasize <= i <= |vanishing| && Valid() && |arr| == nasize && |node| == |old(node)| &&
          isDummy == old(isDummy)
        invariant |line| <= CountArray(vanishing, nasize, i)
        invariant forall k :: Lookup(k) == Content(vanishing[..i], [], k)
      {
        OneMoreOfArray(vanishing, i);
        OneMoreCounted(vanishing, nasize, i + 1);
        CountArraySplits(vanishing, nasize, i + 1, |vanishing|);
        if vanishing[i] != Nil {
          Insert(Int(i + 1), vanishing[i]);
        }
        i := i + 1;
      }
      assert vanishing[..i] == vanishing;
    }

    /** Re-inserts the elements of the old hash part. */
    method ReinsertNodes(ghost arr0: seq<TValue>, nold: seq<Node>, nasize: nat, ghost room: nat)
      requires Valid() && |arr| == nasize && room <= |node| && (isDummy <==> room == 0)
      requires DistinctKeys(nold) && Separate(arr0, nold) && (forall i :: 0 <= i < |nold| ==> nold[i].key != NaN)
      requires forall i :: 0 <= i < |nold| && nold[i].val != Nil ==> nold[i].key != Nil
      requires |line| <= CountArray(arr0, Min(nasize, |arr0|), |arr0|)
      requires Demand(arr0, nold, nasize) <= room
      requires forall k :: Lookup(k) == Content(arr0, [], k)
      modifies this
      ensures Valid() && |arr| == nasize && |node| == |old(node)| && isDummy == old(isDummy)
      ensures |line| <= Demand(arr0, nold, nasize)
      ensures forall k :: Lookup(k) == Content(arr0, nold, k)
      decreases 0, 3
    {
      var i := |nold|;
      while i > 0
        invariant 0 <= i <= |nold| && Valid() && |arr| == nasize && |node| == |old(node)| && isDummy == old(isDummy)
        invariant |line| <= CountArray(arr0, Min(nasize, |arr0|), |arr0|) + CountOutside(nold, i, nasize)
        invariant forall k :: Lookup(k) == Content(arr0, nold[i..], k)
      {
        i := i - 1;
        OneMoreNode(arr0, nold, i);
        CountOutsideGrows(nold, 0, i, nasize);
        if nold[i].val != Nil {
          Insert(nold[i].key, nold[i].val);
        }
      }
      assert nold[0..] == nold;
    }

    /** `luaH_resizearray`, which only ever makes the array grow. */
    method ResizeArray(nasize: nat) returns (r: Result<()>)
      requires Valid() && |arr| <= nasize <= MAXASIZE
      modifies this
      ensures Valid() && r.Success? && |arr| == nasize && forall k :: Lookup(k) == old(Lookup(k))
    {
      var nsize := if isDummy then 0 else |node|;
      CountOutsideGrows(node, 0, 0, nasize);
      r := Resize(nasize, nsize);
    }

    /** The elements of a slice that are not nil. */
    method CountSlice(from: nat, lim: nat) returns (lc: nat, i: nat)
      requires 1 <= from <= lim + 1 && lim <= |arr|
      ensures i == lim + 1 && lc == CountArray(arr, from - 1, lim)
    {
      hide CountArray;
      i, lc := from, 0;
      NothingCounted(arr, from - 1);
      while i <= lim
        invariant from <= i <= lim + 1 && lc == CountArray(arr, from - 1, i - 1)
      {
        OneMoreCounted(arr, from - 1, i);
        if arr[i - 1] != Nil {
          lc := lc + 1;
        }
        i := i + 1;
      }
    }

    /** `numusearray`. */
    method NumUseArray() returns (nums: seq<nat>, ause: nat)
      requires |arr| <= MAXASIZE
      ensures |nums| == MAXBITS + 1 && ause == CountArray(arr, 0, |arr|)
      ensures forall j :: 0 <= j < |nums| ==> ArraySlice(nums, j)
    {
      hide ArraySlice, CountArray, CountIndices, SliceStart, SliceLow;
      FirstSlice();
      nums, ause := seq(MAXBITS + 1, _ => 0), 0;
      var i, lg, ttlg := 1, 0, 1;
      NothingCounted(arr, 0);
      while lg <= MAXBITS
        invariant 0 <= lg <= MAXBITS + 1 && ttlg == Pow2(lg) && |nums| == MAXBITS + 1
        invariant 1 <= i <= |arr| + 1 && i == SliceStart(lg) && ause == CountArray(arr, 0, i - 1)
        invariant forall j :: 0 <= j < lg ==> ArraySlice(nums, j)
        invariant forall j :: lg <= j <= MAXBITS ==> nums[j] == 0
      {
        var lc, lim := 0, ttlg;
        if lim > |arr| {
          lim := |arr|;
          if i > lim {
            break;
          }
        }
        ghost var from, nums0 := i, nums;
        SliceBounds(lg, from, lim);
        lc, i := CountSlice(i, lim);
        CountArraySplits(arr, 0, from - 1, lim);
        nums := nums[lg := nums[lg] + lc];
        SliceCounted(nums0, nums, lg, from, lim);
        ause := ause + lc;
        lg := lg + 1;
        ttlg := ttlg * 2;
      }
      if lg <= MAXBITS {
        SlicesBeyond(arr, nums, lg);
      } else {
        LastSlice();
      }
    }

    /** Where the counting of a slice starts. */
    ghost function SliceStart(lg: nat): nat
      reads this
    {
      Min(SliceLow(lg), |arr|) + 1
    }

    lemma SliceBounds(lg: nat, from: nat, lim: nat)
      requires from == SliceStart(lg) && lim == Min(Pow2(lg), |arr|)
      ensures 1 <= from <= lim + 1 <= |arr| + 1 && SliceStart(lg + 1) == lim + 1
    {
      assert LowBelow(lg);
    }

    lemma SliceCounted(nums0: seq<nat>, nums: seq<nat>, lg: nat, from: nat, lim: nat)
      requires lg < |nums0| && from == SliceStart(lg) && lim == Min(Pow2(lg), |arr|) && from <= lim + 1
      requires nums0[lg] == 0 && nums == nums0[lg := CountArray(arr, from - 1, lim)]
      ensures ArraySlice(nums, lg) && forall j :: 0 <= j < lg && ArraySlice(nums0, j) ==> ArraySlice(nums, j)
    {
      assert LowBelow(lg);
    }

    lemma FirstSlice()
      ensures SliceStart(0) == 1
    {
    }

    lemma LastSlice()
      requires |arr| <= MAXASIZE
      ensures SliceStart(MAXBITS + 1) == |arr| + 1
    {
    }

    ghost predicate ArraySlice(nums: seq<nat>, j: nat)
      requires j < |nums|
      reads this
    {
      LowBelow(j) && nums[j] == CountArray(arr, Min(SliceLow(j), |arr|), Min(Pow2(j), |arr|))
    }

    lemma SlicesBeyond(a: seq<TValue>, nums: seq<nat>, lg: nat)
      requires |nums| == MAXBITS + 1 && a == arr
      requires SliceStart(lg) > |arr| && forall j :: lg <= j <= MAXBITS ==> nums[j] == 0
      ensures forall j :: lg <= j < |nums| ==> ArraySlice(nums, j)
    {
      forall j: nat | lg <= j < |nums| ensures ArraySlice(nums, j) {
        if 0 < lg {
          Pow2Grows(lg - 1, j - 1);
        }
        Pow2Grows(if j == 0 then 0 else j - 1, j);
      }
    }

    /** `numusehash`. */
    method NumUseHash(nums0: seq<nat>) returns (nums: seq<nat>, ause: nat, totaluse: nat)
      requires |nums0| == MAXBITS + 1
      ensures |nums| == MAXBITS + 1 && ause == CountIndices(node, 0, 0, MAXASIZE) && totaluse == CountUsed(node, 0)
      ensures forall j :: 0 <= j < |nums| ==> nums[j] == nums0[j] + CountIndices(node, 0, SliceLow(j), Pow2(j))
    {
      nums, ause, totaluse := nums0, 0, 0;
      var i := |node|;
      while i > 0
        invariant 0 <= i <= |node| && |nums| == MAXBITS + 1
        invariant ause == CountIndices(node, i, 0, MAXASIZE) && totaluse == CountUsed(node, i)
        invariant forall j :: 0 <= j < |nums| ==> nums[j] == nums0[j] + CountIndices(node, i, SliceLow(j), Pow2(j))
      {
        i := i - 1;
        if node[i].val != Nil {
          var c;
          c, nums := CountInt(node[i].key, nums);
          ause := ause + c;
          totaluse := totaluse + 1;
        }
      }
    }

    /** `rehash`: chooses the best sizes for the keys of the table and the new one. */
    method Rehash(ek: TValue) returns (r: Result<()>)
      requires Valid() && IsSlotOf(NoSlot, ek) && ek != Nil
      modifies this
      ensures Valid() && forall k :: Lookup(k) == old(Lookup(k))
      ensures r.Success? ==> InArray(arr, ek) || HasRoom()
      ensures r.Success? ==> BestSize(old(arr), old(node), ek, |arr|) && LargestHalfFull(arr, node, ek, |arr|)
      ensures r.Failure? ==> r.error == "table overflow" && old(Used()) >= MAXASIZE
      decreases 0, 5
    {
      hide Chained, Separate, Content, KeyedFrom, SliceCounts, CountKeys, Demand, BestSize, IsExtra, Optimal,
        GoodPosition, LargestHalfFull, DistinctKeys;
      ghost var arr0, node0 := arr, node;
      PartsAreApart(ek);
      var nums, nasize := NumUseArray();
      var totaluse := nasize;
      var hashuse, used;
      ghost var nums0 := nums;
      nums, hashuse, used := NumUseHash(nums);
      nasize := nasize + hashuse;
      totaluse := totaluse + used;
      var c;
      c, nums := CountInt(ek, nums);
      nasize := nasize + c;
      totaluse := totaluse + 1;
      assert totaluse == Used() + 1;
      CountedAll(nums0, nums, ek);
      hide ArraySlice, CountIndices;
      CountsAreRight(nums, ek, nasize);
      var n, na := ComputeSizes(nums, nasize);
      ChosenIsBest(arr, node, ek, nums, n, na);
      DemandIsMet(arr, node, ek, n);
      hide CountArray, CountUsed;
      if |arr| < n && totaluse - na > MAXASIZE {
        OverflowMovesNothing(arr, node, ek, n);
      }
      r := Resize(n, totaluse - na);
      forall k ensures Content(arr, node, k) == Content(arr0, node0, k) {
        assert Lookup(k) == old(Lookup(k));
      }
      BestIsLargest(arr0, node0, arr, node, ek, n);
    }

    lemma PartsAreApart(ek: TValue)
      requires Valid() && IsSlotOf(NoSlot, ek) && ek != Nil
      ensures DistinctKeys(node) && Separate(arr, node) && IsExtra(arr, node, ek)
    {
      hide Chained;
      ChainedIsListed(node, line, position);
      NewIsExtra(arr, node, ek);
    }

    lemma CountsAreRight(nums: seq<nat>, ek: TValue, nasize: nat)
      requires Valid() && IsSlotOf(NoSlot, ek) && ek != Nil && SliceCounts(nums, arr, node, ek)
      requires nasize == CountArray(arr, 0, |arr|) + CountIndices(node, 0, 0, MAXASIZE) + One(IsIndex(ek, 0, MAXASIZE))
      ensures |nums| == MAXBITS + 1 && nasize == Sum(nums, |nums|)
      ensures forall i :: 0 <= i < |nums| ==> Sum(nums, i + 1) <= Pow2(i)
    {
      hide Chained, CountArray, CountIndices, Sum, Pow2;
      ChainedIsListed(node, line, position);
      NewIsExtra(arr, node, ek);
      CountsAreBounded(arr, node, ek, nums);
    }

    lemma CountedAll(nums0: seq<nat>, nums: seq<nat>, ek: TValue)
      requires |nums0| == MAXBITS + 1 == |nums| && forall j :: 0 <= j < |nums| ==> ArraySlice(nums0, j)
      requires forall j :: 0 <= j < |nums| ==>
        nums[j] == nums0[j] + CountIndices(node, 0, SliceLow(j), Pow2(j)) + One(IsIndex(ek, SliceLow(j), Pow2(j)))
      ensures SliceCounts(nums, arr, node, ek)
    {
      forall j | 0 <= j < |nums| ensures LowBelow(j) && nums[j] == CountKeys(arr, node, ek, SliceLow(j), Pow2(j)) {
        assert ArraySlice(nums0, j);
      }
    }

    constructor Init(pos: Position, narray: nat)
      requires GoodPosition(pos) && narray <= MAXASIZE
      ensures position == pos && arr == seq(narray, _ => Nil)
    {
      position, arr := pos, seq(narray, _ => Nil);
      node, isDummy, lastFree, line := DUMMY, true, 0, [];
    }

    /** `luaH_new`. */
    static method New(pos: Position, narray: nat, nhash: nat) returns (r: Result<Table>)
      requires GoodPosition(pos) && narray <= MAXASIZE
      ensures r.Success? <==> nhash <= MAXASIZE
      ensures r.Success? ==> fresh(r.value) && r.value.Valid() && forall k :: r.value.Lookup(k) == Nil
      ensures r.Failure? ==> r.error == "table overflow"
    {
      var t := new Table.Init(pos, narray);
      var done := t.SetNodeVector(nhash);
      if done.Failure? {
        return Failure(done.error);
      }
      EmptyIsChained(t.arr, t.node, pos);
      return Success(t);
    }

    /** A table refines a finite map: assignment through `luaH_set` changes one key, whatever moves. */
    method Set(key: TValue, v: TValue) returns (r: Result<()>)
      requires Valid()
      modifies this
      ensures Valid()
      ensures forall k :: Lookup(k) == if r.Success? && k == key then v else old(Lookup(k))
      ensures key == Nil <==> r == Failure("table index is nil")
      ensures key == NaN <==> r == Failure("table index is NaN")
      ensures r.Failure? && key != Nil && key != NaN ==> r.error == "table overflow" && old(Used()) >= MAXASIZE
      ensures !old(IsSlotOf(NoSlot, key)) ==> r.Success? && SameFields(old(Snapshot(arr, node)), Snapshot(arr, node))
      ensures Used() == old(Used()) + if r.Success? then One(v != Nil) - One(old(Lookup(key)) != Nil) else 0
    {
      hide Valid, Used, CountArray, CountUsed, Content, Intact, KeyedFrom;
      ghost var t0 := Snapshot(arr, node);
      IsWellKeyed();
      UsedIs();
      var s := HSet(key, 1);
      if s.Failure? {
        IsWellKeyed();
        UsedIs();
        forall k ensures Content(arr, node, k) == Content(t0.arr, t0.node, k) {
          assert Lookup(k) == old(Lookup(k));
        }
        OneKeyMoreOrLess(t0, Snapshot(arr, node), key, Content(t0.arr, t0.node, key));
        return Failure(s.error);
      }
      Store(s.value, v, key);
      IsWellKeyed();
      UsedIs();
      forall k ensures Content(arr, node, k) == if k == key then v else Content(t0.arr, t0.node, k) {
        assert Lookup(k) == if k == key then v else old(Lookup(k));
      }
      OneKeyMoreOrLess(t0, Snapshot(arr, node), key, v);
      return Success(());
    }

    lemma IsWellKeyed()
      requires Valid()
      ensures WellKeyed(Snapshot(arr, node))
    {
      ChainedIsListed(node, line, position);
      hide Chained;
    }

    lemma UsedIs()
      ensures Used() == UsedKeys(Snapshot(arr, node))
    {
    }

    // ---- traversal

    /** The position of a key in a traversal; nil is before the first. */
    ghost function PositionOf(key: TValue): int
      reads this
    {
      if key == Nil then -1
      else if InArray(arr, key) then key.i - 1
      else |arr| + IndexOf(node, key)
    }

    /** `findindex`. */
    method FindIndex(key: TValue) returns (r: Result<int>)
      requires Valid()
      ensures r.Success? ==> r.value == PositionOf(key) >= -1
      ensures r.Failure? <==> key != Nil && IsSlotOf(NoSlot, key)
      ensures r.Failure? ==> r.error == "invalid key to 'next'"
    {
      if key == Nil {
        return Success(-1);
      }
      if key.Int? && 0 < key.i <= |arr| {
        return Success(key.i - 1);
      }
      var s := SearchChain(key);
      if s == NoSlot {
        return Failure("invalid key to 'next'");
      }
      OnlyIndex(node, line, position, s.i);
      return Success(s.i + |arr|);
    }

    /** `luaH_next`: the next key of a traversal and its value. */
    method Next(key: TValue) returns (r: Result<Option<(TValue, TValue)>>)
      requires Valid()
      ensures r.Failure? <==> key != Nil && IsSlotOf(NoSlot, key)
      ensures r == Success(None) ==> IsNext(arr, node, PositionOf(key), None)
      ensures r.Success? && r.value.Some? ==>
        var k := r.value.value.0;
        && k != Nil && PositionOf(k) >= 0 && IsNext(arr, node, PositionOf(key), Some(PositionOf(k)))
        && r.value.value.1 == Lookup(k) != Nil
    {
      hide Chained, Separate, Content;
      assert forall k :: InArray(arr, k) ==> Lookup(k) == arr[k.i - 1] by {
        ArrayContent(arr, node);
      }
      var i :- FindIndex(key);
      ghost var i0 := i;
      i := i + 1;
      while i < |arr|
        invariant i0 < i && forall x :: i0 < x < i ==> !LiveAt(arr, node, x)
        decreases |arr| - i
      {
        if arr[i] != Nil {
          return Success(Some((Int(i + 1), arr[i])));
        }
        i := i + 1;
      }
      i := i - |arr|;
      while i < |node|
        invariant i0 < i + |arr| && 0 <= i && forall x :: i0 < x < i + |arr| ==> !LiveAt(arr, node, x)
        decreases |node| - i
      {
        if node[i].val != Nil {
          LiveNode(arr, node, line, position, i);
          return Success(Some((node[i].key, node[i].val)));
        }
        i := i + 1;
      }
      return Success(None);
    }

    // ---- length

    /** A border of the table: its last index in some run of indices from 1. */
    ghost predicate Boundary(n: nat)
      reads this
    {
      (n == 0 || Lookup(Int(n)) != Nil) && Lookup(Int(n + 1)) == Nil
    }

    method GetNum(i: int) returns (v: TValue)
      requires Valid()
      ensures v == Lookup(Int(i))
    {
      var s := Get(Int(i));
      match s
      case NoSlot => v := Nil;
      case ArraySlot(x) => v := arr[x];
      case NodeSlot(x) => v := node[x].val;
    }

    /** `unbound_search`. */
    method UnboundSearch(start: nat) returns (n: nat)
      requires Valid() && start <= MAXASIZE && (start == 0 || Lookup(Int(start)) != Nil)
      ensures Boundary(n) && n <= MAX_INT
    {
      SizesFit();
      var i, j := start, start + 1;
      var v := GetNum(j);
      while v != Nil
        invariant 0 <= i < j <= MAX_INT && (i == 0 || Lookup(Int(i)) != Nil) && v == Lookup(Int(j))
        decreases MAX_INT - j
      {
        i := j;
        j := j * 2;
        if j > MAX_INT {
          n := LinearSearch();
          return;
        }
        v := GetNum(j);
      }
      while j - i > 1
        invariant 0 <= i < j <= MAX_INT && (i == 0 || Lookup(Int(i)) != Nil) && Lookup(Int(j)) == Nil
      {
        var m := (i + j) / 2;
        var vm := GetNum(m);
        if vm == Nil { j := m; } else { i := m; }
      }
      return i;
    }

    /** The search through a table built with bad purposes. */
    method LinearSearch() returns (n: nat)
      requires Valid()
      ensures Boundary(n) && n <= |arr| + |node|
    {
      ChainedIsListed(node, line, position);
      var i := 1;
      var v := GetNum(i);
      while v != Nil
        invariant 1 <= i <= |arr| + |node| + 1 && v == Lookup(Int(i))
        invariant forall x :: 1 <= x < i ==> Lookup(Int(x)) != Nil
        decreases |arr| + |node| - i
      {
        RunOfIndices(arr, node, i);
        i := i + 1;
        v := GetNum(i);
      }
      return i - 1;
    }

    /** `luaH_getn`. */
    method Getn() returns (n: nat)
      requires Valid()
      ensures Boundary(n)
    {
      var j := |arr|;
      if j > 0 && arr[j - 1] == Nil {
        var i := 0;
        while j - i > 1
          invariant 0 <= i < j <= |arr| && (i == 0 || arr[i - 1] != Nil) && arr[j - 1] == Nil
        {
          var m := (i + j) / 2;
          if arr[m - 1] == Nil { j := m; } else { i := m; }
        }
        return i;
      } else if isDummy {
        return j;
      }
      n := UnboundSearch(j);
    }
  }

  lemma SizesFit()
    ensures MAXASIZE == 0x400_0000
  {
    assert Pow2(4) == 0x10;
    assert Pow2(8) == 0x100;
    assert Pow2(12) == 0x1000;
    assert Pow2(16) == 0x1_0000;
    assert Pow2(20) == 0x10_0000;
    assert Pow2(24) == 0x100_0000;
  }

  lemma ArrayContent(arr: seq<TValue>, node: seq<Node>)
    ensures forall k :: InArray(arr, k) ==> Content(arr, node, k) == arr[k.i - 1]
  {
  }

  lemma LiveNode(arr: seq<TValue>, node: seq<Node>, line: seq<nat>, pos: Position, i: nat)
    requires Chained(node, line, pos) && Separate(arr, node) && i < |node| && node[i].val != Nil
    ensures node[i].key != Nil && IndexOf(node, node[i].key) == i && !InArray(arr, node[i].key)
    ensures Content(arr, node, node[i].key) == node[i].val
  {
    OnlyIndex(node, line, pos, i);
    hide Chained;
    ContentAt(arr, node, i);
  }

  lemma OnlyIndex(node: seq<Node>, line: seq<nat>, pos: Position, i: nat)
    requires Chained(node, line, pos) && i < |node|
    ensures node[i].key != Nil ==> IndexOf(node, node[i].key) == i
    ensures node[i].val != Nil ==> node[i].key != Nil
    ensures DistinctKeys(node)
  {
    var j := IndexOf(node, node[i].key);
    assert i == j || i < j || j < i;
  }

  /** An array part that grows over keys without values changes no value. */
  lemma GrownContent(arr: seq<TValue>, arr': seq<TValue>, node: seq<Node>)
    requires |arr| <= |arr'| && arr'[..|arr|] == arr && (forall i :: |arr| <= i < |arr'| ==> arr'[i] == Nil)
    requires Separate(arr', node)
    ensures forall k :: Content(arr', node, k) == Content(arr, node, k)
  {
    assert forall i :: 0 <= i < |arr| ==> arr'[i] == arr'[..|arr|][i];
  }
}
