/** What a table represents, and what inserting a key does to it (ltable.c). */
module LuaTableContents {
  import opened LuaBasics
  import opened LuaResults
  import opened LuaTableChains
  import opened LuaTableCounts

  const MAXASIZE: nat := Pow2(MAXBITS)

  predicate InArray(arr: seq<TValue>, key: TValue) { IsIndex(key, 0, |arr|) }

  /** The node that has the key, or NULL. */
  ghost function IndexOf(node: seq<Node>, key: TValue): (i: int)
    ensures -1 <= i < |node|
    ensures i >= 0 ==> node[i].key == key && key != Nil
    ensures i < 0 ==> key == Nil || forall j :: 0 <= j < |node| ==> node[j].key != key
  {
    if key != Nil && exists i :: 0 <= i < |node| && node[i].key == key then
      var i :| 0 <= i < |node| && node[i].key == key; i
    else NULL
  }

  /** The map that a table represents: nil for every key it does not hold. */
  ghost function Content(arr: seq<TValue>, node: seq<Node>, key: TValue): TValue {
    if InArray(arr, key) then arr[key.i - 1]
    else if IndexOf(node, key) >= 0 then node[IndexOf(node, key)].val
    else Nil
  }

  /** What the hash part holds does not belong in the array part. */
  ghost predicate Separate(arr: seq<TValue>, node: seq<Node>) {
    forall i :: 0 <= i < |node| && node[i].val != Nil ==> !InArray(arr, node[i].key)
  }

  const EMPTY: Node := Node(Nil, Nil, NULL)
  const DUMMY: seq<Node> := [EMPTY]

  lemma ContentAt(arr: seq<TValue>, node: seq<Node>, i: nat)
    requires DistinctKeys(node) && i < |node| && node[i].key != Nil && !InArray(arr, node[i].key)
    ensures Content(arr, node, node[i].key) == node[i].val
  {
    var j := IndexOf(node, node[i].key);
    assert i == j || i < j || j < i;
  }

  ghost predicate HasEntry(node: seq<Node>, key: TValue, val: TValue) {
    exists i :: 0 <= i < |node| && node[i].key == key && node[i].val == val
  }

  ghost predicate KeepsEntries(node: seq<Node>, node': seq<Node>) {
    forall i :: 0 <= i < |node| && node[i].val != Nil ==> HasEntry(node', node[i].key, node[i].val)
  }

  /** Hash parts with the same entries represent the same map. */
  lemma SameEntriesSameContent(arr: seq<TValue>, node: seq<Node>, node': seq<Node>)
    requires DistinctKeys(node) && DistinctKeys(node') && KeepsEntries(node, node') && KeepsEntries(node', node)
    ensures forall key :: Content(arr, node, key) == Content(arr, node', key)
  {
    forall key | !InArray(arr, key) ensures Content(arr, node, key) == Content(arr, node', key) {
      var i, j := IndexOf(node, key), IndexOf(node', key);
      if i >= 0 && node[i].val != Nil {
        assert HasEntry(node', key, node[i].val);
        var j' :| 0 <= j' < |node'| && node'[j'].key == key && node'[j'].val == node[i].val;
        ContentAt(arr, node', j');
      } else if j >= 0 && node'[j].val != Nil {
        assert HasEntry(node, key, node'[j].val);
        var i' :| 0 <= i' < |node| && node[i'].key == key && node[i'].val == node'[j].val;
        ContentAt(arr, node, i');
      }
    }
  }

  /** What `newkey` does, in all its cases: `key` is at node `at`, with no value yet. */
  ghost predicate Inserted(arr: seq<TValue>, node: seq<Node>, line: seq<nat>, pos: Position, key: TValue, at: nat,
      node': seq<Node>, line': seq<nat>) {
    && Chained(node', line', pos) && |node'| == |node| && |line| <= |line'| <= |line| + 1
    && at < |node| && node'[at].key == key && node'[at].val == Nil
    && (forall i :: 0 <= i < |node| && node[i].key != Nil ==> node'[i].key != Nil)
    && Separate(arr, node')
    && forall k :: Content(arr, node', k) == Content(arr, node, k)
  }

  lemma InsertedInPlace(arr: seq<TValue>, node: seq<Node>, line: seq<nat>, pos: Position, m: nat, key: TValue,
      node': seq<Node>, line': seq<nat>)
    requires Chained(node, line, pos) && Separate(arr, node) && Reused(node, line, m, key, node', line') &&
      pos(key, |node|) == m
    ensures Inserted(arr, node, line, pos, key, m, node', line')
  {
    ReusedIsChained(node, line, pos, m, key, node', line');
    hide Chained;
    ReusedIsListed(node, line, m, key, node', line') by {
      ChainedIsListed(node, line, pos);
    }
    assert Listed(node, line) by {
      ChainedIsListed(node, line, pos);
    }
    hide Listed;
    ReusedEntries(node, line, m, key, node', line');
    SameEntriesSameContent(arr, node, node');
  }

  lemma ReusedEntries(node: seq<Node>, line: seq<nat>, m: nat, key: TValue, node': seq<Node>, line': seq<nat>)
    requires Reused(node, line, m, key, node', line')
    ensures forall i :: 0 <= i < |node| && node[i].val != Nil ==> HasEntry(node', node[i].key, node[i].val)
    ensures forall i :: 0 <= i < |node'| && node'[i].val != Nil ==> HasEntry(node, node'[i].key, node'[i].val)
  {
    forall i | 0 <= i < |node| && node[i].val != Nil ensures HasEntry(node', node[i].key, node[i].val) {
      assert node'[i] == node[i];
    }
    forall i | 0 <= i < |node'| && node'[i].val != Nil ensures HasEntry(node, node'[i].key, node'[i].val) {
      assert node'[i] == node[i];
    }
  }

  lemma ChainedIsListed(node: seq<Node>, line: seq<nat>, pos: Position)
    requires Chained(node, line, pos)
    ensures Listed(node, line) && DistinctKeys(node)
  {
  }

  // ---- how many of the integers 1..n are keys

  /** The integers from 1 to `n` that have a value, and the key that is to be inserted. */
  ghost function KeysUpTo(arr: seq<TValue>, node: seq<Node>, ek: TValue, n: nat): set<int> {
    set k: int | 1 <= k <= n && (Content(arr, node, Int(k)) != Nil || ek == Int(k))
  }

  ghost function ArrayKeys(arr: seq<TValue>, m: nat): set<int>
    requires m <= |arr|
  {
    set i | 0 <= i < m && arr[i] != Nil :: i + 1
  }

  lemma {:induction false} ArrayKeysSize(arr: seq<TValue>, m: nat)
    requires m <= |arr|
    ensures |ArrayKeys(arr, m)| == CountArray(arr, 0, m)
  {
    if m > 0 {
      ArrayKeysSize(arr, m - 1);
      var rest := ArrayKeys(arr, m - 1);
      assert m !in rest;
      assert ArrayKeys(arr, m) == if arr[m - 1] == Nil then rest else rest + {m as int};
    }
  }

  lemma InArrayKeys(arr: seq<TValue>, m: nat, k: int)
    requires m <= |arr|
    ensures k in ArrayKeys(arr, m) <==> 1 <= k <= m && arr[k - 1] != Nil
  {
    if 1 <= k <= m && arr[k - 1] != Nil {
      var i := k - 1;
      assert arr[i] != Nil && i + 1 == k;
    }
  }

  ghost function ExtraKey(ek: TValue, n: nat): set<int> { if IsIndex(ek, 0, n) then {ek.i} else {} }

  /** Each such key is in one of the two parts, or is the key to be inserted. */
  lemma KeyIsSomewhere(arr: seq<TValue>, node: seq<Node>, ek: TValue, n: nat, k: int)
    requires DistinctKeys(node) && Separate(arr, node) && IsExtra(arr, node, ek)
    ensures var a, b, c := ArrayKeys(arr, Min(n, |arr|)), IndexSet(node, 0, 0, n), ExtraKey(ek, n);
      && (k in KeysUpTo(arr, node, ek, n) <==> k in a || k in b || k in c)
      && (k in a ==> k !in b && k !in c) && (k in b ==> k !in c)
  {
    InArrayKeys(arr, Min(n, |arr|), k);
    if k in IndexSet(node, 0, 0, n) {
      var j :| 0 <= j < |node| && node[j].val != Nil && IsIndex(node[j].key, 0, n) && node[j].key.i == k;
      assert node[j].key == Int(k);
      ContentAt(arr, node, j);
    }
  }

  lemma DisjointSizes(s: set<int>, a: set<int>, b: set<int>, c: set<int>)
    requires forall k :: k in s <==> k in a || k in b || k in c
    requires forall k :: (k in a ==> k !in b && k !in c) && (k in b ==> k !in c)
    ensures |s| == |a| + |b| + |c|
  {
    assert forall k :: k in s <==> k in a + b + c;
    assert forall k :: k in a ==> k !in b;
    assert forall k :: k in a + b ==> k !in c;
    assert s == a + b + c;
  }

  /** The counts are the numbers of such keys. */
  lemma CountKeysIs(arr: seq<TValue>, node: seq<Node>, ek: TValue, n: nat)
    requires DistinctKeys(node) && Separate(arr, node) && IsExtra(arr, node, ek)
    ensures CountKeys(arr, node, ek, 0, n) == |KeysUpTo(arr, node, ek, n)|
  {
    hide Separate, IsExtra, KeysUpTo, ArrayKeys, IndexSet;
    var a, b, c := ArrayKeys(arr, Min(n, |arr|)), IndexSet(node, 0, 0, n), ExtraKey(ek, n);
    ArrayKeysSize(arr, Min(n, |arr|));
    IndexSetSize(node, 0, 0, n);
    forall k: int ensures (k in KeysUpTo(arr, node, ek, n) <==> k in a || k in b || k in c) &&
      (k in a ==> k !in b && k !in c) && (k in b ==> k !in c) {
      KeyIsSomewhere(arr, node, ek, n, k);
    }
    DisjointSizes(KeysUpTo(arr, node, ek, n), a, b, c);
  }

  lemma InsertedByMove(arr: seq<TValue>, node: seq<Node>, line: seq<nat>, pos: Position, m: nat, n: nat, a: nat,
      key: TValue, node': seq<Node>, line': seq<nat>)
    requires Chained(node, line, pos) && Separate(arr, node) && Moved(node, line, m, n, a, key, node', line')
    requires pos(node[m].key, |node|) != m && pos(key, |node|) == m
    ensures Inserted(arr, node, line, pos, key, m, node', line')
  {
    hide Chained;
    MovedIsChained(node, line, pos, m, n, a, key, node', line');
    ChainedIsListed(node, line, pos);
    ChainedIsListed(node', line', pos);
    MovedNodes(node, line, m, n, a, key, node', line');
    forall i | 0 <= i < |node| && node[i].val != Nil ensures HasEntry(node', node[i].key, node[i].val) {
      var j := if i == m then n else i;
      assert node'[j].key == node[i].key && node'[j].val == node[i].val;
    }
    forall i | 0 <= i < |node| && node'[i].val != Nil ensures HasEntry(node, node'[i].key, node'[i].val) {
      var j := if i == n then m else i;
      assert node[j].key == node'[i].key && node[j].val == node'[i].val;
    }
    SameEntriesSameContent(arr, node, node');
  }

  lemma InsertedInChain(arr: seq<TValue>, node: seq<Node>, line: seq<nat>, pos: Position, m: nat, n: nat, a: nat,
      key: TValue, node': seq<Node>, line': seq<nat>)
    requires Chained(node, line, pos) && Separate(arr, node) && Added(node, line, m, n, a, key, node', line')
    requires pos(node[m].key, |node|) == m == pos(key, |node|)
    ensures Inserted(arr, node, line, pos, key, n, node', line')
  {
    hide Chained, Added;
    AddedIsChained(node, line, pos, m, n, a, key, node', line');
    ChainedIsListed(node, line, pos);
    ChainedIsListed(node', line', pos);
    AddedNodes(node, line, m, n, a, key, node', line');
    forall i | 0 <= i < |node| && node[i].val != Nil ensures HasEntry(node', node[i].key, node[i].val) {
      assert node'[i].key == node[i].key && node'[i].val == node[i].val;
    }
    forall i | 0 <= i < |node| && node'[i].val != Nil ensures HasEntry(node, node'[i].key, node'[i].val) {
      assert node[i].key == node'[i].key && node[i].val == node'[i].val;
    }
    SameEntriesSameContent(arr, node, node');
  }

  lemma InsertInPlace(arr: seq<TValue>, node: seq<Node>, line: seq<nat>, pos: Position, m: nat, key: TValue)
    requires Chained(node, line, pos) && Separate(arr, node) && m < |node| && node[m].val == Nil &&
      pos(key, |node|) == m
    requires key != Nil && key != NaN && forall i :: 0 <= i < |node| ==> node[i].key != key
    ensures Inserted(arr, node, line, pos, key, m, node[m := node[m].(key := key)], if node[m].key != Nil then line
      else line + [m])
  {
    hide Chained, Separate;
    InsertedInPlace(arr, node, line, pos, m, key, node[m := node[m].(key := key)], if node[m].key != Nil then line
      else line + [m]);
  }

  lemma InsertByMove(arr: seq<TValue>, node: seq<Node>, line: seq<nat>, pos: Position, prev: nat, m: nat, n: nat,
      a: nat, key: TValue, node1: seq<Node>)
    requires Chained(node, line, pos) && Separate(arr, node) && m < |node| && n < |node| && prev < |node|
    requires node[m].key != Nil && node[n].key == Nil && pos(node[m].key, |node|) != m && pos(key, |node|) == m
    requires 0 < a < |line| && line[a] == m && line[a - 1] == prev && node[prev].next == m
    requires key != Nil && key != NaN && forall i :: 0 <= i < |node| ==> node[i].key != key
    requires node1 == node[prev := node[prev].(next := n)][n := node[m]][m := Node(node[m].key, Nil, NULL)]
    ensures Inserted(arr, node, line, pos, key, m, node1[m := node1[m].(key := key)], line[a := n] + [m])
  {
    hide Chained, Separate;
    InsertedByMove(arr, node, line, pos, m, n, a, key, node1[m := node1[m].(key := key)], line[a := n] + [m]);
  }

  lemma InsertInChain(arr: seq<TValue>, node: seq<Node>, line: seq<nat>, pos: Position, m: nat, n: nat, a: nat,
      key: TValue, node1: seq<Node>)
    requires Chained(node, line, pos) && Separate(arr, node) && m < |node| && n < |node|
    requires node[m].key != Nil && node[n].key == Nil && pos(node[m].key, |node|) == m == pos(key, |node|)
    requires a < |line| && line[a] == m
    requires key != Nil && key != NaN && forall i :: 0 <= i < |node| ==> node[i].key != key
    requires node1 == node[n := node[n].(next := node[m].next)][m := node[m].(next := n)]
    ensures Inserted(arr, node, line, pos, key, n, node1[n := node1[n].(key := key)],
      line[..a + 1] + [n] + line[a + 1..])
  {
    ChainedIsListed(node, line, pos);
    hide Chained, Separate;
    assert node1[n := node1[n].(key := key)] == node[n := Node(key, Nil, node[m].next)][m := node[m].(next := n)];
    InsertedInChain(arr, node, line, pos, m, n, a, key, node1[n := node1[n].(key := key)],
      line[..a + 1] + [n] + line[a + 1..]);
  }

  /** Storing a value moves no key. */
  lemma StoredIsChained(node: seq<Node>, line: seq<nat>, pos: Position, i: nat, v: TValue)
    requires Chained(node, line, pos) && i < |node| && node[i].key != Nil
    ensures Chained(node[i := node[i].(val := v)], line, pos)
  {
    var node' := node[i := node[i].(val := v)];
    assert Listed(node', line) by {
      forall r | 0 <= r < |line| ensures LinkedAt(node', line, r) {
        assert LinkedAt(node, line, r);
      }
    }
    forall q | 0 <= q < |line| ensures HasHome(node', line, pos, q) {
      assert HasHome(node, line, pos, q);
      var p: nat :| HomeAt(node, line, pos, p, q);
      assert HomeAt(node', line, pos, p, q);
    }
    forall j | 0 <= j < |node'| && node'[j].key != Nil ensures Settled(node', pos, j) {
      assert Settled(node, pos, j);
    }
  }

  lemma ValueStored(arr: seq<TValue>, node: seq<Node>, line: seq<nat>, pos: Position, i: nat, v: TValue)
    requires Chained(node, line, pos) && Separate(arr, node) && i < |node| && node[i].key != Nil &&
      !InArray(arr, node[i].key)
    ensures var node' := node[i := node[i].(val := v)];
      && Chained(node', line, pos) && Separate(arr, node')
      && forall k :: Content(arr, node', k) == if k == node[i].key then v else Content(arr, node, k)
  {
    var node' := node[i := node[i].(val := v)];
    StoredIsChained(node, line, pos, i, v);
    ContentAt(arr, node', i);
    forall k | k != node[i].key ensures Content(arr, node', k) == Content(arr, node, k) {
      var j := IndexOf(node, k);
      if j >= 0 && !InArray(arr, k) {
        ContentAt(arr, node', j);
      }
    }
  }

  /** A hash part with no keys. */
  lemma EmptyIsChained(arr: seq<TValue>, node: seq<Node>, pos: Position)
    requires forall i :: 0 <= i < |node| ==> node[i] == EMPTY
    ensures Chained(node, [], pos) && Separate(arr, node)
    ensures forall k :: Content(arr, node, k) == if InArray(arr, k) then arr[k.i - 1] else Nil
  {
  }

  // ---- free nodes

  ghost function LineSet(line: seq<nat>): set<nat> { set i | i in line }
  ghost function UpTo(n: nat): (s: set<nat>)
    ensures forall i: nat :: i in s <==> i < n
  {
    if n == 0 then {} else UpTo(n - 1) + {n - 1}
  }

  lemma {:induction false} LineSetSize(line: seq<nat>)
    requires Distinct(line)
    ensures |LineSet(line)| == |line|
  {
    if line == [] {
      assert LineSet(line) == {};
    } else {
      var last := line[|line| - 1];
      LineSetSize(line[..|line| - 1]);
      assert LineSet(line) == LineSet(line[..|line| - 1]) + {last};
    }
  }

  lemma {:induction false} UpToSize(n: nat)
    ensures |UpTo(n)| == n
  {
    if n > 0 {
      UpToSize(n - 1);
    }
  }

  /** The listing is as long as the node vector exactly when all nodes have keys. */
  lemma FullWhenAllKeyed(node: seq<Node>, line: seq<nat>)
    requires Listed(node, line)
    ensures |line| <= |node|
    ensures |line| == |node| <==> forall i :: 0 <= i < |node| ==> node[i].key != Nil
  {
    LineSetSize(line);
    UpToSize(|node|);
    SubsetSize(LineSet(line), UpTo(|node|));
    if forall i :: 0 <= i < |node| ==> node[i].key != Nil {
      assert LineSet(line) == UpTo(|node|);
    } else {
      var i :| 0 <= i < |node| && node[i].key == Nil;
      assert i in UpTo(|node|) && i !in LineSet(line);
    }
  }

  // ---- searching a chain

  lemma PositionInside(pos: Position, key: TValue, size: nat)
    requires GoodPosition(pos) && size > 0
    ensures pos(key, size) < size
  {
  }

  lemma KeyedIsListed(node: seq<Node>, line: seq<nat>, pos: Position, i: nat) returns (r: nat)
    requires Chained(node, line, pos) && i < |node| && node[i].key != Nil
    ensures r < |line| && line[r] == i
  {
    r := IndexIn(line, i);
  }

  lemma ListedIsLinked(node: seq<Node>, line: seq<nat>, pos: Position, r: nat)
    requires Chained(node, line, pos) && r < |line|
    ensures line[r] < |node| && LinkedAt(node, line, r) && node[line[r]].key != Nil && node[line[r]].key != NaN
    ensures forall x :: 0 <= x < |line| ==> line[x] < |node|
  {
  }

  lemma SearchBegins(node: seq<Node>, line: seq<nat>, pos: Position, m: nat, key: TValue)
    requires Chained(node, line, pos) && m < |node| && m == pos(key, |node|) && node[m].key == Nil && key != Nil
    ensures node[m].next == NULL && forall i :: 0 <= i < |node| ==> node[i].key != key
  {
    forall i | 0 <= i < |node| && node[i].key != Nil ensures node[i].key != key {
      assert Settled(node, pos, i);
    }
  }

  lemma RunGoesOn(node: seq<Node>, line: seq<nat>, p: nat, q: nat, r: nat)
    ensures Run(node, line, p, q) && p <= r < q ==>
      r + 1 < |line| && line[r] < |node| && node[line[r]].next == line[r + 1]
  {
  }

  lemma SearchEnds(node: seq<Node>, line: seq<nat>, pos: Position, key: TValue, p: nat, r: nat)
    requires Chained(node, line, pos) && Run(node, line, p, r) && line[p] == pos(key, |node|) && key != Nil
    requires forall x :: p <= x <= r ==> line[x] < |node| && node[line[x]].key != key
    requires line[r] < |node| && node[line[r]].next == NULL
    ensures forall i :: 0 <= i < |node| ==> node[i].key != key
  {
    forall i | 0 <= i < |node| && node[i].key != Nil ensures node[i].key != key {
      var q := IndexIn(line, i);
      assert HasHome(node, line, pos, q);
      var p': nat :| HomeAt(node, line, pos, p', q);
      assert p' == p ==> q <= r by {
        RunGoesOn(node, line, p', q, r);
      }
    }
  }

  // ---- re-inserting the keys of an old array part and of an old hash part

  lemma OneMoreOfArray(arr: seq<TValue>, i: nat)
    requires i < |arr|
    ensures forall k :: Content(arr[..i + 1], [], k) == if k == Int(i + 1) then arr[i] else Content(arr[..i], [], k)
  {
    forall k ensures Content(arr[..i + 1], [], k) == if k == Int(i + 1) then arr[i] else Content(arr[..i], [], k) {
      if InArray(arr[..i + 1], k) && k.i <= i {
        assert arr[..i + 1][k.i - 1] == arr[..i][k.i - 1];
      }
    }
  }

  /** The hash part from node `i` on holds what it holds from the next node on, and the node's own key. */
  lemma OneMoreNode(arr: seq<TValue>, node: seq<Node>, i: nat)
    requires DistinctKeys(node) && Separate(arr, node) && i < |node|
    ensures node[i].val == Nil ==> forall k :: Content(arr, node[i..], k) == Content(arr, node[i + 1..], k)
    ensures node[i].val != Nil && node[i].key != Nil ==>
      forall k :: Content(arr, node[i..], k) == if k == node[i].key then node[i].val else Content(arr, node[i + 1..], k)
  {
    forall k | !InArray(arr, k) && (k != node[i].key || node[i].val == Nil)
      ensures Content(arr, node[i..], k) == Content(arr, node[i + 1..], k)
    {
      SuffixContent(arr, node, i, k);
    }
    if node[i].val != Nil && node[i].key != Nil {
      ContentAt(arr, node[i..], 0);
    }
  }

  lemma SuffixContent(arr: seq<TValue>, node: seq<Node>, i: nat, k: TValue)
    requires DistinctKeys(node) && i < |node| && !InArray(arr, k) && (k != node[i].key || node[i].val == Nil)
    ensures Content(arr, node[i..], k) == Content(arr, node[i + 1..], k)
  {
    var a, b := IndexOf(node[i..], k), IndexOf(node[i + 1..], k);
    assert DistinctKeys(node[i..]) && DistinctKeys(node[i + 1..]);
    assert forall x :: 0 < x < |node[i..]| ==> node[i..][x] == node[i + 1..][x - 1];
    if b >= 0 {
      assert node[i..][b + 1] == node[i + 1..][b];
      assert node[i].key != k;
      ContentAt(arr, node[i..], b + 1);
    }
  }

  // ---- traversals

  /** Traversals go through the array part and then through the nodes. */
  ghost predicate LiveAt(arr: seq<TValue>, node: seq<Node>, p: int) {
    0 <= p < |arr| + |node| && (if p < |arr| then arr[p] else node[p - |arr|].val) != Nil
  }

  ghost function KeyAt(arr: seq<TValue>, node: seq<Node>, p: int): TValue
    requires 0 <= p < |arr| + |node|
  {
    if p < |arr| then Int(p + 1) else node[p - |arr|].key
  }

  /** The first live position after `i`, or none. */
  ghost predicate IsNext(arr: seq<TValue>, node: seq<Node>, i: int, p: Option<nat>) {
    match p
    case None => forall x :: i < x ==> !LiveAt(arr, node, x)
    case Some(q) => i < q && LiveAt(arr, node, q) && forall x :: i < x < q ==> !LiveAt(arr, node, x)
  }

  datatype Snapshot = Snapshot(arr: seq<TValue>, node: seq<Node>)

  /** Fields of the table may have been assigned or cleared, but none added. */
  ghost predicate SameFields(s: Snapshot, s': Snapshot) {
    && |s.arr| == |s'.arr| && |s.node| == |s'.node|
    && forall i :: 0 <= i < |s.node| ==> s.node[i].key == s'.node[i].key
  }

  /** A traversal: call `t` of next starts after position `at[t]` of the table as it then is, and
      gives position `at[t + 1]`; the last call gives none. */
  ghost predicate Traversal(states: seq<Snapshot>, at: seq<int>) {
    && |states| == |at| > 0 && at[0] == -1
    && (forall t :: 0 <= t < |states| ==> WellKeyed(states[t]) && SameFields(states[0], states[t]))
    && (forall t :: 0 <= t < |at| ==> NextCall(states, at, t))
  }

  ghost predicate NextCall(states: seq<Snapshot>, at: seq<int>, t: nat)
    requires t < |at| == |states|
  {
    at[t] >= -1 && IsNext(states[t].arr, states[t].node, at[t], if t + 1 == |at| || at[t + 1] < 0 then None
      else Some(at[t + 1]))
    && (t + 1 < |at| ==> at[t + 1] >= 0)
  }

  ghost predicate WellKeyed(s: Snapshot) {
    DistinctKeys(s.node) && Separate(s.arr, s.node) && forall i :: 0 <= i < |s.node| && s.node[i].val != Nil ==>
      s.node[i].key != Nil
  }

  lemma {:induction false} TraversalGoesUp(states: seq<Snapshot>, at: seq<int>, t: nat, u: nat)
    requires Traversal(states, at) && t < u < |at|
    ensures at[t] < at[u] && LiveAt(states[u - 1].arr, states[u - 1].node, at[u])
  {
    assert NextCall(states, at, u - 1);
    if t < u - 1 {
      TraversalGoesUp(states, at, t, u - 1);
    }
  }

  /** A live position is found by its key. */
  lemma LivePosition(s: Snapshot, key: TValue) returns (p: nat)
    requires WellKeyed(s) && Content(s.arr, s.node, key) != Nil
    ensures LiveAt(s.arr, s.node, p) && KeyAt(s.arr, s.node, p) == key
  {
    p := if InArray(s.arr, key) then key.i - 1 else |s.arr| + IndexOf(s.node, key);
  }

  /** No key is visited twice. */
  lemma NoKeyTwice(states: seq<Snapshot>, at: seq<int>, t: nat, u: nat)
    requires Traversal(states, at) && 0 < t < u < |at|
    ensures 0 <= at[t] < at[u] < |states[0].arr| + |states[0].node|
    ensures KeyAt(states[0].arr, states[0].node, at[t]) != KeyAt(states[0].arr, states[0].node, at[u])
  {
    TraversalGoesUp(states, at, 0, t);
    TraversalGoesUp(states, at, t, u);
    assert SameFields(states[0], states[t - 1]) && SameFields(states[0], states[u - 1]);
    assert WellKeyed(states[u - 1]);
    hide Traversal;
    var s := states[u - 1];
    if at[t] >= |s.arr| {
      assert s.node[at[u] - |s.arr|].key != Nil;
    }
  }

  /** Every key that stays in the table is visited. */
  lemma KeyIsVisited(states: seq<Snapshot>, at: seq<int>, key: TValue)
    requires Traversal(states, at)
    requires forall t :: 0 <= t < |states| ==> Content(states[t].arr, states[t].node, key) != Nil
    ensures exists t ::
      0 < t < |at| && 0 <= at[t] < |states[0].arr| + |states[0].node| &&
      KeyAt(states[0].arr, states[0].node, at[t]) == key
  {
    assert WellKeyed(states[0]);
    var p := LivePosition(states[0], key);
    forall t | 0 <= t < |states| ensures LiveAt(states[t].arr, states[t].node, p) {
      assert WellKeyed(states[t]) && SameFields(states[0], states[t]);
      StaysLive(states[0], states[t], key, p);
    }
    VisitedInTurn(states, at, p, 0);
  }

  lemma StaysLive(s0: Snapshot, s: Snapshot, key: TValue, p: nat)
    requires WellKeyed(s0) && WellKeyed(s) && SameFields(s0, s) && Content(s.arr, s.node, key) != Nil
    requires LiveAt(s0.arr, s0.node, p) && KeyAt(s0.arr, s0.node, p) == key
    ensures LiveAt(s.arr, s.node, p)
  {
    if p >= |s.arr| {
      ContentAt(s.arr, s.node, p - |s.arr|);
    }
  }

  lemma {:induction false} VisitedInTurn(states: seq<Snapshot>, at: seq<int>, p: nat, t: nat)
    requires Traversal(states, at) && t < |at| && at[t] < p
    requires forall u :: 0 <= u < |states| ==> LiveAt(states[u].arr, states[u].node, p)
    ensures exists u :: t < u < |at| && at[u] == p
    decreases |at| - t
  {
    assert NextCall(states, at, t);
    assert LiveAt(states[t].arr, states[t].node, p);
    if at[t + 1] != p {
      VisitedInTurn(states, at, p, t + 1);
    }
  }

  /** The traversal ends: there are no more visits than positions. */
  lemma {:induction false} TraversalEnds(states: seq<Snapshot>, at: seq<int>, u: nat)
    requires Traversal(states, at) && u < |at|
    ensures u <= at[u] + 1 <= |states[0].arr| + |states[0].node|
  {
    if u > 0 {
      TraversalEnds(states, at, u - 1);
      TraversalGoesUp(states, at, u - 1, u);
      assert SameFields(states[0], states[u - 1]);
    }
  }

  // ---- how many keys there are

  /** The keys with a value: those of the first `n` places of the array, and those of the nodes from `from` on. */
  ghost function KeysOf(arr: seq<TValue>, n: nat, node: seq<Node>, from: nat): set<TValue>
    requires n <= |arr| && from <= |node|
  {
    (set i | 0 <= i < n && arr[i] != Nil :: Int(i + 1)) +
    (set i | from <= i < |node| && node[i].val != Nil :: node[i].key)
  }

  lemma {:induction false} ArrayKeysCounted(arr: seq<TValue>, n: nat)
    requires n <= |arr|
    ensures |KeysOf(arr, n, [], 0)| == CountArray(arr, 0, n)
  {
    hide KeysOf;
    if n > 0 {
      ArrayKeysCounted(arr, n - 1);
      OneMoreArrayKey(arr, n);
    } else {
      NoArrayKeys(arr);
    }
  }

  lemma NoArrayKeys(arr: seq<TValue>)
    ensures KeysOf(arr, 0, [], 0) == {}
  {
  }

  lemma OneMoreArrayKey(arr: seq<TValue>, n: nat)
    requires 0 < n <= |arr|
    ensures KeysOf(arr, n, [], 0) == KeysOf(arr, n - 1, [], 0) + if arr[n - 1] != Nil then {Int(n)} else {}
    ensures Int(n) !in KeysOf(arr, n - 1, [], 0)
  {
  }

  lemma {:induction false} KeysCounted(arr: seq<TValue>, node: seq<Node>, from: nat)
    requires from <= |node| && DistinctKeys(node) && Separate(arr, node)
    requires forall i :: 0 <= i < |node| && node[i].val != Nil ==> node[i].key != Nil
    ensures |KeysOf(arr, |arr|, node, from)| == CountArray(arr, 0, |arr|) + CountUsed(node, from)
    decreases |node| - from
  {
    hide KeysOf;
    if from == |node| {
      ArrayKeysCounted(arr, |arr|);
      NoNodeKeys(arr, node);
    } else {
      KeysCounted(arr, node, from + 1);
      OneMoreNodeKey(arr, node, from);
    }
  }

  lemma NoNodeKeys(arr: seq<TValue>, node: seq<Node>)
    ensures KeysOf(arr, |arr|, node, |node|) == KeysOf(arr, |arr|, [], 0)
  {
  }

  lemma OneMoreNodeKey(arr: seq<TValue>, node: seq<Node>, from: nat)
    requires from < |node| && DistinctKeys(node) && Separate(arr, node)
    requires forall i :: 0 <= i < |node| && node[i].val != Nil ==> node[i].key != Nil
    ensures |KeysOf(arr, |arr|, node, from)| == |KeysOf(arr, |arr|, node, from + 1)| + One(node[from].val != Nil)
  {
    var rest, key := KeysOf(arr, |arr|, node, from + 1), node[from].key;
    if node[from].val != Nil {
      assert key !in rest;
      assert KeysOf(arr, |arr|, node, from) == rest + {key};
    } else {
      assert KeysOf(arr, |arr|, node, from) == rest;
    }
  }

  lemma KeysHaveValues(arr: seq<TValue>, node: seq<Node>)
    requires DistinctKeys(node) && Separate(arr, node)
    requires forall i :: 0 <= i < |node| && node[i].val != Nil ==> node[i].key != Nil
    ensures forall key :: key in KeysOf(arr, |arr|, node, 0) <==> Content(arr, node, key) != Nil
  {
    forall key ensures key in KeysOf(arr, |arr|, node, 0) <==> Content(arr, node, key) != Nil {
      if key in KeysOf(arr, |arr|, node, 0) && !InArray(arr, key) {
        var i :| 0 <= i < |node| && node[i].val != Nil && node[i].key == key;
        ContentAt(arr, node, i);
      }
    }
  }

  lemma DifferAt(a: set<TValue>, b: set<TValue>, key: TValue)
    requires forall k :: k != key ==> (k in a <==> k in b)
    ensures |b| == |a| + One(key in b) - One(key in a)
  {
    var rest := a - {key};
    assert rest == b - {key};
    assert a == if key in a then rest + {key} else rest;
    assert b == if key in b then rest + {key} else rest;
  }

  /** An assignment changes the number of keys with a value by one at most. */
  lemma OneKeyMoreOrLess(a: Snapshot, b: Snapshot, key: TValue, v: TValue)
    requires WellKeyed(a) && WellKeyed(b)
    requires forall k :: Content(b.arr, b.node, k) == if k == key then v else Content(a.arr, a.node, k)
    ensures UsedKeys(b) == UsedKeys(a) + One(v != Nil) - One(Content(a.arr, a.node, key) != Nil)
  {
    hide Content, KeysOf, CountArray, CountUsed;
    KeysCounted(a.arr, a.node, 0);
    KeysCounted(b.arr, b.node, 0);
    KeysHaveValues(a.arr, a.node);
    KeysHaveValues(b.arr, b.node);
    DifferAt(KeysOf(a.arr, |a.arr|, a.node, 0), KeysOf(b.arr, |b.arr|, b.node, 0), key);
  }

  ghost function UsedKeys(s: Snapshot): nat {
    CountArray(s.arr, 0, |s.arr|) + CountUsed(s.node, 0)
  }

  // ---- boundaries

  lemma {:induction false} UsedBound(node: seq<Node>, from: nat)
    requires from <= |node|
    ensures CountUsed(node, from) <= |node| - from
    decreases |node| - from
  {
    if from < |node| {
      UsedBound(node, from + 1);
    }
  }

  ghost function Interval(lo: nat, hi: nat): (s: set<int>)
    requires lo <= hi
    ensures |s| == hi - lo && forall x :: x in s <==> lo < x <= hi
    decreases hi
  {
    if lo == hi then {} else Interval(lo, hi - 1) + {hi}
  }

  /** A table holds no longer run of indices than it has slots. */
  lemma RunOfIndices(arr: seq<TValue>, node: seq<Node>, n: nat)
    requires DistinctKeys(node) && forall x :: 1 <= x <= n ==> Content(arr, node, Int(x)) != Nil
    ensures n <= |arr| + |node|
  {
    if n > |arr| {
      var s := IndexSet(node, 0, |arr|, n);
      forall x | |arr| < x <= n ensures x in s {
        assert Content(arr, node, Int(x)) != Nil;
        assert node[IndexOf(node, Int(x))].key.i == x;
      }
      SubsetSize(Interval(|arr|, n), s);
      IndexSetSize(node, 0, |arr|, n);
      CountIndicesSplits(node, 0, |arr|, |arr|, n);
      UsedBound(node, 0);
    }
  }
}
