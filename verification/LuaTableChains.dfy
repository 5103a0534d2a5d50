/** The hash part of a table: a scatter table whose collisions are chained inside it, with Brent's
    variation (ltable.c).

    A chain may hold keys with different main positions: a node whose value has become nil is used
    again for a key that belongs there, without leaving the chain it is in. What holds of every
    keyed node is that it is reached from the main position of its key. */
module LuaTableChains {
  import opened LuaBasics

  /** Values and keys. `Int` is a number that a C int can hold, `NaN` the number that is not equal to
      itself, and `Atom` stands for all other values. */
  datatype TValue = Nil | Int(i: int) | NaN | Atom(id: nat)

  datatype Node = Node(key: TValue, val: TValue, next: int)

  const NULL: int := -1

  /** `mainposition`: an abstract hash, which respects equality of keys because it is a function. */
  type Position = (TValue, nat) -> nat

  ghost predicate GoodPosition(pos: Position) {
    forall key, size: nat :: size > 0 ==> pos(key, size) < size
  }

  /** Following the links from `line[p]` leads through `line` to `line[q]`. */
  ghost predicate Run(node: seq<Node>, line: seq<nat>, p: nat, q: nat) {
    && p <= q < |line|
    && forall r :: p <= r < q ==> line[r] < |node| && node[line[r]].next == line[r + 1]
  }

  ghost predicate HomeAt(node: seq<Node>, line: seq<nat>, pos: Position, p: nat, q: nat) {
    && Run(node, line, p, q) && line[q] < |node|
    && line[p] == pos(node[line[q]].key, |node|)
  }

  ghost predicate HasHome(node: seq<Node>, line: seq<nat>, pos: Position, q: nat) {
    exists p: nat :: HomeAt(node, line, pos, p, q)
  }

  /** `line` lists the nodes that have a key, chain after chain. */
  ghost predicate Listed(node: seq<Node>, line: seq<nat>) {
    && Distinct(line)
    && (forall r :: 0 <= r < |line| ==> line[r] < |node|)
    && (forall i :: 0 <= i < |node| ==> (node[i].key != Nil <==> i in line))
    && (forall i :: 0 <= i < |node| && node[i].key == Nil ==> node[i] == Node(Nil, Nil, NULL))
    && (forall i :: 0 <= i < |node| ==> node[i].key != NaN)
    && (forall i, j :: 0 <= i < j < |node| && node[i].key == node[j].key ==> node[i].key == Nil)
    && (forall r :: 0 <= r < |line| ==> LinkedAt(node, line, r))
  }

  ghost predicate LinkedAt(node: seq<Node>, line: seq<nat>, r: nat)
    requires r < |line| && line[r] < |node|
  {
    node[line[r]].next == NULL || (r + 1 < |line| && node[line[r]].next == line[r + 1])
  }

  /** The invariant of the hash part: every key is reached from its main position, and if it is not
      there, the node that is there is in its own main position. */
  ghost predicate Chained(node: seq<Node>, line: seq<nat>, pos: Position) {
    && Listed(node, line)
    && (forall q :: 0 <= q < |line| ==> HasHome(node, line, pos, q))
    && (forall i :: 0 <= i < |node| && node[i].key != Nil ==> Settled(node, pos, i))
  }

  ghost predicate Settled(node: seq<Node>, pos: Position, i: nat)
    requires i < |node|
  {
    var m := pos(node[i].key, |node|);
    m == i || (m < |node| && node[m].key != Nil && pos(node[m].key, |node|) == m)
  }

  lemma IndexIn(line: seq<nat>, i: nat) returns (r: nat)
    requires i in line
    ensures r < |line| && line[r] == i
  {
    r :| 0 <= r < |line| && line[r] == i;
  }

  // ---- a free main position, or one whose value is nil, is used in place

  ghost predicate Reused(node: seq<Node>, line: seq<nat>, m: nat, key: TValue, node': seq<Node>, line': seq<nat>) {
    && m < |node| && node[m].val == Nil && key != Nil && key != NaN &&
       (forall i :: 0 <= i < |node| ==> node[i].key != key)
    && node' == node[m := node[m].(key := key)]
    && line' == if node[m].key != Nil then line else line + [m]
  }

  lemma ReusedIsListed(node: seq<Node>, line: seq<nat>, m: nat, key: TValue, node': seq<Node>, line': seq<nat>)
    requires Listed(node, line) && Reused(node, line, m, key, node', line')
    ensures Listed(node', line')
  {
    hide LinkedAt;
    assert node[m].key == Nil ==> m !in line;
    forall i | 0 <= i < |node'| ensures node'[i].key != Nil <==> i in line' {
      assert i in line' <==> i in line || i == m;
    }
    forall r | 0 <= r < |line'| ensures line'[r] < |node'| && LinkedAt(node', line', r) {
      ReusedLink(node, line, m, key, node', line', r);
    }
  }

  lemma ReusedLink(node: seq<Node>, line: seq<nat>, m: nat, key: TValue, node': seq<Node>, line': seq<nat>, r: nat)
    requires Listed(node, line) && Reused(node, line, m, key, node', line') && r < |line'|
    ensures line'[r] < |node'| && LinkedAt(node', line', r)
  {
    if r < |line| {
      assert LinkedAt(node, line, r);
    }
  }

  lemma ReusedIsChained(node: seq<Node>, line: seq<nat>, pos: Position, m: nat, key: TValue, node': seq<Node>,
      line': seq<nat>)
    requires Chained(node, line, pos) && Reused(node, line, m, key, node', line') && pos(key, |node|) == m
    ensures Chained(node', line', pos)
  {
    ReusedIsListed(node, line, m, key, node', line');
    forall q | 0 <= q < |line'| ensures HasHome(node', line', pos, q) {
      ReusedHome(node, line, pos, m, key, node', line', q);
    }
    forall i | 0 <= i < |node'| && node'[i].key != Nil ensures Settled(node', pos, i) {
      if i != m {
        assert Settled(node, pos, i);
      }
    }
  }

  lemma ReusedHome(node: seq<Node>, line: seq<nat>, pos: Position, m: nat, key: TValue, node': seq<Node>,
      line': seq<nat>, q: nat)
    requires Chained(node, line, pos) && Reused(node, line, m, key, node', line') && pos(key, |node|) == m &&
      q < |line'|
    ensures HasHome(node', line', pos, q)
  {
    if line'[q] == m {
      assert HomeAt(node', line', pos, q, q);
    } else {
      assert HasHome(node, line, pos, q);
      var p: nat :| HomeAt(node, line, pos, p, q);
      assert HomeAt(node', line', pos, p, q);
    }
  }

  // ---- a node out of its main position makes room for a key that belongs there

  /** The colliding node moves from `m` to the free node `n`, after `prev`, and `key` takes its place. */
  ghost predicate Moved(node: seq<Node>, line: seq<nat>, m: nat, n: nat, a: nat, key: TValue, node': seq<Node>,
      line': seq<nat>) {
    && m < |node| && n < |node| && node[m].key != Nil && node[n].key == Nil
    && 0 < a < |line| && line[a] == m && line[a - 1] < |node| && node[line[a - 1]].next == m
    && key != Nil && key != NaN && (forall i :: 0 <= i < |node| ==> node[i].key != key)
    && node' == node[line[a - 1] := node[line[a - 1]].(next := n)][n := node[m]][m := Node(key, Nil, NULL)]
    && line' == line[a := n] + [m]
  }

  lemma MovedNodes(node: seq<Node>, line: seq<nat>, m: nat, n: nat, a: nat, key: TValue, node': seq<Node>,
      line': seq<nat>)
    requires Listed(node, line) && Moved(node, line, m, n, a, key, node', line')
    ensures var prev := line[a - 1];
      && n !in line && m != n && prev != m && prev != n && |node'| == |node| && |line'| == |line| + 1
      && node'[n] == node[m] && node'[m] == Node(key, Nil, NULL) && node'[prev] == node[prev].(next := n)
      && (forall i :: 0 <= i < |node| && i != m && i != n && i != prev ==> node'[i] == node[i])
      && line'[a] == n && line'[|line|] == m && (forall r :: 0 <= r < |line| && r != a ==> line'[r] == line[r] != m)
  {
  }

  lemma MovedIsListed(node: seq<Node>, line: seq<nat>, m: nat, n: nat, a: nat, key: TValue, node': seq<Node>,
      line': seq<nat>)
    requires Listed(node, line) && Moved(node, line, m, n, a, key, node', line')
    ensures Listed(node', line')
  {
    MovedNodes(node, line, m, n, a, key, node', line');
    forall i | 0 <= i < |node'| ensures node'[i].key != Nil <==> i in line' {
      if i in line && i != m {
        var r := IndexIn(line, i);
        assert line'[r] == i;
      } else if i == n {
        assert line'[a] == n;
      } else if i == m {
        assert line'[|line|] == m;
      }
    }
    forall r | 0 <= r < |line'| ensures line'[r] < |node'| && LinkedAt(node', line', r) {
      if r < |line| {
        assert LinkedAt(node, line, r);
      }
    }
  }

  lemma MovedRun(node: seq<Node>, line: seq<nat>, m: nat, n: nat, a: nat, key: TValue, node': seq<Node>,
      line': seq<nat>, p: nat, q: nat)
    requires Listed(node, line) && Moved(node, line, m, n, a, key, node', line') && Run(node, line, p, q) && p != a
    ensures Run(node', line', p, q)
  {
    MovedNodes(node, line, m, n, a, key, node', line');
    forall r | p <= r < q ensures line'[r] < |node'| && node'[line'[r]].next == line'[r + 1] {
      assert node[line[r]].next == line[r + 1];
    }
  }

  /** Nobody but its old tenant was on the way from `m`: a key that belongs at `m` would have kept a
      node there that belongs there too. */
  lemma MovedHome(node: seq<Node>, line: seq<nat>, pos: Position, m: nat, n: nat, a: nat, key: TValue, node': seq<Node>,
      line': seq<nat>, q: nat)
    requires Chained(node, line, pos) && Moved(node, line, m, n, a, key, node', line')
    requires pos(node[m].key, |node|) != m && pos(key, |node|) == m && q < |line'|
    ensures HasHome(node', line', pos, q)
  {
    MovedNodes(node, line, m, n, a, key, node', line');
    if q == |line| {
      assert HomeAt(node', line', pos, q, q);
    } else {
      assert HasHome(node, line, pos, q);
      var p: nat :| HomeAt(node, line, pos, p, q);
      assert p != a by {
        assert Settled(node, pos, line[q]);
      }
      MovedRun(node, line, m, n, a, key, node', line', p, q);
      assert HomeAt(node', line', pos, p, q);
    }
  }

  lemma MovedSettled(node: seq<Node>, line: seq<nat>, pos: Position, m: nat, n: nat, a: nat, key: TValue,
      node': seq<Node>, line': seq<nat>, i: nat)
    requires Chained(node, line, pos) && Moved(node, line, m, n, a, key, node', line')
    requires pos(node[m].key, |node|) != m && pos(key, |node|) == m && i < |node'| && node'[i].key != Nil
    ensures Settled(node', pos, i)
  {
    MovedNodes(node, line, m, n, a, key, node', line');
    if i != m {
      assert Settled(node, pos, if i == n then m else i);
    }
  }

  lemma MovedIsChained(node: seq<Node>, line: seq<nat>, pos: Position, m: nat, n: nat, a: nat, key: TValue,
      node': seq<Node>, line': seq<nat>)
    requires Chained(node, line, pos) && Moved(node, line, m, n, a, key, node', line')
    requires pos(node[m].key, |node|) != m && pos(key, |node|) == m
    ensures Chained(node', line', pos)
  {
    MovedIsListed(node, line, m, n, a, key, node', line');
    forall q | 0 <= q < |line'| ensures HasHome(node', line', pos, q) {
      MovedHome(node, line, pos, m, n, a, key, node', line', q);
    }
    forall i | 0 <= i < |node'| && node'[i].key != Nil ensures Settled(node', pos, i) {
      MovedSettled(node, line, pos, m, n, a, key, node', line', i);
    }
  }

  // ---- the main position holds a node that belongs there: the key goes to a free node, chained after it

  ghost predicate Added(node: seq<Node>, line: seq<nat>, m: nat, n: nat, a: nat, key: TValue, node': seq<Node>,
      line': seq<nat>) {
    && m < |node| && n < |node| && node[m].key != Nil && node[n].key == Nil && a < |line| && line[a] == m
    && key != Nil && key != NaN && (forall i :: 0 <= i < |node| ==> node[i].key != key)
    && node' == node[n := Node(key, Nil, node[m].next)][m := node[m].(next := n)]
    && line' == line[..a + 1] + [n] + line[a + 1..]
  }

  /** Where an element of the old listing is in the new one. */
  function After(a: nat, r: nat): nat { if r <= a then r else r + 1 }

  lemma AddedNodes(node: seq<Node>, line: seq<nat>, m: nat, n: nat, a: nat, key: TValue, node': seq<Node>,
      line': seq<nat>)
    requires Listed(node, line) && Added(node, line, m, n, a, key, node', line')
    ensures m < |node| && n < |node| && a < |line| && line[a] == m && node[m].key != Nil && node[n].key == Nil
    ensures key != Nil && key != NaN && (forall i :: 0 <= i < |node| ==> node[i].key != key)
    ensures n !in line && m != n && |node'| == |node| && |line'| == |line| + 1
    ensures node'[n] == Node(key, Nil, node[m].next) && node'[m] == node[m].(next := n)
    ensures forall i :: 0 <= i < |node| && i != m && i != n ==> node'[i] == node[i]
    ensures line'[a + 1] == n && line'[a] == m
  {
  }

  lemma AddedLine(node: seq<Node>, line: seq<nat>, m: nat, n: nat, a: nat, key: TValue, node': seq<Node>,
      line': seq<nat>, r: nat)
    requires Added(node, line, m, n, a, key, node', line') && r < |line|
    ensures |line'| == |line| + 1 && line'[After(a, r)] == line[r]
  {
  }

  lemma AddedIsDistinct(line: seq<nat>, n: nat, a: nat, line': seq<nat>)
    requires Distinct(line) && a < |line| && line' == line[..a + 1] + [n] + line[a + 1..]
    requires forall r :: 0 <= r < |line| ==> line[r] != n
    ensures Distinct(line') && forall i :: i in line' <==> i in line || i == n
  {
    assert line == line[..a + 1] + line[a + 1..];
  }

  lemma AddedLink(node: seq<Node>, line: seq<nat>, m: nat, n: nat, a: nat, key: TValue, node': seq<Node>,
      line': seq<nat>, r: nat)
    requires Listed(node, line) && Added(node, line, m, n, a, key, node', line') && r < |line'|
    ensures line'[r] < |node'| && LinkedAt(node', line', r)
  {
    AddedNodes(node, line, m, n, a, key, node', line');
    var r0 := if r <= a then r else r - 1;
    AddedLine(node, line, m, n, a, key, node', line', r0);
    if r0 + 1 < |line| {
      AddedLine(node, line, m, n, a, key, node', line', r0 + 1);
    }
    assert LinkedAt(node, line, r0);
    hide Added;
  }

  lemma AddedIsListed(node: seq<Node>, line: seq<nat>, m: nat, n: nat, a: nat, key: TValue, node': seq<Node>,
      line': seq<nat>)
    requires Listed(node, line) && Added(node, line, m, n, a, key, node', line')
    ensures Listed(node', line')
  {
    hide LinkedAt;
    AddedNodes(node, line, m, n, a, key, node', line');
    AddedIsDistinct(line, n, a, line');
    forall r | 0 <= r < |line'| ensures line'[r] < |node'| && LinkedAt(node', line', r) {
      AddedLink(node, line, m, n, a, key, node', line', r);
    }
  }

  lemma AddedRun(node: seq<Node>, line: seq<nat>, m: nat, n: nat, a: nat, key: TValue, node': seq<Node>,
      line': seq<nat>, p: nat, q: nat)
    requires Listed(node, line) && Added(node, line, m, n, a, key, node', line') && Run(node, line, p, q)
    ensures Run(node', line', After(a, p), After(a, q))
  {
    AddedNodes(node, line, m, n, a, key, node', line');
    forall r | After(a, p) <= r < After(a, q) ensures line'[r] < |node'| && node'[line'[r]].next == line'[r + 1] {
      AddedStep(node, line, m, n, a, key, node', line', p, q, r);
    }
  }

  lemma AddedStep(node: seq<Node>, line: seq<nat>, m: nat, n: nat, a: nat, key: TValue, node': seq<Node>,
      line': seq<nat>, p: nat, q: nat, r: nat)
    requires Listed(node, line) && Added(node, line, m, n, a, key, node', line') && Run(node, line, p, q)
    requires After(a, p) <= r < After(a, q)
    ensures |line'| == |line| + 1 && line'[r] < |node'| && node'[line'[r]].next == line'[r + 1]
  {
    AddedNodes(node, line, m, n, a, key, node', line');
    if r != a {
      var r0 := if r < a then r else r - 1;
      assert node[line[r0]].next == line[r0 + 1];
      AddedLine(node, line, m, n, a, key, node', line', r0);
      AddedLine(node, line, m, n, a, key, node', line', r0 + 1);
    }
    hide Added;
  }

  lemma AddedHome(node: seq<Node>, line: seq<nat>, pos: Position, m: nat, n: nat, a: nat, key: TValue, node': seq<Node>,
      line': seq<nat>, q: nat)
    requires Chained(node, line, pos) && Added(node, line, m, n, a, key, node', line')
    requires pos(key, |node|) == m && q < |line'|
    ensures HasHome(node', line', pos, q)
  {
    AddedNodes(node, line, m, n, a, key, node', line');
    if q == a + 1 {
      assert Run(node', line', a, a + 1);
      assert HomeAt(node', line', pos, a, a + 1);
    } else {
      var q0 := if q <= a then q else q - 1;
      AddedLine(node, line, m, n, a, key, node', line', q0);
      assert HasHome(node, line, pos, q0);
      var p: nat :| HomeAt(node, line, pos, p, q0);
      AddedRun(node, line, m, n, a, key, node', line', p, q0);
      AddedLine(node, line, m, n, a, key, node', line', p);
      hide Added;
      assert HomeAt(node', line', pos, After(a, p), q);
    }
  }

  lemma AddedIsChained(node: seq<Node>, line: seq<nat>, pos: Position, m: nat, n: nat, a: nat, key: TValue,
      node': seq<Node>, line': seq<nat>)
    requires Chained(node, line, pos) && Added(node, line, m, n, a, key, node', line')
    requires pos(node[m].key, |node|) == m == pos(key, |node|)
    ensures Chained(node', line', pos)
  {
    hide Added;
    AddedIsListed(node, line, m, n, a, key, node', line');
    AddedNodes(node, line, m, n, a, key, node', line');
    forall q | 0 <= q < |line'| ensures HasHome(node', line', pos, q) {
      AddedHome(node, line, pos, m, n, a, key, node', line', q);
    }
    forall i | 0 <= i < |node'| && node'[i].key != Nil ensures Settled(node', pos, i) {
      if i != n {
        assert Settled(node, pos, i);
      }
    }
  }
}
