/** Traversing a table with `luaH_next` (ltable.c) while its fields are assigned or cleared. */
module LuaTraversal {
  import opened LuaResults
  import opened LuaTableChains
  import opened LuaTableContents
  import opened LuaTableCounts
  import opened LuaTable

  /** What the body of the loop does: the assignments that it makes after the visits so far. */
  type Program = seq<TValue> -> seq<(TValue, TValue)>

  ghost function Holds(s: Snapshot, key: TValue): TValue { Content(s.arr, s.node, key) }

  ghost predicate HasField(s: Snapshot, key: TValue) { InArray(s.arr, key) || IndexOf(s.node, key) >= 0 }

  /** What the table holds after the assignments, of which those to other fields than it has are left out. */
  ghost function After(s: Snapshot, assignments: seq<(TValue, TValue)>, key: TValue): TValue {
    if assignments == [] then Holds(s, key)
    else
      var last := assignments[|assignments| - 1];
      if last.0 == key && HasField(s, key) then last.1 else After(s, assignments[..|assignments| - 1], key)
  }

  /** State `i` becomes the next by what the program does after its visits so far. */
  ghost predicate Programmed(program: Program, states: seq<Snapshot>, visited: seq<TValue>, i: nat)
    requires |states| == |visited| + 1 && i < |visited|
  {
    Becomes(states[i], program(visited[..i + 1]), states[i + 1])
  }

  ghost predicate Becomes(s: Snapshot, assignments: seq<(TValue, TValue)>, s': Snapshot) {
    SameFields(s, s') && forall key :: Holds(s', key) == After(s, assignments, key)
  }

  /** The program never assigns nil to the key. */
  ghost predicate NotClearedBy(program: Program, visited: seq<TValue>, key: TValue) {
    forall i :: 0 < i <= |visited| ==> (key, Nil) !in program(visited[..i])
  }

  /** A key is not lost unless it is assigned nil. */
  lemma {:induction false} NotCleared(s: Snapshot, assignments: seq<(TValue, TValue)>, key: TValue)
    requires Holds(s, key) != Nil && (key, Nil) !in assignments
    ensures After(s, assignments, key) != Nil
  {
    if assignments != [] {
      var last := assignments[|assignments| - 1];
      assert last in assignments && last == (last.0, last.1);
      NotCleared(s, assignments[..|assignments| - 1], key);
    }
  }

  lemma {:induction false} NeverCleared(program: Program, states: seq<Snapshot>, visited: seq<TValue>, key: TValue,
      n: nat)
    requires |states| == |visited| + 1 && n < |states| && Holds(states[0], key) != Nil
    requires forall i :: 0 <= i < |visited| ==> Programmed(program, states, visited, i)
    requires NotClearedBy(program, visited, key)
    ensures Holds(states[n], key) != Nil
  {
    hide Holds, After, SameFields;
    if n > 0 {
      NeverCleared(program, states, visited, key, n - 1);
      assert Programmed(program, states, visited, n - 1);
      assert (key, Nil) !in program(visited[..n]);
      NotCleared(states[n - 1], program(visited[..n]), key);
    }
  }

  /** A traversal whose last call of `next` is still to come. */
  ghost predicate Begun(states: seq<Snapshot>, at: seq<int>) {
    && |states| == |at| > 0 && at[0] == -1
    && (forall t :: 0 <= t < |states| ==> WellKeyed(states[t]) && SameFields(states[0], states[t]))
    && (forall t :: 0 <= t < |at| - 1 ==> NextCall(states, at, t))
  }

  /** The keys that have been visited are those at the positions after the first. */
  ghost predicate Visits(states: seq<Snapshot>, at: seq<int>, visited: seq<TValue>) {
    && |states| == |at| == |visited| + 1
    && forall t :: 0 <= t < |visited| ==> VisitedAt(states, at, visited, t)
  }

  ghost predicate VisitedAt(states: seq<Snapshot>, at: seq<int>, visited: seq<TValue>, t: nat)
    requires t < |visited| && |states| == |at| == |visited| + 1
  {
    && 0 <= at[t + 1] < |states[0].arr| + |states[0].node| &&
       KeyAt(states[0].arr, states[0].node, at[t + 1]) == visited[t]
    && visited[t] != Nil && Holds(states[t], visited[t]) != Nil
  }

  lemma SamePosition(s: Snapshot, s': Snapshot, key: TValue)
    requires SameFields(s, s') && DistinctKeys(s.node)
    ensures IndexOf(s.node, key) == IndexOf(s'.node, key)
  {
    var i, j := IndexOf(s.node, key), IndexOf(s'.node, key);
    assert i >= 0 ==> s'.node[i].key == key;
    assert j >= 0 ==> s.node[j].key == key;
  }

  lemma SameFieldsTwice(a: Snapshot, b: Snapshot, c: Snapshot)
    requires SameFields(a, b) && SameFields(b, c)
    ensures SameFields(a, c)
  {
  }

  lemma TableIsWellKeyed(t: Table)
    requires t.Valid()
    ensures WellKeyed(Snapshot(t.arr, t.node))
  {
    t.IsWellKeyed();
  }

  /** One more visit. */
  lemma OneMoreVisit(states: seq<Snapshot>, at: seq<int>, visited: seq<TValue>, s: Snapshot, q: nat, k: TValue)
    requires Begun(states, at) && Visits(states, at, visited) && WellKeyed(s) && SameFields(states[0], s)
    requires var now := states[|states| - 1];
      IsNext(now.arr, now.node, at[|at| - 1], Some(q)) && KeyAt(now.arr, now.node, q) == k && at[|at| - 1] >= -1
    requires k != Nil && Holds(states[|states| - 1], k) != Nil && q < |s.arr| + |s.node|
    ensures Begun(states + [s], at + [q]) && Visits(states + [s], at + [q], visited + [k])
  {
    hide IsNext, WellKeyed, Content;
    var states', at', visited' := states + [s], at + [q], visited + [k];
    forall t | 0 <= t < |at'| - 1 ensures NextCall(states', at', t) {
      assert t < |at| - 1 ==> NextCall(states, at, t);
    }
    forall t | 0 <= t < |visited'| ensures VisitedAt(states', at', visited', t) {
      assert t < |visited| ==> VisitedAt(states, at, visited, t);
      assert SameFields(states[0], states[|states| - 1]);
    }
  }

  lemma LastCall(states: seq<Snapshot>, at: seq<int>)
    requires Begun(states, at) && at[|at| - 1] >= -1
    requires var now := states[|states| - 1]; IsNext(now.arr, now.node, at[|at| - 1], None)
    ensures Traversal(states, at)
  {
    hide IsNext;
    assert NextCall(states, at, |at| - 1);
  }

  /** Every key that the table holds whenever `next` is called is visited, and none is visited twice. */
  lemma AllVisited(states: seq<Snapshot>, at: seq<int>, visited: seq<TValue>)
    requires Traversal(states, at) && Visits(states, at, visited)
    ensures forall i, j :: 0 <= i < j < |visited| ==> visited[i] != visited[j]
    ensures forall key :: (forall s :: s in states ==> Holds(s, key) != Nil) ==> key in visited
    ensures |visited| <= |states[0].arr| + |states[0].node|
  {
    forall i, j | 0 <= i < j < |visited| ensures visited[i] != visited[j] {
      NoKeyTwice(states, at, i + 1, j + 1);
      assert VisitedAt(states, at, visited, i) && VisitedAt(states, at, visited, j);
    }
    forall key | forall s :: s in states ==> Holds(s, key) != Nil ensures key in visited {
      forall t | 0 <= t < |states| ensures Content(states[t].arr, states[t].node, key) != Nil {
        assert states[t] in states;
      }
      KeyIsVisited(states, at, key);
      var t :| 0 < t < |at| && 0 <= at[t] < |states[0].arr| + |states[0].node| &&
        KeyAt(states[0].arr, states[0].node, at[t]) == key;
      assert VisitedAt(states, at, visited, t - 1);
    }
    TraversalEnds(states, at, |at| - 1);
  }

  lemma OneMoreProgrammed(program: Program, states: seq<Snapshot>, visited: seq<TValue>, s: Snapshot, k: TValue)
    requires |states| == |visited| + 1 && SameFields(states[|visited|], s)
    requires forall i :: 0 <= i < |visited| ==> Programmed(program, states, visited, i)
    requires forall key :: Holds(s, key) == After(states[|visited|], program(visited + [k]), key)
    ensures forall i :: 0 <= i <= |visited| ==> Programmed(program, states + [s], visited + [k], i)
  {
    hide Content, After, SameFields;
    assert Becomes(states[|visited|], program(visited + [k]), s);
    forall i | 0 <= i <= |visited| ensures Programmed(program, states + [s], visited + [k], i) {
      if i < |visited| {
        assert Programmed(program, states, visited, i);
        assert (visited + [k])[..i + 1] == visited[..i + 1];
      } else {
        assert (visited + [k])[..i + 1] == visited + [k];
      }
    }
  }

  /** `for k, v in next, t do ... end`, where the body assigns to fields that the table has. `states` are the
      tables that the calls of `next` see: the first is the table at the beginning, the last the one at the end,
      and each is what the program makes of the one before. The call in state `i` starts at position `at[i]`. It
      ends; no key is visited twice, and every key that stays in the table is visited. */
  method Traverse(t: Table, program: Program) returns (visited: seq<TValue>, ghost states: seq<Snapshot>,
      ghost at: seq<int>)
    requires t.Valid()
    modifies t
    ensures t.Valid() && Traversal(states, at) && Visits(states, at, visited)
    ensures states[0] == old(Snapshot(t.arr, t.node)) && states[|visited|] == Snapshot(t.arr, t.node)
    ensures forall i :: 0 <= i < |visited| ==> Programmed(program, states, visited, i)
    ensures forall i, j :: 0 <= i < j < |visited| ==> visited[i] != visited[j]
    ensures forall i :: 0 <= i < |visited| ==> Holds(states[i], visited[i]) != Nil
    ensures forall key :: (forall s :: s in states ==> Holds(s, key) != Nil) ==> key in visited
    ensures forall key ::
      Holds(states[0], key) != Nil && NotClearedBy(program, visited, key) ==> key in visited
    ensures |visited| <= old(|t.arr| + |t.node|)
  {
    hide Content, Table.Valid, IsNext, WellKeyed, After, SameFields, Programmed;
    at := [-1];
    var key := Nil;
    visited, states := [], [Snapshot(t.arr, t.node)];
    TableIsWellKeyed(t);
    SameAsItself(states[0]);
    while true
      invariant t.Valid() && Begun(states, at) && Visits(states, at, visited)
      invariant states[0] == old(Snapshot(t.arr, t.node)) && states[|states| - 1] == Snapshot(t.arr, t.node)
      invariant at[|at| - 1] == t.PositionOf(key) >= -1 && t.PositionOf(key) < |t.arr| + |t.node| &&
        (key == Nil || !t.IsSlotOf(NoSlot, key))
      invariant forall i :: 0 <= i < |visited| ==> Programmed(program, states, visited, i)
      decreases |states[0].arr| + |states[0].node| - at[|at| - 1]
    {
      var r := t.Next(key);
      if r.value.None? {
        LastCall(states, at);
        AllVisited(states, at, visited);
        KeptAreVisited(program, states, at, visited);
        forall i | 0 <= i < |visited| ensures Holds(states[i], visited[i]) != Nil {
          assert VisitedAt(states, at, visited, i);
        }
        return;
      }
      var k := r.value.value.0;
      ghost var q := t.PositionOf(k);
      NextIsFound(t, key, k);
      ghost var now := Snapshot(t.arr, t.node);
      Assign(t, program(visited + [k]), k);
      TableIsWellKeyed(t);
      SameFieldsTwice(states[0], now, Snapshot(t.arr, t.node));
      SameSlots(now, Snapshot(t.arr, t.node));
      OneMoreVisit(states, at, visited, Snapshot(t.arr, t.node), q, k);
      OneMoreProgrammed(program, states, visited, Snapshot(t.arr, t.node), k);
      at, states := at + [q], states + [Snapshot(t.arr, t.node)];
      visited, key := visited + [k], k;
    }
  }

  lemma SameAsItself(s: Snapshot)
    ensures SameFields(s, s)
  {
  }

  lemma SameSlots(s: Snapshot, s': Snapshot)
    requires SameFields(s, s')
    ensures |s.arr| == |s'.arr| && |s.node| == |s'.node|
  {
  }

  /** Keys that the program does not clear are visited. */
  lemma KeptAreVisited(program: Program, states: seq<Snapshot>, at: seq<int>, visited: seq<TValue>)
    requires Traversal(states, at) && Visits(states, at, visited)
    requires forall i :: 0 <= i < |visited| ==> Programmed(program, states, visited, i)
    ensures forall key ::
      Holds(states[0], key) != Nil && NotClearedBy(program, visited, key) ==> key in visited
  {
    hide Content, Programmed;
    forall key | Holds(states[0], key) != Nil && NotClearedBy(program, visited, key) ensures key in visited
    {
      forall s | s in states ensures Holds(s, key) != Nil {
        var n :| 0 <= n < |states| && states[n] == s;
        NeverCleared(program, states, visited, key, n);
      }
      AllVisited(states, at, visited);
    }
  }

  lemma NextIsFound(t: Table, key: TValue, k: TValue)
    requires t.Valid() && k != Nil && t.Lookup(k) != Nil && IsNext(t.arr, t.node, t.PositionOf(key),
      Some(t.PositionOf(k)))
    ensures t.PositionOf(k) > t.PositionOf(key) && KeyAt(t.arr, t.node, t.PositionOf(k)) == k && !t.IsSlotOf(NoSlot, k)
    ensures t.PositionOf(k) < |t.arr| + |t.node|
  {
    hide Chained;
  }

  /** The assignments of the body, to fields that the table has. */
  method Assign(t: Table, assignments: seq<(TValue, TValue)>, ghost k: TValue)
    requires t.Valid() && !t.IsSlotOf(NoSlot, k) && k != Nil
    modifies t
    ensures t.Valid() && SameFields(old(Snapshot(t.arr, t.node)), Snapshot(t.arr, t.node))
    ensures forall key :: t.Lookup(key) == After(old(Snapshot(t.arr, t.node)), assignments, key)
    ensures t.PositionOf(k) == old(t.PositionOf(k)) && !t.IsSlotOf(NoSlot, k)
  {
    hide Content, Table.Valid, After, SameFields;
    ghost var s0 := Snapshot(t.arr, t.node);
    TableIsWellKeyed(t);
    SameAsItself(s0);
    NothingAssigned(s0);
    var i := 0;
    while i < |assignments|
      invariant i <= |assignments| && t.Valid() && SameFields(s0, Snapshot(t.arr, t.node))
      invariant forall key :: t.Lookup(key) == After(s0, assignments[..i], key)
    {
      var slot := t.Get(assignments[i].0);
      ghost var s := Snapshot(t.arr, t.node);
      SamePosition(s0, s, assignments[i].0);
      SameSlots(s0, s);
      OneMoreAssigned(s0, assignments, i);
      if slot != NoSlot {
        var done := t.Set(assignments[i].0, assignments[i].1);
        SameFieldsTwice(s0, s, Snapshot(t.arr, t.node));
      }
      i := i + 1;
    }
    assert assignments[..i] == assignments;
    KeyStays(t, s0, k);
    SameSlots(s0, Snapshot(t.arr, t.node));
  }

  lemma NothingAssigned(s: Snapshot)
    ensures forall key :: After(s, [], key) == Holds(s, key)
  {
  }

  lemma OneMoreAssigned(s: Snapshot, assignments: seq<(TValue, TValue)>, i: nat)
    requires i < |assignments|
    ensures forall key ::
      After(s, assignments[..i + 1], key) ==
      if assignments[i].0 == key && HasField(s, key) then assignments[i].1 else After(s, assignments[..i], key)
  {
    assert assignments[..i + 1][..i] == assignments[..i];
  }

  lemma KeyStays(t: Table, s0: Snapshot, k: TValue)
    requires t.Valid() && WellKeyed(s0) && SameFields(s0, Snapshot(t.arr, t.node)) && k != Nil
    ensures IndexOf(t.node, k) == IndexOf(s0.node, k)
  {
    SamePosition(s0, Snapshot(t.arr, t.node), k);
  }
}
