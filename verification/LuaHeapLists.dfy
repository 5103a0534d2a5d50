/** The lists that link all objects of the heap, and the changes that the program makes to objects. */
module LuaHeapLists {
  import opened LuaBasics
  import opened LuaHeap

  // ---- which list an object is in

  /** The open upvalues of a thread, from the top of its stack to the bottom. */
  ghost predicate OpenList(body: Bodies, th: Ref)
    requires th in body && body[th].Thread?
  {
    && (forall i :: 0 <= i < |body[th].open| ==> OpenAt(body, th, body[th].open[i]))
    && (forall i, j :: 0 <= i < j < |body[th].open| ==> SlotOf(body, body[th].open[i]) > SlotOf(body, body[th].open[j]))
  }

  ghost predicate OpenAt(body: Bodies, th: Ref, uv: Ref) {
    && uv in body && body[uv].IsOpen() && body[uv].v.thread == th
    && th in body && body[th].Thread? && body[uv].v.slot < |body[th].stack|
  }

  function SlotOf(body: Bodies, uv: Ref): int {
    if uv in body && body[uv].IsOpen() then body[uv].v.slot else -1
  }

  ghost predicate InBucket(strt: seq<seq<Ref>>, r: Ref) {
    exists b :: 0 <= b < |strt| && r in strt[b]
  }

  /** Every string is in one bucket of the string table. */
  ghost predicate Buckets(body: Bodies, strt: seq<seq<Ref>>) {
    && (forall b :: 0 <= b < |strt| ==> Distinct(strt[b]))
    && (forall b, r :: 0 <= b < |strt| && r in strt[b] ==> r in body && body[r].TString?)
    && (forall b, b', r :: 0 <= b < b' < |strt| && r in strt[b] ==> r !in strt[b'])
    && (forall r :: r in body && body[r].TString? ==> InBucket(strt, r))
  }

  /** Every open upvalue is in the list of its thread and in the list of all open upvalues. */
  ghost predicate OpenUpvalues(body: Bodies, uvhead: seq<Ref>) {
    && Distinct(uvhead)
    && (forall r :: r in uvhead ==> r in body && body[r].IsOpen())
    && (forall r :: r in body && body[r].IsOpen() ==>
       r in uvhead && OpenAt(body, body[r].v.thread, r) && r in body[body[r].v.thread].open)
    && (forall th :: th in body && body[th].Thread? ==> OpenList(body, th))
  }

  /** Objects that are linked from `rootgc`. */
  predicate Rooted(b: Body) { !b.TString? && !b.IsOpen() }

  /** Every other object is in the root list, or waits for its finalizer. */
  ghost predicate RootList(body: Bodies, rootgc: seq<Ref>, udata: seq<Ref>, tmu: seq<Ref>) {
    && Distinct(rootgc + udata + tmu)
    && (forall r :: r in rootgc ==> r in body && Rooted(body[r]) && !body[r].Userdata?)
    && (forall r :: r in udata || r in tmu ==> r in body && body[r].Userdata?)
    && (forall r :: r in body && Rooted(body[r]) ==> r in rootgc || r in udata || r in tmu)
  }

  ghost predicate Linked(body: Bodies, rootgc: seq<Ref>, udata: seq<Ref>, tmu: seq<Ref>, strt: seq<seq<Ref>>,
      uvhead: seq<Ref>) {
    RootList(body, rootgc, udata, tmu) && Buckets(body, strt) && OpenUpvalues(body, uvhead)
  }

  // ---- a change to an object that is not a thread

  /** The object at `o` gets a new body, which refers to nothing new but the values in `vs`. */
  ghost predicate Stored(body: Bodies, o: Ref, b: Body, vs: seq<Value>) {
    && o in body && !body[o].Thread? && !body[o].IsOpen() && !b.IsOpen()
    && (b.Table? <==> body[o].Table?) && (b.UpVal? <==> body[o].UpVal?) && (b.Userdata? <==> body[o].Userdata?)
    && (b.Closure? <==> body[o].Closure?) && (b.Proto? <==> body[o].Proto?) && (b.TString? <==> body[o].TString?)
    && (forall c :: Refers(body[o := b], o, c) ==> Refers(body, o, c) || Gco(c) in vs)
  }

  ghost predicate AliveValues(color: Colors, white: bool, vs: seq<Value>) {
    forall i :: 0 <= i < |vs| ==> AliveValue(color, white, vs[i])
  }

  ghost predicate ValuesIn(color: Colors, vs: seq<Value>) {
    forall i :: 0 <= i < |vs| && vs[i].Gco? ==> vs[i].ref in color
  }

  ghost predicate OkValues(color: Colors, tmu: seq<Ref>, vs: seq<Value>) {
    forall i :: 0 <= i < |vs| && vs[i].Gco? ==> Ok(color, tmu, vs[i].ref)
  }

  lemma OthersRefer(body: Bodies, o: Ref, b: Body, vs: seq<Value>, r: Ref, c: Ref)
    requires Stored(body, o, b, vs) && r in body && r != o
    ensures Refers(body[o := b], r, c) == Refers(body, r, c)
  {
  }

  lemma StoredIsSafe(body: Bodies, color: Colors, white: bool, o: Ref, b: Body, vs: seq<Value>)
    requires Safe(body, color, white) && Stored(body, o, b, vs) && AliveValues(color, white, vs)
    ensures Safe(body[o := b], color, white)
  {
    var body' := body[o := b];
    forall r | r in body' && Alive(color, white, r) ensures AllAlive(body', color, white, r) {
      assert AllAlive(body, color, white, r);
      forall c | Refers(body', r, c) ensures Alive(color, white, c) {
        if r != o {
          OthersRefer(body, o, b, vs, r, c);
        }
      }
    }
  }

  lemma StoredIsLinked(body: Bodies, rootgc: seq<Ref>, udata: seq<Ref>, tmu: seq<Ref>, strt: seq<seq<Ref>>,
      uvhead: seq<Ref>, o: Ref, b: Body, vs: seq<Value>)
    requires Linked(body, rootgc, udata, tmu, strt, uvhead) && Stored(body, o, b, vs)
    ensures Linked(body[o := b], rootgc, udata, tmu, strt, uvhead)
  {
    hide OpenUpvalues;
    SameKindsUpvalues(body, body[o := b], uvhead);
    assert Buckets(body[o := b], strt);
    assert RootList(body[o := b], rootgc, udata, tmu);
  }

  /** Threads and open upvalues are as they were, except perhaps for what the stacks hold. */
  lemma SameKindsUpvalues(body: Bodies, body': Bodies, uvhead: seq<Ref>)
    requires OpenUpvalues(body, uvhead)
    requires forall r :: r in body' ==> r in body
    requires forall r :: r in body && (body[r].IsOpen() || body[r].Thread?) ==>
      r in body' && SameUpvalues(body, body[r], body'[r])
    requires forall r :: r in body' && !body[r].IsOpen() && !body[r].Thread? ==> !body'[r].IsOpen() && !body'[r].Thread?
    ensures OpenUpvalues(body', uvhead)
  {
    forall th | th in body' && body'[th].Thread? ensures OpenList(body', th) {
      assert OpenList(body, th);
      assert SameUpvalues(body, body[th], body'[th]);
      forall i | 0 <= i < |body'[th].open|
        ensures OpenAt(body', th, body'[th].open[i]) && SlotOf(body', body'[th].open[i]) ==
          SlotOf(body, body[th].open[i])
      {
        assert OpenAt(body, th, body[th].open[i]);
      }
    }
    forall r | r in body' && body'[r].IsOpen()
      ensures r in uvhead && OpenAt(body', body'[r].v.thread, r) && r in body'[body'[r].v.thread].open
    {
      assert OpenAt(body, body[r].v.thread, r);
      var th := body[r].v.thread;
      assert SameUpvalues(body, body[th], body'[th]);
    }
  }

  ghost predicate SameUpvalues(body: Bodies, b: Body, b': Body) {
    if b.Thread? then
      && b'.Thread? && b'.open == b.open
      && (|b'.stack| >= |b.stack| || forall i :: 0 <= i < |b.open| ==> SlotOf(body, b.open[i]) < |b'.stack|)
    else b' == b
  }

  /** The mark phase goes on after a store, as long as the object is looked at again or was not black. */
  lemma StoredWhileMarking(body: Bodies, color: Colors, white: bool, lists: seq<Ref>, tmu: seq<Ref>, done: set<Ref>,
      o: Ref, b: Body, vs: seq<Value>)
    requires MarkPhase(body, color, white, lists, tmu, done, {}) && Stored(body, o, b, vs) && ValuesIn(color, vs)
    ensures !color[o].White? ==> MarkPhase(body[o := b], color, white, lists, tmu, {}, {o})
    ensures !color[o].Black? || OkValues(color, tmu, vs) ==> MarkPhase(body[o := b], color, white, lists, tmu, {}, {})
  {
    var body' := body[o := b];
    assert Whole(body') by {
      forall r, c | r in body' && Refers(body', r, c) ensures c in body' {
        if r != o {
          OthersRefer(body, o, b, vs, r, c);
        }
      }
    }
    assert GrayLists(body', color, lists, {});
    forall r | r in body && r in color && color[r].Black? && r !in tmu
      ensures r != o || OkValues(color, tmu, vs) ==> AllOk(body', color, tmu, r)
    {
      assert AllOk(body, color, tmu, r);
      forall c | Refers(body', r, c) && (r != o || OkValues(color, tmu, vs)) ensures Ok(color, tmu, c) {
        if r != o {
          OthersRefer(body, o, b, vs, r, c);
        }
      }
    }
  }

  /** The table that was black is in the list of objects to be traversed again. */
  lemma GrayAgain(body: Bodies, color: Colors, white: bool, gray: seq<Ref>, grayagain: seq<Ref>, weak: seq<Ref>,
      tmu: seq<Ref>, o: Ref)
    requires MarkPhase(body, color, white, gray + grayagain + weak, tmu, {}, {o}) && color[o].Black? &&
      body[o].Table? && o !in gray + grayagain + weak
    ensures MarkPhase(body, color[o := Gray], white, gray + ([o] + grayagain) + weak, tmu, {}, {})
  {
    hide AllOk, StrongOk;
    assert gray + grayagain + weak == gray + (grayagain + weak);
    assert gray + ([o] + grayagain) + weak == gray + [o] + (grayagain + weak);
    InsertDistinct(gray, grayagain + weak, o);
    var color', lists := color[o := Gray], gray + ([o] + grayagain) + weak;
    assert GrayLists(body, color', lists, {});
    assert forall r :: r in color && !color[r].White? ==> !color'[r].White?;
    forall r | r in body && color'[r].Black? && r !in tmu ensures AllOk(body, color', tmu, r) {
      assert AllOk(body, color, tmu, r);
      OkStaysMarked(body, color, color', tmu, r);
    }
  }

  lemma OkStaysMarked(body: Bodies, color: Colors, color': Colors, tmu: seq<Ref>, r: Ref)
    requires r in body && AllOk(body, color, tmu, r) && color'.Keys == color.Keys && forall x ::
      x in color && !color[x].White? ==> !color'[x].White?
    ensures AllOk(body, color', tmu, r)
  {
  }

  /** Marking the new value restores the invariant. */
  lemma BarrierDone(body: Bodies, color: Colors, white: bool, lists: seq<Ref>, tmu: seq<Ref>, done: set<Ref>, o: Ref)
    requires MarkPhase(body, color, white, lists, tmu, done, {o}) && color[o].Black? && o !in lists &&
      !body[o].Thread? && !body[o].IsOpen()
    requires o in tmu || AllOk(body, color, tmu, o)
    ensures MarkPhase(body, color, white, lists, tmu, {}, {})
  {
    assert GrayLists(body, color, lists, {});
    forall r | r in body && color[r].Black? && r !in tmu ensures AllOk(body, color, tmu, r) {
      if r != o {
        assert AllOk(body, color, tmu, r);
      }
    }
  }

  lemma StoredOk(body: Bodies, color: Colors, color': Colors, tmu: seq<Ref>, o: Ref, b: Body, vs: seq<Value>)
    requires Stored(body, o, b, vs) && AllOk(body, color, tmu, o) && Darker(color, color') && OkValues(color', tmu, vs)
    ensures AllOk(body[o := b], color', tmu, o)
  {
  }

  // ---- a change to the stack of a thread

  /** The stack of `th` changes; every value it now has was there before, or is `v`. */
  ghost predicate Restacked(body: Bodies, th: Ref, stack: seq<Value>, v: Value) {
    && th in body && body[th].Thread?
    && (forall i :: 0 <= i < |stack| ==> stack[i] == v || stack[i] in body[th].stack)
    && (forall i :: 0 <= i < |body[th].open| ==> SlotOf(body, body[th].open[i]) < |stack|)
  }

  function WithStack(body: Bodies, th: Ref, stack: seq<Value>): Bodies
    requires th in body && body[th].Thread?
  {
    body[th := body[th].(stack := stack)]
  }

  /** Objects see the change only through the upvalues that are open on the stack. */
  lemma OthersReferPastStack(body: Bodies, th: Ref, stack: seq<Value>, v: Value, r: Ref, c: Ref)
    requires Restacked(body, th, stack, v) && r in body && Refers(WithStack(body, th, stack), r, c)
    ensures Refers(body, r, c) || Gco(c) in body[th].stack || v == Gco(c)
    ensures r != th && !body[r].IsOpen() ==> Refers(body, r, c)
  {
  }

  lemma RestackedIsSafe(body: Bodies, color: Colors, white: bool, th: Ref, stack: seq<Value>, v: Value)
    requires Safe(body, color, white) && Restacked(body, th, stack, v) && Alive(color, white, th) &&
      AliveValue(color, white, v)
    ensures Safe(WithStack(body, th, stack), color, white)
  {
    var body' := WithStack(body, th, stack);
    assert AllAlive(body, color, white, th);
    assert forall c :: Gco(c) in body[th].stack ==> Refers(body, th, c);
    forall r | r in body' && Alive(color, white, r) ensures AllAlive(body', color, white, r) {
      assert AllAlive(body, color, white, r);
      forall c | Refers(body', r, c) ensures Alive(color, white, c) {
        OthersReferPastStack(body, th, stack, v, r, c);
      }
    }
  }

  /** One slot may change even in the stack of a dead thread: an upvalue may still be open on it. */
  lemma SlotIsSafe(body: Bodies, color: Colors, white: bool, th: Ref, i: nat, v: Value)
    requires Safe(body, color, white) && th in body && body[th].Thread? && i < |body[th].stack| &&
      AliveValue(color, white, v)
    ensures Safe(WithStack(body, th, body[th].stack[i := v]), color, white)
  {
    var body' := WithStack(body, th, body[th].stack[i := v]);
    forall r | r in body' && Alive(color, white, r) ensures AllAlive(body', color, white, r) {
      assert AllAlive(body, color, white, r);
      forall c | Refers(body', r, c) ensures Alive(color, white, c) {
        assert Refers(body, r, c) || v == Gco(c);
      }
    }
  }

  lemma RestackedIsLinked(body: Bodies, rootgc: seq<Ref>, udata: seq<Ref>, tmu: seq<Ref>, strt: seq<seq<Ref>>,
      uvhead: seq<Ref>, th: Ref, stack: seq<Value>, v: Value)
    requires Linked(body, rootgc, udata, tmu, strt, uvhead) && Restacked(body, th, stack, v)
    ensures Linked(WithStack(body, th, stack), rootgc, udata, tmu, strt, uvhead)
  {
    hide OpenUpvalues;
    var body' := WithStack(body, th, stack);
    SameKindsUpvalues(body, body', uvhead);
    assert Buckets(body', strt);
    assert RootList(body', rootgc, udata, tmu);
  }

  /** Threads and open upvalues are never black: no barrier is needed. */
  lemma RestackedWhileMarking(body: Bodies, color: Colors, white: bool, lists: seq<Ref>, tmu: seq<Ref>, done: set<Ref>,
      th: Ref, stack: seq<Value>, v: Value)
    requires MarkPhase(body, color, white, lists, tmu, done, {}) && Restacked(body, th, stack, v) &&
      (v.Gco? ==> v.ref in color)
    ensures MarkPhase(WithStack(body, th, stack), color, white, lists, tmu, {}, {})
  {
    var body' := WithStack(body, th, stack);
    assert forall c :: Gco(c) in body[th].stack ==> Refers(body, th, c);
    forall r, c | r in body' && Refers(body', r, c) ensures c in body' {
      OthersReferPastStack(body, th, stack, v, r, c);
    }
    assert GrayLists(body', color, lists, {});
    forall r | r in body && color[r].Black? && r !in tmu ensures AllOk(body', color, tmu, r) {
      assert AllOk(body, color, tmu, r);
      forall c | Refers(body', r, c) ensures Ok(color, tmu, c) {
        OthersReferPastStack(body, th, stack, v, r, c);
      }
    }
  }

  // ---- a change of the globals of a thread

  function WithGlobals(body: Bodies, th: Ref, env: Value): Bodies
    requires th in body && body[th].Thread?
  {
    body[th := body[th].(globals := env)]
  }

  lemma RefersWithGlobals(body: Bodies, th: Ref, env: Value, r: Ref, c: Ref)
    requires th in body && body[th].Thread? && r in body && Refers(WithGlobals(body, th, env), r, c)
    ensures Refers(body, r, c) || (r == th && env == Gco(c))
  {
  }

  lemma GlobalsAreSafe(body: Bodies, color: Colors, white: bool, th: Ref, env: Value)
    requires Safe(body, color, white) && th in body && body[th].Thread? && AliveValue(color, white, env)
    ensures Safe(WithGlobals(body, th, env), color, white)
  {
    hide Refers;
    var body' := WithGlobals(body, th, env);
    forall r | r in body' && Alive(color, white, r) ensures AllAlive(body', color, white, r) {
      assert AllAlive(body, color, white, r);
      forall c | Refers(body', r, c) ensures Alive(color, white, c) {
        RefersWithGlobals(body, th, env, r, c);
      }
    }
  }

  lemma GlobalsAreLinked(body: Bodies, rootgc: seq<Ref>, udata: seq<Ref>, tmu: seq<Ref>, strt: seq<seq<Ref>>,
      uvhead: seq<Ref>, th: Ref, env: Value)
    requires Linked(body, rootgc, udata, tmu, strt, uvhead) && th in body && body[th].Thread?
    ensures Linked(WithGlobals(body, th, env), rootgc, udata, tmu, strt, uvhead)
  {
    hide OpenUpvalues;
    var body' := WithGlobals(body, th, env);
    SameKindsUpvalues(body, body', uvhead);
    assert Buckets(body', strt);
    assert RootList(body', rootgc, udata, tmu);
  }

  /** Threads are never black: no barrier is needed. */
  lemma GlobalsWhileMarking(body: Bodies, color: Colors, white: bool, lists: seq<Ref>, tmu: seq<Ref>, done: set<Ref>,
      th: Ref, env: Value)
    requires MarkPhase(body, color, white, lists, tmu, done, {}) && th in body && body[th].Thread? &&
      (env.Gco? ==> env.ref in color)
    ensures MarkPhase(WithGlobals(body, th, env), color, white, lists, tmu, {}, {})
  {
    hide Refers;
    var body' := WithGlobals(body, th, env);
    forall r, c | r in body' && Refers(body', r, c) ensures c in body' {
      RefersWithGlobals(body, th, env, r, c);
    }
    assert GrayLists(body', color, lists, {});
    forall r | r in body && color[r].Black? && r !in tmu ensures AllOk(body', color, tmu, r) {
      assert AllOk(body, color, tmu, r);
      forall c | Refers(body', r, c) ensures Ok(color, tmu, c) {
        RefersWithGlobals(body, th, env, r, c);
      }
    }
  }

  // ---- a new object

  /** A new object at `n` refers to live objects only, and no upvalue is open on it. */
  ghost predicate Created(body: Bodies, color: Colors, white: bool, n: Ref, b: Body) {
    && n !in body && body.Keys == color.Keys && !b.IsOpen() && (b.Thread? ==> b.open == [])
    && (forall c :: Refers(body[n := b], n, c) ==> Alive(color, white, c))
  }

  lemma CreatedIsSafe(body: Bodies, color: Colors, white: bool, n: Ref, b: Body)
    requires Safe(body, color, white) && Created(body, color, white, n, b)
    requires forall r :: r in body && body[r].IsOpen() ==> body[r].v.thread in body
    ensures Safe(body[n := b], color[n := White(white)], white)
  {
    var body', color' := body[n := b], color[n := White(white)];
    forall r | r in body' && Alive(color', white, r) ensures AllAlive(body', color', white, r) {
      if r != n {
        assert AllAlive(body, color, white, r);
        forall c | Refers(body', r, c) ensures Alive(color', white, c) {
          assert Refers(body, r, c);
        }
      } else {
        assert forall c :: Refers(body', n, c) ==> Alive(color, white, c);
      }
    }
  }

  lemma CreatedUpvalues(body: Bodies, color: Colors, white: bool, uvhead: seq<Ref>, n: Ref, b: Body)
    requires OpenUpvalues(body, uvhead) && Created(body, color, white, n, b)
    ensures OpenUpvalues(body[n := b], uvhead)
  {
    var body' := body[n := b];
    forall th | th in body' && body'[th].Thread? ensures OpenList(body', th) {
      if th != n {
        assert OpenList(body, th);
        forall i | 0 <= i < |body'[th].open| ensures OpenAt(body', th, body'[th].open[i]) {
          assert OpenAt(body, th, body[th].open[i]);
        }
      }
    }
    forall r | r in body' && body'[r].IsOpen() ensures OpenAt(body', body'[r].v.thread, r) {
      assert OpenAt(body, body[r].v.thread, r);
    }
  }

  lemma CreatedIsLinked(body: Bodies, color: Colors, white: bool, rootgc: seq<Ref>, udata: seq<Ref>, tmu: seq<Ref>,
      strt: seq<seq<Ref>>, uvhead: seq<Ref>, n: Ref, b: Body)
    requires Linked(body, rootgc, udata, tmu, strt, uvhead) && Created(body, color, white, n, b) && !b.TString?
    ensures !b.Userdata? ==> Linked(body[n := b], [n] + rootgc, udata, tmu, strt, uvhead)
    ensures b.Userdata? ==> Linked(body[n := b], rootgc, [n] + udata, tmu, strt, uvhead)
  {
    CreatedUpvalues(body, color, white, uvhead, n, b);
    NewInRoot(body, rootgc, udata, tmu, n, b);
    hide RootList, OpenUpvalues;
    assert Buckets(body[n := b], strt);
  }

  lemma NewInRoot(body: Bodies, rootgc: seq<Ref>, udata: seq<Ref>, tmu: seq<Ref>, n: Ref, b: Body)
    requires RootList(body, rootgc, udata, tmu) && n !in body && Rooted(b)
    ensures !b.Userdata? ==> RootList(body[n := b], [n] + rootgc, udata, tmu)
    ensures b.Userdata? ==> RootList(body[n := b], rootgc, [n] + udata, tmu)
  {
    if b.Userdata? {
      assert rootgc + udata + tmu == rootgc + (udata + tmu);
      InsertDistinct(rootgc, udata + tmu, n);
      assert rootgc + ([n] + udata) + tmu == rootgc + [n] + (udata + tmu);
    } else {
      assert [] + (rootgc + udata + tmu) == rootgc + udata + tmu;
      InsertDistinct([], rootgc + udata + tmu, n);
      assert ([n] + rootgc) + udata + tmu == [] + [n] + (rootgc + udata + tmu);
    }
  }

  lemma NewStringIsLinked(body: Bodies, color: Colors, white: bool, rootgc: seq<Ref>, udata: seq<Ref>, tmu: seq<Ref>,
      strt: seq<seq<Ref>>, uvhead: seq<Ref>, n: Ref, h: nat)
    requires Linked(body, rootgc, udata, tmu, strt, uvhead) && Created(body, color, white, n, TString) && h < |strt|
    ensures Linked(body[n := TString], rootgc, udata, tmu, strt[h := [n] + strt[h]], uvhead)
  {
    CreatedUpvalues(body, color, white, uvhead, n, TString);
    NewInBucket(body, strt, n, h);
    assert RootList(body[n := TString], rootgc, udata, tmu);
  }

  lemma NewInBucket(body: Bodies, strt: seq<seq<Ref>>, n: Ref, h: nat)
    requires Buckets(body, strt) && n !in body && h < |strt|
    ensures Buckets(body[n := TString], strt[h := [n] + strt[h]])
  {
    var strt' := strt[h := [n] + strt[h]];
    assert forall b, r :: 0 <= b < |strt| ==> (r in strt'[b] <==> r in strt[b] || (b == h && r == n));
    forall r | r in body[n := TString] && body[n := TString][r].TString? ensures InBucket(strt', r) {
      if r == n {
        assert r in strt'[h];
      } else {
        assert InBucket(strt, r);
        var b :| 0 <= b < |strt| && r in strt[b];
        assert r in strt'[b];
      }
    }
    assert Distinct(strt'[h]);
  }

  lemma CreatedWhileMarking(body: Bodies, color: Colors, white: bool, lists: seq<Ref>, tmu: seq<Ref>, done: set<Ref>,
      n: Ref, b: Body)
    requires MarkPhase(body, color, white, lists, tmu, done, {}) && Created(body, color, white, n, b)
    requires forall r :: r in body && body[r].IsOpen() ==> body[r].v.thread in body
    ensures MarkPhase(body[n := b], color[n := White(white)], white, lists, tmu, {}, {})
  {
    hide Refers, GrayLists, NoBlackToWhite;
    var body' := body[n := b];
    OldReferences(body, n, b);
    forall r, c | r in body' && Refers(body', r, c) ensures c in body' {
      if r == n {
        assert Alive(color, white, c);
      }
    }
    CreatedGrayLists(body, color, white, lists, n, b);
    NothingDone(body, color, white, lists, tmu, done, {});
    OpenedBlack(body, body', color, white, tmu, n);
  }

  lemma CreatedGrayLists(body: Bodies, color: Colors, white: bool, lists: seq<Ref>, n: Ref, b: Body)
    requires GrayLists(body, color, lists, {}) && n !in body
    ensures GrayLists(body[n := b], color[n := White(white)], lists, {})
  {
  }

  lemma OldReferences(body: Bodies, n: Ref, b: Body)
    requires n !in body && forall r :: r in body && body[r].IsOpen() ==> body[r].v.thread in body
    ensures forall r, c :: r in body && Refers(body[n := b], r, c) ==> Refers(body, r, c)
  {
  }

  // ---- an object is freed

  lemma FreedIsSafe(body: Bodies, color: Colors, white: bool, r: Ref)
    requires Safe(body, color, white) && r in color && color[r] == White(!white)
    requires forall x :: x in body && body[x].IsOpen() ==> body[x].v.thread != r
    ensures Safe(body - {r}, color - {r}, white)
  {
    var body', color' := body - {r}, color - {r};
    forall x | x in body' && Alive(color', white, x) ensures AllAlive(body', color', white, x) {
      assert AllAlive(body, color, white, x);
      forall c | Refers(body', x, c) ensures Alive(color', white, c) {
        assert Refers(body, x, c);
      }
    }
  }

  /** Removing an object that is not linked to upvalues. */
  lemma FreedUpvalues(body: Bodies, uvhead: seq<Ref>, r: Ref)
    requires OpenUpvalues(body, uvhead) && r in body && !body[r].IsOpen() && (body[r].Thread? ==> body[r].open == [])
    ensures OpenUpvalues(body - {r}, uvhead)
    ensures forall x :: x in body && body[x].IsOpen() ==> body[x].v.thread != r
  {
    var body' := body - {r};
    forall x | x in body && body[x].IsOpen() ensures body[x].v.thread != r &&
      (x in body' ==> OpenAt(body', body[x].v.thread, x)) {
      assert OpenAt(body, body[x].v.thread, x);
    }
    forall th | th in body' && body'[th].Thread? ensures OpenList(body', th) {
      assert OpenList(body, th);
      forall i | 0 <= i < |body'[th].open| ensures OpenAt(body', th, body'[th].open[i]) {
        assert OpenAt(body, th, body[th].open[i]);
      }
    }
  }

  function Removed(s: seq<Ref>, i: nat): seq<Ref>
    requires i < |s|
  {
    s[..i] + s[i + 1..]
  }

  lemma RemoveDistinct(s: seq<Ref>, i: nat)
    requires Distinct(s) && i < |s|
    ensures Distinct(Removed(s, i)) && forall x :: x in Removed(s, i) <==> x in s && x != s[i]
  {
    forall x | x in s && x != s[i] ensures x in Removed(s, i) {
      var j :| 0 <= j < |s| && s[j] == x;
      assert Removed(s, i)[if j < i then j else j - 1] == x;
    }
    assert forall j :: 0 <= j < |Removed(s, i)| ==> Removed(s, i)[j] == s[if j < i then j else j + 1];
  }

  lemma FreedFromRoot(body: Bodies, rootgc: seq<Ref>, udata: seq<Ref>, tmu: seq<Ref>, strt: seq<seq<Ref>>,
      uvhead: seq<Ref>, i: nat)
    requires Linked(body, rootgc, udata, tmu, strt, uvhead) && i < |rootgc + udata|
    requires var r := (rootgc + udata)[i]; body[r].Thread? ==> body[r].open == []
    ensures var r := (rootgc + udata)[i]; r in body && Rooted(body[r])
    ensures i < |rootgc| ==> Linked(body - {rootgc[i]}, Removed(rootgc, i), udata, tmu, strt, uvhead)
    ensures i >= |rootgc| ==>
      Linked(body - {udata[i - |rootgc|]}, rootgc, Removed(udata, i - |rootgc|), tmu, strt, uvhead)
    ensures forall x :: x in body && body[x].IsOpen() ==> body[x].v.thread != (rootgc + udata)[i]
  {
    hide OpenUpvalues, Buckets, RootList;
    var r := (rootgc + udata)[i];
    RootedAt(body, rootgc, udata, tmu, i);
    FreedUpvalues(body, uvhead, r);
    BucketsWithout(body, strt, r);
    RootListWithout(body, rootgc, udata, tmu, i);
  }

  lemma RootedAt(body: Bodies, rootgc: seq<Ref>, udata: seq<Ref>, tmu: seq<Ref>, i: nat)
    requires RootList(body, rootgc, udata, tmu) && i < |rootgc + udata|
    ensures (rootgc + udata)[i] in body && Rooted(body[(rootgc + udata)[i]])
  {
    assert (rootgc + udata + tmu)[i] == (rootgc + udata)[i];
  }

  lemma BucketsWithout(body: Bodies, strt: seq<seq<Ref>>, r: Ref)
    requires Buckets(body, strt) && r in body && !body[r].TString?
    ensures Buckets(body - {r}, strt)
  {
  }

  lemma RootListWithout(body: Bodies, rootgc: seq<Ref>, udata: seq<Ref>, tmu: seq<Ref>, i: nat)
    requires RootList(body, rootgc, udata, tmu) && i < |rootgc + udata|
    ensures i < |rootgc| ==> RootList(body - {rootgc[i]}, Removed(rootgc, i), udata, tmu)
    ensures i >= |rootgc| ==> RootList(body - {udata[i - |rootgc|]}, rootgc, Removed(udata, i - |rootgc|), tmu)
  {
    hide RootList;
    if i < |rootgc| {
      WithoutRoot(body, rootgc, udata, tmu, i);
    } else {
      WithoutUserdata(body, rootgc, udata, tmu, i - |rootgc|);
    }
  }

  lemma WithoutRoot(body: Bodies, rootgc: seq<Ref>, udata: seq<Ref>, tmu: seq<Ref>, i: nat)
    requires RootList(body, rootgc, udata, tmu) && i < |rootgc|
    ensures RootList(body - {rootgc[i]}, Removed(rootgc, i), udata, tmu)
  {
    var all := rootgc + udata + tmu;
    assert all[i] == rootgc[i];
    RemoveDistinct(all, i);
    assert Removed(all, i) == Removed(rootgc, i) + udata + tmu;
    assert rootgc + (udata + tmu) == all;
    PrefixDistinct(rootgc, udata + tmu);
    RemoveDistinct(rootgc, i);
  }

  lemma WithoutUserdata(body: Bodies, rootgc: seq<Ref>, udata: seq<Ref>, tmu: seq<Ref>, j: nat)
    requires RootList(body, rootgc, udata, tmu) && j < |udata|
    ensures RootList(body - {udata[j]}, rootgc, Removed(udata, j), tmu)
  {
    var all, i := rootgc + udata + tmu, |rootgc| + j;
    assert all[i] == udata[j];
    RemoveDistinct(all, i);
    assert Removed(all, i) == rootgc + Removed(udata, j) + tmu;
    assert rootgc + (udata + tmu) == all;
    PrefixDistinct(rootgc, udata + tmu);
    MiddleDistinct(rootgc, udata, tmu);
    RemoveDistinct(udata, j);
    assert forall x :: x in rootgc || x in tmu ==> x in Removed(all, i);
  }

  lemma MiddleDistinct(a: seq<Ref>, b: seq<Ref>, c: seq<Ref>)
    requires Distinct(a + b + c)
    ensures Distinct(b)
  {
    assert forall i :: 0 <= i < |b| ==> b[i] == (a + b + c)[|a| + i];
  }

  lemma PrefixDistinct(a: seq<Ref>, b: seq<Ref>)
    requires Distinct(a + b)
    ensures Distinct(a) && forall x :: x in a ==> x !in b
  {
    assert forall i :: 0 <= i < |a| ==> a[i] == (a + b)[i];
    assert forall i :: 0 <= i < |b| ==> b[i] == (a + b)[|a| + i];
  }

  lemma FreedFromBucket(body: Bodies, rootgc: seq<Ref>, udata: seq<Ref>, tmu: seq<Ref>, strt: seq<seq<Ref>>,
      uvhead: seq<Ref>, h: nat, i: nat)
    requires Linked(body, rootgc, udata, tmu, strt, uvhead) && h < |strt| && i < |strt[h]|
    ensures strt[h][i] in body && body[strt[h][i]].TString?
    ensures Linked(body - {strt[h][i]}, rootgc, udata, tmu, strt[h := Removed(strt[h], i)], uvhead)
  {
    var r, strt' := strt[h][i], strt[h := Removed(strt[h], i)];
    FreedUpvalues(body, uvhead, r);
    RemoveDistinct(strt[h], i);
    forall x | x in body - {r} && body[x].TString? ensures InBucket(strt', x) {
      assert InBucket(strt, x);
      var b :| 0 <= b < |strt| && x in strt[b];
      assert x in strt'[b];
    }
    assert forall b :: 0 <= b < |strt| && b != h ==> r !in strt[b];
    assert Buckets(body - {r}, strt');
    assert RootList(body - {r}, rootgc, udata, tmu);
  }

  // ---- upvalues are opened and closed

  /** The open list of a thread loses the upvalue at position `i`. */
  function Unlinked(body: Bodies, th: Ref, i: nat): Bodies
    requires th in body && body[th].Thread? && i < |body[th].open|
  {
    body[th := body[th].(open := Removed(body[th].open, i))]
  }

  lemma UnlinkedLists(body: Bodies, body': Bodies, uvhead: seq<Ref>, th: Ref, i: nat, k: nat)
    requires OpenUpvalues(body, uvhead) && th in body && body[th].Thread? && i < |body[th].open|
    requires k < |uvhead| && uvhead[k] == body[th].open[i] && body[th].open[i] != th
    requires body' == Unlinked(body, th, i) - {body[th].open[i]}
      || (body[th].open[i] in body' && body'[body[th].open[i]].UpVal? && !body'[body[th].open[i]].IsOpen()
          && body' == Unlinked(body, th, i)[body[th].open[i] := body'[body[th].open[i]]])
    ensures OpenUpvalues(body', Removed(uvhead, k))
  {
    var uv := body[th].open[i];
    assert OpenList(body, th);
    RemoveDistinct(uvhead, k);
    StillListed(body, body', uvhead, th, i, k);
    forall t | t in body' && body'[t].Thread? ensures OpenList(body', t) {
      assert OpenList(body, t);
      UnlinkedList(body, body', th, i, t);
    }
  }

  /** The other upvalues are still open, and in their lists. */
  lemma StillListed(body: Bodies, body': Bodies, uvhead: seq<Ref>, th: Ref, i: nat, k: nat)
    requires OpenUpvalues(body, uvhead) && th in body && body[th].Thread? && i < |body[th].open|
    requires k < |uvhead| && uvhead[k] == body[th].open[i] && body[th].open[i] != th
    requires body' == Unlinked(body, th, i) - {body[th].open[i]}
      || (body[th].open[i] in body' && body'[body[th].open[i]].UpVal? && !body'[body[th].open[i]].IsOpen()
          && body' == Unlinked(body, th, i)[body[th].open[i] := body'[body[th].open[i]]])
    ensures forall r :: r in body' && body'[r].IsOpen() ==>
      r in Removed(uvhead, k) && OpenAt(body', body'[r].v.thread, r) && r in body'[body'[r].v.thread].open
  {
    hide OpenList;
    var uv := body[th].open[i];
    OpenIsDistinct(body, th) by {
      assert OpenList(body, th);
    }
    RemoveDistinct(uvhead, k);
    RemoveDistinct(body[th].open, i);
    forall r | r in body' && body'[r].IsOpen()
      ensures r in Removed(uvhead, k) && OpenAt(body', body'[r].v.thread, r) && r in body'[body'[r].v.thread].open
    {
      assert r != uv && body'[r] == body[r];
      assert OpenAt(body, body[r].v.thread, r);
    }
  }

  lemma OpenIsDistinct(body: Bodies, th: Ref)
    requires th in body && body[th].Thread? && OpenList(body, th)
    ensures Distinct(body[th].open)
  {
  }

  lemma UnlinkedList(body: Bodies, body': Bodies, th: Ref, i: nat, t: Ref)
    requires th in body && body[th].Thread? && i < |body[th].open| && OpenList(body, th)
    requires t in body && body[t].Thread? && OpenList(body, t) && t in body' && body'[t].Thread?
    requires forall r :: r in body && r != th && r != body[th].open[i] ==> r in body' && body'[r] == body[r]
    requires th in body' && body'[th] == Unlinked(body, th, i)[th]
    ensures OpenList(body', t)
  {
    OpenIsDistinct(body, th);
    forall j | 0 <= j < |body'[t].open| ensures OpenAt(body', t, body'[t].open[j]) &&
      SlotOf(body', body'[t].open[j]) == SlotOf(body, body'[t].open[j]) {
      var j0 := if t == th && j >= i then j + 1 else j;
      assert body'[t].open[j] == body[t].open[j0];
      assert OpenAt(body, t, body[t].open[j0]);
      if t != th {
        assert OpenAt(body, th, body[th].open[i]);
      }
    }
  }

  /** The first upvalue of the open list is closed: it has its value in itself. */
  function ClosedFirst(body: Bodies, th: Ref): Bodies
    requires th in body && body[th].Thread? && body[th].open != []
    requires body[th].open[0] in body && body[body[th].open[0]].UpVal?
  {
    var uv := body[th].open[0];
    Unlinked(body, th, 0)[uv := UpVal(Closed(ValueOf(body, body[uv].v)))]
  }

  /** Both heaps have the same references. */
  ghost predicate SameReferences(body: Bodies, body': Bodies) {
    body'.Keys == body.Keys && forall r, c :: r in body ==> Refers(body', r, c) == Refers(body, r, c)
  }

  lemma ClosedKeepsReferences(body: Bodies, th: Ref)
    requires th in body && body[th].Thread? && body[th].open != [] && OpenAt(body, th, body[th].open[0])
    ensures SameReferences(body, ClosedFirst(body, th))
  {
  }

  lemma SameReferencesSafe(body: Bodies, body': Bodies, color: Colors, white: bool)
    requires SameReferences(body, body') && Safe(body, color, white)
    ensures Safe(body', color, white)
  {
    forall r | r in body' && Alive(color, white, r) ensures AllAlive(body', color, white, r) {
      assert AllAlive(body, color, white, r);
    }
  }

  /** A change of the open list, while marking. An upvalue that is closed while gray is looked at again. */
  lemma SameReferencesWhileMarking(body: Bodies, body': Bodies, color: Colors, white: bool, lists: seq<Ref>,
      tmu: seq<Ref>, done: set<Ref>, uv: Ref)
    requires SameReferences(body, body') && MarkPhase(body, color, white, lists, tmu, done, {})
    requires uv in body && body[uv].IsOpen() && body'[uv].UpVal?
    requires forall r :: r in body && r != uv ==>
      body'[r] == body[r] || (body[r].Thread? && body'[r].Thread?)
    ensures color[uv].White? ==> MarkPhase(body', color, white, lists, tmu, {}, {})
    ensures color[uv].Gray? ==> MarkPhase(body', color, white, lists, tmu, {}, {uv}) && uv !in lists
    ensures !color[uv].Black?
  {
    assert Whole(body');
    assert color[uv].White? ==> GrayLists(body', color, lists, {});
    assert color[uv].Gray? ==> GrayLists(body', color, lists, {uv});
    forall r | r in body && r in color && color[r].Black? && r !in tmu ensures AllOk(body', color, tmu, r) {
      assert AllOk(body, color, tmu, r);
    }
  }

  lemma ClosedIsLinked(body: Bodies, rootgc: seq<Ref>, udata: seq<Ref>, tmu: seq<Ref>, strt: seq<seq<Ref>>,
      uvhead: seq<Ref>, th: Ref, k: nat)
    requires Linked(body, rootgc, udata, tmu, strt, uvhead) && th in body && body[th].Thread? && body[th].open != []
    requires k < |uvhead| && uvhead[k] == body[th].open[0]
    ensures OpenAt(body, th, body[th].open[0])
    ensures Linked(ClosedFirst(body, th), [body[th].open[0]] + rootgc, udata, tmu, strt, Removed(uvhead, k))
  {
    var uv := body[th].open[0];
    assert OpenList(body, th) && OpenAt(body, th, uv);
    var body' := ClosedFirst(body, th);
    UnlinkedLists(body, body', uvhead, th, 0, k);
    assert Buckets(body', strt);
    NewlyRooted(body, body', rootgc, udata, tmu, uv);
  }

  lemma NewlyRooted(body: Bodies, body': Bodies, rootgc: seq<Ref>, udata: seq<Ref>, tmu: seq<Ref>, uv: Ref)
    requires RootList(body, rootgc, udata, tmu) && body'.Keys == body.Keys && uv in body && body[uv].IsOpen() &&
      Rooted(body'[uv]) && body'[uv].UpVal?
    requires forall r :: r in body && r != uv ==> body'[r] == body[r] || (body[r].Thread? && body'[r].Thread?)
    ensures RootList(body', [uv] + rootgc, udata, tmu)
  {
    assert [] + (rootgc + udata + tmu) == rootgc + udata + tmu;
    InsertDistinct([], rootgc + udata + tmu, uv);
    assert ([uv] + rootgc) + udata + tmu == [] + [uv] + (rootgc + udata + tmu);
  }

  /** A dead upvalue leaves the open list of its thread and is freed. */
  lemma FreedUpvalueIsLinked(body: Bodies, rootgc: seq<Ref>, udata: seq<Ref>, tmu: seq<Ref>, strt: seq<seq<Ref>>,
      uvhead: seq<Ref>, th: Ref, i: nat, k: nat)
    requires Linked(body, rootgc, udata, tmu, strt, uvhead) && th in body && body[th].Thread? && i < |body[th].open|
    requires k < |uvhead| && uvhead[k] == body[th].open[i]
    ensures OpenAt(body, th, body[th].open[i])
    ensures Linked(Unlinked(body, th, i) - {body[th].open[i]}, rootgc, udata, tmu, strt, Removed(uvhead, k))
  {
    var uv := body[th].open[i];
    assert OpenList(body, th) && OpenAt(body, th, uv);
    var body' := Unlinked(body, th, i) - {uv};
    UnlinkedLists(body, body', uvhead, th, i, k);
    assert Buckets(body', strt);
    assert RootList(body', rootgc, udata, tmu);
  }

  lemma UnlinkedIsSafe(body: Bodies, color: Colors, white: bool, th: Ref, i: nat)
    requires Safe(body, color, white) && th in body && body[th].Thread? && i < |body[th].open|
    ensures Safe(Unlinked(body, th, i), color, white)
  {
    SameReferencesSafe(body, Unlinked(body, th, i), color, white);
  }

  /** A new upvalue at `n`, open on a slot of `th`, at position `i` of its open list. */
  function Opened(body: Bodies, th: Ref, slot: nat, i: nat, n: Ref): Bodies
    requires th in body && body[th].Thread? && i <= |body[th].open|
  {
    body[n := UpVal(Open(th, slot))][th := body[th].(open := body[th].open[..i] + [n] + body[th].open[i..])]
  }

  ghost predicate FitsAt(body: Bodies, th: Ref, slot: nat, i: nat)
    requires th in body && body[th].Thread?
  {
    && slot < |body[th].stack| && i <= |body[th].open|
    && (forall j :: 0 <= j < i ==> SlotOf(body, body[th].open[j]) > slot)
    && (forall j :: i <= j < |body[th].open| ==> SlotOf(body, body[th].open[j]) < slot)
  }

  lemma OpenedIsSafe(body: Bodies, color: Colors, white: bool, th: Ref, slot: nat, i: nat, n: Ref)
    requires Safe(body, color, white) && th in body && body[th].Thread? && FitsAt(body, th, slot, i) && n !in body &&
      Alive(color, white, th)
    requires forall r :: r in body && body[r].IsOpen() ==> body[r].v.thread in body
    ensures Safe(Opened(body, th, slot, i, n), color[n := White(white)], white)
  {
    var body', color' := Opened(body, th, slot, i, n), color[n := White(white)];
    assert AllAlive(body, color, white, th);
    forall r | r in body' && Alive(color', white, r) ensures AllAlive(body', color', white, r) {
      if r != n {
        assert AllAlive(body, color, white, r);
        forall c | Refers(body', r, c) ensures Alive(color', white, c) {
          assert Refers(body, r, c);
        }
      } else {
        forall c | Refers(body', r, c) ensures Alive(color', white, c) {
          assert Refers(body, th, c);
        }
      }
    }
  }

  lemma OpenedReferences(body: Bodies, th: Ref, slot: nat, i: nat, n: Ref)
    requires th in body && body[th].Thread? && FitsAt(body, th, slot, i) && n !in body
    requires forall r :: r in body && body[r].IsOpen() ==> body[r].v.thread in body
    ensures forall r, c :: r in body && Refers(Opened(body, th, slot, i, n), r, c) ==> Refers(body, r, c)
    ensures forall c :: Refers(Opened(body, th, slot, i, n), n, c) ==> Refers(body, th, c)
  {
  }

  lemma OpenedGrayLists(body: Bodies, color: Colors, white: bool, lists: seq<Ref>, th: Ref, slot: nat, i: nat, n: Ref)
    requires GrayLists(body, color, lists, {}) && th in body && body[th].Thread? && i <= |body[th].open| && n !in body
    ensures GrayLists(Opened(body, th, slot, i, n), color[n := White(white)], lists, {})
  {
    var body' := Opened(body, th, slot, i, n);
    assert forall r :: r in body && r != th ==> body'[r] == body[r];
    assert body'[th].Thread?;
  }

  lemma OpenedBlack(body: Bodies, body': Bodies, color: Colors, white: bool, tmu: seq<Ref>, n: Ref)
    requires NoBlackToWhite(body, color, tmu, {}, {}) && n !in body && body.Keys == color.Keys &&
      body'.Keys == body.Keys + {n}
    requires forall r, c :: r in body && Refers(body', r, c) ==> Refers(body, r, c)
    ensures NoBlackToWhite(body', color[n := White(white)], tmu, {}, {})
  {
    hide Refers;
    var color' := color[n := White(white)];
    forall r | r in body' && color'[r].Black? && r !in tmu ensures AllOk(body', color', tmu, r) {
      assert AllOk(body, color, tmu, r);
    }
  }

  lemma OpenedWhileMarking(body: Bodies, color: Colors, white: bool, lists: seq<Ref>, tmu: seq<Ref>, done: set<Ref>,
      th: Ref, slot: nat, i: nat, n: Ref)
    requires MarkPhase(body, color, white, lists, tmu, done, {}) && th in body && body[th].Thread? &&
      FitsAt(body, th, slot, i) && n !in body
    requires forall r :: r in body && body[r].IsOpen() ==> body[r].v.thread in body
    ensures MarkPhase(Opened(body, th, slot, i, n), color[n := White(white)], white, lists, tmu, {}, {})
  {
    hide Refers, GrayLists, NoBlackToWhite;
    var body' := Opened(body, th, slot, i, n);
    OpenedReferences(body, th, slot, i, n);
    assert Whole(body');
    OpenedGrayLists(body, color, white, lists, th, slot, i, n);
    NothingDone(body, color, white, lists, tmu, done, {});
    OpenedBlack(body, body', color, white, tmu, n);
  }

  lemma OpenedIsLinked(body: Bodies, rootgc: seq<Ref>, udata: seq<Ref>, tmu: seq<Ref>, strt: seq<seq<Ref>>,
      uvhead: seq<Ref>, th: Ref, slot: nat, i: nat, n: Ref)
    requires Linked(body, rootgc, udata, tmu, strt, uvhead) && th in body && body[th].Thread? &&
      FitsAt(body, th, slot, i) && n !in body
    ensures Linked(Opened(body, th, slot, i, n), rootgc, udata, tmu, strt, [n] + uvhead)
  {
    var body' := Opened(body, th, slot, i, n);
    assert Buckets(body', strt);
    assert RootList(body', rootgc, udata, tmu);
    OpenedUpvalues(body, uvhead, th, slot, i, n);
  }

  lemma OpenedUpvalues(body: Bodies, uvhead: seq<Ref>, th: Ref, slot: nat, i: nat, n: Ref)
    requires OpenUpvalues(body, uvhead) && th in body && body[th].Thread? && FitsAt(body, th, slot, i) && n !in body
    ensures OpenUpvalues(Opened(body, th, slot, i, n), [n] + uvhead)
  {
    hide OpenList;
    var body' := Opened(body, th, slot, i, n);
    assert forall r :: r in uvhead ==> r != n;
    forall r | r in body' && body'[r].IsOpen()
      ensures r in [n] + uvhead && OpenAt(body', body'[r].v.thread, r) && r in body'[body'[r].v.thread].open
    {
      if r == n {
        OpenedFirst(body, th, slot, i, n);
      } else {
        assert OpenAt(body, body[r].v.thread, r);
        OpenedMember(body, th, slot, i, n, r);
      }
    }
    forall t | t in body' && body'[t].Thread? ensures OpenList(body', t) {
      assert OpenList(body, t);
      if t == th {
        OpenedList(body, th, slot, i, n);
      } else {
        OpenedElsewhere(body, th, slot, i, n, t);
      }
    }
  }

  lemma OpenedFirst(body: Bodies, th: Ref, slot: nat, i: nat, n: Ref)
    requires th in body && body[th].Thread? && FitsAt(body, th, slot, i) && n !in body
    ensures OpenAt(Opened(body, th, slot, i, n), th, n) && n in Opened(body, th, slot, i, n)[th].open
  {
    assert Opened(body, th, slot, i, n)[th].open[i] == n;
  }

  lemma OpenedMember(body: Bodies, th: Ref, slot: nat, i: nat, n: Ref, r: Ref)
    requires th in body && body[th].Thread? && FitsAt(body, th, slot, i) && n !in body
    requires r in body && body[r].IsOpen() && OpenAt(body, body[r].v.thread, r) && r in body[body[r].v.thread].open
    ensures var body', t := Opened(body, th, slot, i, n), body[r].v.thread; OpenAt(body', t, r) && r in body'[t].open
  {
    if body[r].v.thread == th {
      var j :| 0 <= j < |body[th].open| && body[th].open[j] == r;
      assert Opened(body, th, slot, i, n)[th].open[if j < i then j else j + 1] == r;
    }
  }

  lemma OpenedElsewhere(body: Bodies, th: Ref, slot: nat, i: nat, n: Ref, t: Ref)
    requires th in body && body[th].Thread? && FitsAt(body, th, slot, i) && n !in body
    requires t in body && body[t].Thread? && t != th && OpenList(body, t)
    ensures OpenList(Opened(body, th, slot, i, n), t)
  {
    var body' := Opened(body, th, slot, i, n);
    forall j | 0 <= j < |body'[t].open|
      ensures OpenAt(body', t, body'[t].open[j]) && SlotOf(body', body'[t].open[j]) == SlotOf(body, body'[t].open[j])
    {
      assert OpenAt(body, t, body[t].open[j]);
    }
  }

  lemma OpenedList(body: Bodies, th: Ref, slot: nat, i: nat, n: Ref)
    requires th in body && body[th].Thread? && OpenList(body, th) && FitsAt(body, th, slot, i) && n !in body
    ensures OpenList(Opened(body, th, slot, i, n), th)
  {
    var body' := Opened(body, th, slot, i, n);
    forall j | 0 <= j < |body'[th].open| && j != i
      ensures OpenAt(body', th, body'[th].open[j])
      ensures SlotOf(body', body'[th].open[j]) == SlotOf(body, body[th].open[if j < i then j else j - 1])
    {
      var j0 := if j < i then j else j - 1;
      assert body'[th].open[j] == body[th].open[j0];
      assert OpenAt(body, th, body[th].open[j0]);
    }
    assert body'[th].open[i] == n && OpenAt(body', th, n) && SlotOf(body', n) == slot;
  }

  // ---- colors change while sweeping

  lemma WhitenedIsSafe(body: Bodies, color: Colors, white: bool, r: Ref)
    requires Safe(body, color, white) && r in body && (Alive(color, white, r) || body[r].TString?)
    ensures Safe(body, color[r := White(white)], white)
  {
    var color' := color[r := White(white)];
    forall x | x in body && Alive(color', white, x) ensures AllAlive(body, color', white, x) {
      if Alive(color, white, x) {
        assert AllAlive(body, color, white, x);
      }
    }
  }

  /** `changewhite`: a dead upvalue of a live thread comes back to life. */
  lemma ResurrectedIsSafe(body: Bodies, color: Colors, white: bool, th: Ref, uv: Ref)
    requires Safe(body, color, white) && OpenAt(body, th, uv) && Alive(color, white, th)
    ensures Safe(body, color[uv := White(white)], white)
  {
    var color' := color[uv := White(white)];
    assert AllAlive(body, color, white, th);
    forall x | x in body && Alive(color', white, x) ensures AllAlive(body, color', white, x) {
      if x == uv {
        forall c | Refers(body, x, c) ensures Alive(color', white, c) {
          assert Refers(body, th, c);
        }
      } else {
        assert AllAlive(body, color, white, x);
      }
    }
  }
}
