/** The steps of the sweep, and the steps between the states of a collection. */
module LuaHeapSweep {
  import opened LuaBasics
  import opened LuaHeap
  import opened LuaHeapLists
  import opened LuaHeapStates

  ghost predicate Sweeping(h: Snapshot) { h.gcstate == GCSsweepstring || h.gcstate == GCSsweep }

  ghost predicate DeadAt(h: Snapshot, r: Ref) {
    r in h.body && r in h.color && h.color[r] == White(!h.white)
  }

  lemma DeadMeansSweeping(h: Snapshot, r: Ref)
    requires Good(h) && DeadAt(h, r) && !h.body[r].Userdata?
    ensures Sweeping(h)
  {
    assert RootList(h.body, h.rootgc, h.udata, h.tmu);
  }

  lemma NothingIsDead(h: Snapshot)
    requires Good(h) && !Sweeping(h)
    ensures forall r :: !DeadAt(h, r)
  {
    hide Linked;
    forall r ensures !DeadAt(h, r) {
      assert r in h.tmu ==> r in RootsOf(h.mainthread, h.running, h.registry, h.mt, h.tmu);
    }
  }

  /** Nothing that is not mentioned changes. */
  ghost predicate SameRest(h: Snapshot, h': Snapshot) {
    && h'.gcstate == h.gcstate && h'.white == h.white && h'.lists == h.lists && h'.tmu == h.tmu && h'.done == {}
    && h'.mainthread == h.mainthread && h'.running == h.running && h'.registry == h.registry && h'.mt == h.mt &&
       h'.fixed == h.fixed
    && h'.sweepstrgc == h.sweepstrgc && h'.sweepgc == h.sweepgc
  }

  // ---- a survivor becomes white for the next collection

  lemma WhitenIsGood(h: Snapshot, h': Snapshot, r: Ref)
    requires Good(h) && Sweeping(h) && r in h.body && Recoloring(h, h', r, White(h.white))
    requires Alive(h.color, h.white, r) || h.body[r].TString?
    ensures Good(h')
  {
    hide Safe, Linked, StateOk;
    WhitenedIsSafe(h.body, h.color, h.white, r);
    KeysOfHeap(h.body, h.color, h.white);
    WhitenKeepsState(h, r);
  }

  lemma WhitenKeepsState(h: Snapshot, r: Ref)
    requires StateOk(h.gcstate, h.body, h.color, h.white, h.lists, h.tmu, h.done, h.mainthread, h.registry, h.strt,
      h.sweepstrgc, h.rootgc + h.udata, h.sweepgc)
    requires Sweeping(h) && r in h.body && r in h.color
    ensures StateOk(h.gcstate, h.body, h.color[r := White(h.white)], h.white, h.lists, h.tmu, {}, h.mainthread,
      h.registry, h.strt, h.sweepstrgc, h.rootgc + h.udata, h.sweepgc)
  {
    var color' := h.color[r := White(h.white)];
    if h.gcstate == GCSsweepstring {
      NewStringsSwept(h.color, h.white, h.strt, h.strt, h.sweepstrgc, r);
    } else {
      NewStringsSwept(h.color, h.white, h.strt, h.strt, |h.strt|, r);
      var all := h.rootgc + h.udata;
      forall j | 0 <= j < h.sweepgc ensures SweptAt(h.body, color', h.white, all[j]) {
        assert SweptAt(h.body, h.color, h.white, all[j]);
      }
    }
  }

  // ---- dead objects are freed

  /** A dead upvalue, at position `i` of the open list of `th` and `k` of the list of open upvalues. */
  ghost predicate DroppingUpvalue(h: Snapshot, h': Snapshot, th: Ref, i: nat, k: nat) {
    && SameRest(h, h') && th in h.body && h.body[th].Thread? && i < |h.body[th].open|
    && k < |h.uvhead| && h.uvhead[k] == h.body[th].open[i] && DeadAt(h, h.body[th].open[i])
    && h'.body == Unlinked(h.body, th, i) - {h.body[th].open[i]} && h'.color == h.color - {h.body[th].open[i]}
    && h'.uvhead == Removed(h.uvhead, k) && h'.strt == h.strt && h'.udata == h.udata && h'.rootgc == h.rootgc
  }

  lemma DroppedUpvalueIsGood(h: Snapshot, h': Snapshot, th: Ref, i: nat, k: nat)
    requires Good(h) && DroppingUpvalue(h, h', th, i, k)
    ensures Good(h')
  {
    hide Safe, Linked, StateOk, Refers;
    var uv := h.body[th].open[i];
    KeysOfHeap(h.body, h.color, h.white);
    FreedUpvalueIsLinked(h.body, h.rootgc, h.udata, h.tmu, h.strt, h.uvhead, th, i, k);
    UnlinkedIsSafe(h.body, h.color, h.white, th, i);
    UpvaluesAreThreads(h, uv);
    FreedIsSafe(Unlinked(h.body, th, i), h.color, h.white, uv);
    assert forall r :: r in h.body && h.body[r].Thread? ==> r != uv;
    DroppedUpvalueKeepsState(h, h', th, i, k);
  }

  lemma UpvaluesAreThreads(h: Snapshot, uv: Ref)
    requires Good(h) && uv in h.body && !h.body[uv].Thread?
    ensures forall x :: x in h.body && h.body[x].IsOpen() ==> h.body[x].v.thread != uv
  {
    forall x | x in h.body && h.body[x].IsOpen() ensures h.body[x].v.thread != uv {
      assert OpenAt(h.body, h.body[x].v.thread, x);
    }
  }

  lemma DroppedUpvalueKeepsState(h: Snapshot, h': Snapshot, th: Ref, i: nat, k: nat)
    requires Good(h) && DroppingUpvalue(h, h', th, i, k) && OpenAt(h.body, th, h.body[th].open[i])
    ensures StateOk(h'.gcstate, h'.body, h'.color, h'.white, h'.lists, h'.tmu, h'.done, h'.mainthread, h'.registry,
      h'.strt, h'.sweepstrgc, h'.rootgc + h'.udata, h'.sweepgc)
  {
    hide Safe, Linked;
    var uv := h.body[th].open[i];
    DeadMeansSweeping(h, uv);
    StringsStaySwept(h, h', uv);
    assert ProperMarks(h'.body, h'.color);
    if h.gcstate == GCSsweep {
      hide ProperMarks;
      RootsStaySwept(h, h', th, i, k);
    }
  }

  lemma RootsStaySwept(h: Snapshot, h': Snapshot, th: Ref, i: nat, k: nat)
    requires DroppingUpvalue(h, h', th, i, k) && OpenAt(h.body, th, h.body[th].open[i])
    requires RootsSwept(h.body, h.color, h.white, h.rootgc + h.udata, h.sweepgc)
    ensures RootsSwept(h'.body, h'.color, h.white, h'.rootgc + h'.udata, h.sweepgc)
  {
    var uv, all := h.body[th].open[i], h.rootgc + h.udata;
    forall j | 0 <= j < h.sweepgc ensures SweptAt(h'.body, h'.color, h.white, all[j]) {
      assert SweptAt(h.body, h.color, h.white, all[j]);
      StaysSweptAt(h, h', th, i, k, all[j]);
    }
  }

  lemma StaysSweptAt(h: Snapshot, h': Snapshot, th: Ref, i: nat, k: nat, x: Ref)
    requires DroppingUpvalue(h, h', th, i, k) && OpenAt(h.body, th, h.body[th].open[i])
    requires SweptAt(h.body, h.color, h.white, x)
    ensures SweptAt(h'.body, h'.color, h.white, x)
  {
    if h.body[x].Thread? {
      forall j | 0 <= j < |h'.body[x].open| ensures WhiteAt(h'.color, h.white, h'.body[x].open[j]) {
        assert h'.body[x].open[j] == h.body[x].open[if x == th && j >= i then j + 1 else j];
      }
    }
  }

  lemma StringsStaySwept(h: Snapshot, h': Snapshot, r: Ref)
    requires DeadAt(h, r) && h'.strt == h.strt && h'.color == h.color - {r} && h'.white == h.white
    ensures forall k :: StringsSwept(h.color, h.white, h.strt, k) ==> StringsSwept(h'.color, h.white, h.strt, k)
  {
    forall k, b, x | StringsSwept(h.color, h.white, h.strt, k) && 0 <= b < k && x in h.strt[b]
      ensures WhiteAt(h'.color, h.white, x) {
      assert WhiteAt(h.color, h.white, x);
    }
  }

  /** A dead string, at position `i` of the bucket `b`. */
  ghost predicate DroppingString(h: Snapshot, h': Snapshot, b: nat, i: nat) {
    && SameRest(h, h') && b < |h.strt| && i < |h.strt[b]| && DeadAt(h, h.strt[b][i])
    && h'.body == h.body - {h.strt[b][i]} && h'.color == h.color - {h.strt[b][i]}
    && h'.strt == h.strt[b := Removed(h.strt[b], i)] && h'.uvhead == h.uvhead && h'.udata == h.udata &&
       h'.rootgc == h.rootgc
  }

  lemma DroppedStringIsGood(h: Snapshot, h': Snapshot, b: nat, i: nat)
    requires Good(h) && DroppingString(h, h', b, i) && h.gcstate == GCSsweepstring && b >= h.sweepstrgc
    ensures Good(h')
  {
    hide Safe, Linked;
    var r := h.strt[b][i];
    KeysOfHeap(h.body, h.color, h.white);
    FreedFromBucket(h.body, h.rootgc, h.udata, h.tmu, h.strt, h.uvhead, b, i);
    UpvaluesAreThreads(h, r);
    FreedIsSafe(h.body, h.color, h.white, r);
    forall c, x | 0 <= c < h.sweepstrgc && x in h'.strt[c] ensures WhiteAt(h'.color, h.white, x) {
      assert WhiteAt(h.color, h.white, x);
    }
  }

  /** A dead object at position `i` of the root list, on which no upvalue is open. */
  ghost predicate DroppingRoot(h: Snapshot, h': Snapshot, i: nat) {
    && SameRest(h, h') && i < |h.rootgc + h.udata| && DeadAt(h, (h.rootgc + h.udata)[i])
    && h'.body == h.body - {(h.rootgc + h.udata)[i]} && h'.color == h.color - {(h.rootgc + h.udata)[i]}
    && h'.strt == h.strt && h'.uvhead == h.uvhead
    && (if i < |h.rootgc| then h'.rootgc == Removed(h.rootgc, i) && h'.udata == h.udata
        else h'.rootgc == h.rootgc && h'.udata == Removed(h.udata, i - |h.rootgc|))
  }

  lemma DroppedRootIsGood(h: Snapshot, h': Snapshot, i: nat)
    requires Good(h) && DroppingRoot(h, h', i) && h.gcstate == GCSsweep && i >= h.sweepgc
    requires var r := (h.rootgc + h.udata)[i]; h.body[r].Thread? ==> h.body[r].open == []
    ensures Good(h')
  {
    hide Safe, Linked, StateOk;
    var r := (h.rootgc + h.udata)[i];
    KeysOfHeap(h.body, h.color, h.white);
    FreedFromRoot(h.body, h.rootgc, h.udata, h.tmu, h.strt, h.uvhead, i);
    assert Linked(h'.body, h'.rootgc, h'.udata, h'.tmu, h'.strt, h'.uvhead) by {
      assert r == if i < |h.rootgc| then h.rootgc[i] else h.udata[i - |h.rootgc|];
    }
    FreedIsSafe(h.body, h.color, h.white, r);
    RootsAreNotDead(h, h', r);
    DroppedRootKeepsState(h, h', i);
  }

  lemma RootsAreNotDead(h: Snapshot, h': Snapshot, r: Ref)
    requires RootsAlive(h.body, h.color, h.white, h.mainthread, h.running, h.registry, h.mt, h.tmu) && DeadAt(h, r)
    requires SameRest(h, h') && h'.body == h.body - {r} && h'.color == h.color - {r}
    ensures RootsAlive(h'.body, h'.color, h'.white, h'.mainthread, h'.running, h'.registry, h'.mt, h'.tmu)
  {
    assert {h.mainthread, h.running} <= RootsOf(h.mainthread, h.running, h.registry, h.mt, h.tmu);
  }

  lemma DroppedRootKeepsState(h: Snapshot, h': Snapshot, i: nat)
    requires Good(h) && DroppingRoot(h, h', i) && h.gcstate == GCSsweep && i >= h.sweepgc
    ensures StateOk(h'.gcstate, h'.body, h'.color, h'.white, h'.lists, h'.tmu, h'.done, h'.mainthread, h'.registry,
      h'.strt, h'.sweepstrgc, h'.rootgc + h'.udata, h'.sweepgc)
  {
    hide Safe, Linked;
    var r := (h.rootgc + h.udata)[i];
    StringsStaySwept(h, h', r);
    var all, all' := h.rootgc + h.udata, h'.rootgc + h'.udata;
    assert all' == Removed(all, i);
    forall j | 0 <= j < h.sweepgc ensures SweptAt(h'.body, h'.color, h.white, all'[j]) {
      assert all'[j] == all[j];
      assert SweptAt(h.body, h.color, h.white, all[j]);
    }
  }

  // ---- from one state to the next

  /** All that the sweep leaves is white: what was dead has been freed, or brought back to life. */
  lemma SweptIsWhite(h: Snapshot)
    requires Good(h) && h.gcstate == GCSsweep && h.sweepgc == |h.rootgc + h.udata|
    ensures AllWhite(h.color, h.white, h.tmu)
  {
    hide Safe;
    KeysOfHeap(h.body, h.color, h.white) by {
      assert Safe(h.body, h.color, h.white);
    }
    forall r | r in h.color && r !in h.tmu ensures h.color[r] == White(h.white) {
      if h.body[r].TString? {
        assert InBucket(h.strt, r);
        var b :| 0 <= b < |h.strt| && r in h.strt[b];
        assert WhiteAt(h.color, h.white, r);
      } else if h.body[r].IsOpen() {
        var th := h.body[r].v.thread;
        assert OpenAt(h.body, th, r) && r in h.body[th].open;
        InRootList(h, th);
        assert SweptAt(h.body, h.color, h.white, th);
        var i :| 0 <= i < |h.body[th].open| && h.body[th].open[i] == r;
        assert WhiteAt(h.color, h.white, h.body[th].open[i]);
      } else {
        InRootList(h, r);
        assert SweptAt(h.body, h.color, h.white, r);
      }
    }
  }

  lemma InRootList(h: Snapshot, r: Ref)
    requires Good(h) && h.gcstate == GCSsweep && h.sweepgc == |h.rootgc + h.udata|
    requires r in h.body && Rooted(h.body[r]) && r !in h.tmu
    ensures SweptAt(h.body, h.color, h.white, r)
  {
    assert r in h.rootgc + h.udata;
    var i :| 0 <= i < |h.rootgc + h.udata| && (h.rootgc + h.udata)[i] == r;
    assert SweptAt(h.body, h.color, h.white, (h.rootgc + h.udata)[i]);
  }

  /** The marks are kept, and the state changes. */
  ghost predicate Advancing(h: Snapshot, h': Snapshot, gcstate: GCState, sweepstrgc: nat, sweepgc: nat) {
    && h'.gcstate == gcstate && h'.body == h.body && h'.color == h.color && h'.white == h.white &&
       h'.lists == h.lists && h'.tmu == h.tmu && h'.done == {}
    && h'.mainthread == h.mainthread && h'.running == h.running && h'.registry == h.registry && h'.mt == h.mt &&
       h'.fixed == h.fixed
    && h'.sweepstrgc == sweepstrgc && h'.sweepgc == sweepgc && h'.strt == h.strt && h'.uvhead == h.uvhead &&
       h'.udata == h.udata && h'.rootgc == h.rootgc
  }

  lemma SweepEnds(h: Snapshot, h': Snapshot)
    requires Good(h) && h.gcstate == GCSsweep && h.sweepgc == |h.rootgc + h.udata|
    requires Advancing(h, h', GCSfinalize, h.sweepstrgc, h.sweepgc)
    ensures Good(h')
  {
    SweptIsWhite(h);
  }

  /** One more bucket has been swept; after the last, the sweep of the root list begins. */
  lemma NextBucket(h: Snapshot, h': Snapshot)
    requires Good(h) && h.gcstate == GCSsweepstring && forall r :: r in h.strt[h.sweepstrgc] ==>
      WhiteAt(h.color, h.white, r)
    requires Advancing(h, h', if h.sweepstrgc + 1 >= |h.strt| then GCSsweep
      else GCSsweepstring, h.sweepstrgc + 1, h.sweepgc)
    ensures Good(h')
  {
    hide Safe, Linked;
  }

  /** One more object of the root list has been swept. */
  lemma NextRoot(h: Snapshot, h': Snapshot)
    requires Good(h) && h.gcstate == GCSsweep && h.sweepgc < |h.rootgc + h.udata| &&
      SweptAt(h.body, h.color, h.white, (h.rootgc + h.udata)[h.sweepgc])
    requires Advancing(h, h', GCSsweep, h.sweepstrgc, h.sweepgc + 1)
    ensures Good(h')
  {
    hide Safe, Linked;
  }

  /** `luaC_fullgc` gives up marking: nothing is dead, and the sweep makes everything white. */
  lemma GiveUpMarking(h: Snapshot, h': Snapshot)
    requires Good(h) && (h.gcstate == GCSpause || h.gcstate == GCSpropagate)
    requires h'.lists == [] && Advancing(h.(lists := []), h', GCSsweepstring, 0, 0)
    ensures Good(h')
  {
    hide Safe, Linked;
    if h.gcstate == GCSpropagate {
      MarksAreProper(h.body, h.color, h.white, h.lists, h.tmu, h.done);
    }
  }

  lemma MarksAreProper(body: Bodies, color: Colors, white: bool, lists: seq<Ref>, tmu: seq<Ref>, done: set<Ref>)
    requires MarkPhase(body, color, white, lists, tmu, done, {})
    ensures ProperMarks(body, color)
  {
  }

  /** A collection can start: nothing is gray or dead, and only userdata that wait for their
      finalizers may be black. */
  lemma MarkingCanStart(h: Snapshot)
    requires Good(h) && (h.gcstate == GCSpause || h.gcstate == GCSfinalize)
    ensures MarkPhase(h.body, h.color, h.white, [], h.tmu, {}, {})
    ensures h.mainthread in h.color && (h.registry.Gco? ==> h.registry.ref in h.color)
    ensures forall i :: 0 <= i < |h.mt| && h.mt[i].Gco? ==> h.mt[i].ref in h.color
  {
    hide Linked;
    RootsInHeap(h);
    assert forall u :: u in h.tmu ==> u in h.body && h.body[u].Userdata? by {
      TmuIsUserdata(h);
    }
    assert forall r :: r in h.color ==> Alive(h.color, h.white, r);
    forall r, c | r in h.body && Refers(h.body, r, c) ensures c in h.body {
      assert AllAlive(h.body, h.color, h.white, r);
    }
    assert GrayLists(h.body, h.color, [], {});
  }

  lemma RootsInHeap(h: Snapshot)
    requires Good(h)
    ensures Alive(h.color, h.white, h.mainthread) && AliveValue(h.color, h.white, h.registry)
    ensures forall i :: 0 <= i < |h.mt| ==> AliveValue(h.color, h.white, h.mt[i])
    ensures forall u :: u in h.tmu ==> Alive(h.color, h.white, u)
  {
    var roots := RootsOf(h.mainthread, h.running, h.registry, h.mt, h.tmu);
    assert h.mainthread in roots && (h.registry.Gco? ==> h.registry.ref in roots);
    forall i | 0 <= i < |h.mt| ensures AliveValue(h.color, h.white, h.mt[i]) {
      if h.mt[i].Gco? {
        assert h.mt[i].ref in roots;
      }
    }
    assert forall u :: u in h.tmu ==> u in roots;
  }

  lemma TmuIsUserdata(h: Snapshot)
    requires Good(h)
    ensures forall u :: u in h.tmu || u in h.udata ==> u in h.body && h.body[u].Userdata?
    ensures Distinct(h.udata + h.tmu)
  {
    assert RootList(h.body, h.rootgc, h.udata, h.tmu);
    assert h.rootgc + h.udata + h.tmu == h.rootgc + (h.udata + h.tmu);
    var s := h.udata + h.tmu;
    assert forall i :: 0 <= i < |s| ==> s[i] == (h.rootgc + h.udata + h.tmu)[|h.rootgc| + i];
  }

  /** The end of a collection. */
  lemma CollectionEnds(h: Snapshot, h': Snapshot)
    requires Good(h) && h.gcstate == GCSfinalize && Advancing(h, h', GCSpause, h.sweepstrgc, h.sweepgc)
    ensures Good(h')
  {
    hide Safe, Linked;
  }

  /** Marking changes nothing but the marks and the gray lists. */
  ghost predicate SameHeap(h: Snapshot, h': Snapshot) {
    && h'.body == h.body && h'.white == h.white && h'.tmu == h.tmu && h'.mainthread == h.mainthread &&
       h'.running == h.running
    && h'.registry == h.registry && h'.mt == h.mt && h'.fixed == h.fixed && h'.strt == h.strt && h'.uvhead == h.uvhead
    && h'.udata == h.udata && h'.rootgc == h.rootgc
  }

  /** Marking goes on, or has just begun. */
  lemma MarkedIsGood(h: Snapshot, h': Snapshot)
    requires Good(h) && h'.gcstate == GCSpropagate && MarkPhase(h'.body, h'.color, h'.white, h'.lists, h'.tmu, h'.done,
      {})
    requires h'.mainthread in h'.color && !h'.color[h'.mainthread].White? && Reached(h'.color, h'.registry) &&
      SameHeap(h, h')
    ensures Good(h')
  {
    hide Linked, MarkPhase, Safe;
    PhaseIsSafe(h'.body, h'.color, h'.white, h'.lists, h'.tmu, h'.done, {});
    KeysOfHeap(h.body, h.color, h.white);
    KeysOfHeap(h'.body, h'.color, h'.white);
    assert forall r :: r in RootsOf(h.mainthread, h.running, h.registry, h.mt, h.tmu) ==> Alive(h'.color, h'.white, r);
  }

  // ---- what a step of the collector leaves of the objects that are not dead

  /** An upvalue stays where it is, as long as the thread that it is open on is in the heap. */
  ghost predicate SamePlace(body': Bodies, v: Place, v': Place) {
    v' == v || (v.Open? && v'.Closed? && v.thread !in body')
  }

  /** Everything that can be read in the object is what it was. */
  ghost predicate SameMeaning(body: Bodies, body': Bodies, r: Ref) {
    && r in body && r in body'
    && match body[r]
       case Thread(globals, stack, _) => body'[r].Thread? && body'[r].globals == globals && body'[r].stack == stack
       case UpVal(v) => body'[r].UpVal? && ValueOf(body', body'[r].v) == ValueOf(body, v) &&
         SamePlace(body', v, body'[r].v)
       case _ => body'[r] == body[r]
  }

  /** No object that was not dead has been freed or changed, and there is no new one. */
  ghost predicate Survive(h: Snapshot, h': Snapshot) {
    && h'.body.Keys <= h.body.Keys
    && forall r :: r in h.body && Alive(h.color, h.white, r) ==>
       Alive(h'.color, h'.white, r) && SameMeaning(h.body, h'.body, r)
  }

  lemma SurviveMore(a: Snapshot, b: Snapshot, c: Snapshot)
    requires Survive(a, b) && Survive(b, c)
    ensures Survive(a, c)
  {
  }

  lemma SurviveRecoloring(h: Snapshot, h': Snapshot, r: Ref, c: Color)
    requires Recoloring(h, h', r, c) && c != White(!h.white)
    ensures Survive(h, h')
  {
  }

  lemma SurviveAdvancing(h: Snapshot, h': Snapshot, gcstate: GCState, sweepstrgc: nat, sweepgc: nat)
    requires Advancing(h, h', gcstate, sweepstrgc, sweepgc)
    ensures Survive(h, h')
  {
  }

  lemma SurviveDropping(h: Snapshot, h': Snapshot, r: Ref)
    requires Good(h) && SameRest(h, h') && DeadAt(h, r) && !h.body[r].Thread? && h'.body == h.body - {r} &&
      h'.color == h.color - {r}
    ensures Survive(h, h')
  {
    hide Safe, StateOk;
    UpvaluesAreThreads(h, r);
  }

  lemma SurviveDroppingThread(h: Snapshot, h': Snapshot, r: Ref)
    requires SameRest(h, h') && DeadAt(h, r) && h'.body == h.body - {r} && h'.color == h.color - {r}
    requires forall x :: x in h.body && h.body[x].IsOpen() ==> h.body[x].v.thread != r
    ensures Survive(h, h')
  {
  }

  lemma SurviveDroppingUpvalue(h: Snapshot, h': Snapshot, th: Ref, i: nat, k: nat)
    requires DroppingUpvalue(h, h', th, i, k) && OpenAt(h.body, th, h.body[th].open[i])
    requires forall x :: x in h.body && h.body[x].IsOpen() ==> h.body[x].v.thread != h.body[th].open[i]
    ensures Survive(h, h')
  {
  }

  /** The first `n` upvalues in the list of `th` are no longer open: each has its value in itself, or was
      dead and has been freed. Every other object is what it was, and none has died or come to life. */
  ghost predicate ClosedUpTo(h: Snapshot, h': Snapshot, th: Ref, n: nat) {
    && th in h.body && h.body[th].Thread? && n <= |h.body[th].open|
    && th in h'.body && h'.body[th] == h.body[th].(open := h.body[th].open[n..])
    && (forall i :: 0 <= i < n ==> ClosedOrFreed(h, h', h.body[th].open[i]))
    && (forall r :: r in h.body && r != th && r !in h.body[th].open[..n] ==> r in h'.body && h'.body[r] == h.body[r])
    && h'.body.Keys <= h.body.Keys
    && (forall r :: r in h'.body ==> (Alive(h'.color, h'.white, r) <==> Alive(h.color, h.white, r)))
  }

  ghost predicate ClosedOrFreed(h: Snapshot, h': Snapshot, uv: Ref) {
    if Alive(h.color, h.white, uv) then
      && uv in h.body && h.body[uv].IsOpen()
      && uv in h'.body && h'.body[uv] == UpVal(Closed(ValueOf(h.body, h.body[uv].v)))
    else uv !in h'.body
  }

  lemma NothingClosed(h: Snapshot, th: Ref)
    requires th in h.body && h.body[th].Thread?
    ensures ClosedUpTo(h, h, th, 0)
  {
  }

  /** A live upvalue has been closed. */
  lemma FirstIsClosed(h: Snapshot, h': Snapshot, th: Ref, k: nat, c: Color)
    requires Closing(h, h', th, k, c) && c != White(!h.white) && Alive(h.color, h.white, h.body[th].open[0])
    ensures ClosedUpTo(h, h', th, 1)
  {
    hide ClosedFirst;
    ClosedKinds(h.body, th);
    FirstValue(h.body, th);
    assert Removed(h.body[th].open, 0) == h.body[th].open[1..];
  }

  lemma FirstValue(body: Bodies, th: Ref)
    requires th in body && body[th].Thread? && body[th].open != [] && OpenAt(body, th, body[th].open[0])
    ensures var uv := body[th].open[0]; ClosedFirst(body, th)[uv] == UpVal(Closed(ValueOf(body, body[uv].v)))
  {
  }

  /** The same in the mark phase, when nothing is dead. */
  lemma FirstIsClosedGray(h: Snapshot, h1: Snapshot, h': Snapshot, th: Ref, k: nat)
    requires Good(h) && Good(h') && h.gcstate == GCSpropagate && h'.gcstate == GCSpropagate
    requires Closing(h, h1, th, k, Black) && h'.body == h1.body && h'.white == h.white
    ensures ClosedUpTo(h, h', th, 1)
  {
    hide Good, ClosedFirst;
    AllAreAlive(h);
    AllAreAlive(h');
    ClosedKinds(h.body, th);
    FirstValue(h.body, th);
    assert Removed(h.body[th].open, 0) == h.body[th].open[1..];
  }

  lemma AllAreAlive(h: Snapshot)
    requires Good(h) && !Sweeping(h)
    ensures forall r :: r in h.body ==> Alive(h.color, h.white, r)
  {
    hide StateOk, Linked;
    NothingIsDead(h);
    KeysOfHeap(h.body, h.color, h.white);
    forall r | r in h.body ensures Alive(h.color, h.white, r) {
      assert !DeadAt(h, r);
    }
  }

  /** A dead upvalue has been freed. */
  lemma FirstIsFreed(h: Snapshot, h': Snapshot, th: Ref, k: nat)
    requires DroppingUpvalue(h, h', th, 0, k) && OpenAt(h.body, th, h.body[th].open[0])
    ensures ClosedUpTo(h, h', th, 1)
  {
    assert Removed(h.body[th].open, 0) == h.body[th].open[1..];
  }

  /** The upvalue has taken the value of its stack slot, unless it was dead. */
  ghost predicate HasItsSlot(h: Snapshot, th: Ref, uv: Ref, body': Bodies) {
    Alive(h.color, h.white, uv) ==>
      && th in h.body && h.body[th].Thread?
      && uv in h.body && h.body[uv].UpVal? && h.body[uv].v.Open? && h.body[uv].v.slot < |h.body[th].stack|
      && uv in body' && body'[uv] == UpVal(Closed(h.body[th].stack[h.body[uv].v.slot]))
  }

  lemma OpenIsListed(h: Snapshot, th: Ref)
    requires Good(h) && th in h.body && h.body[th].Thread?
    ensures OpenList(h.body, th)
  {
  }

  /** Each upvalue that has been closed, and is not dead, has the value that was in its stack slot. */
  lemma ClosedWithItsSlot(h: Snapshot, h': Snapshot, th: Ref, n: nat)
    requires ClosedUpTo(h, h', th, n) && OpenList(h.body, th)
    ensures forall i :: 0 <= i < n ==> HasItsSlot(h, th, h.body[th].open[i], h'.body)
  {
    forall i | 0 <= i < n ensures HasItsSlot(h, th, h.body[th].open[i], h'.body) {
      assert OpenAt(h.body, th, h.body[th].open[i]) && ClosedOrFreed(h, h', h.body[th].open[i]);
    }
  }

  /** One more round. */
  lemma ClosedOneMore(a: Snapshot, b: Snapshot, c: Snapshot, th: Ref, n: nat)
    requires ClosedUpTo(a, b, th, n) && ClosedUpTo(b, c, th, 1) && OpenList(a.body, th)
    ensures ClosedUpTo(a, c, th, n + 1)
  {
    hide ClosedOrFreed, OpenList;
    var open := a.body[th].open;
    assert b.body[th].open[0] == open[n] && b.body[th].open[1..] == open[n + 1..];
    forall i | 0 <= i < n + 1 ensures ClosedOrFreed(a, c, open[i]) {
      if i < n {
        StaysClosed(a, b, c, th, n, i);
      } else {
        NextIsClosed(a, b, c, th, n);
      }
    }
    assert open[..n + 1] == open[..n] + [open[n]];
  }

  lemma StaysClosed(a: Snapshot, b: Snapshot, c: Snapshot, th: Ref, n: nat, i: nat)
    requires ClosedUpTo(a, b, th, n) && ClosedUpTo(b, c, th, 1) && OpenList(a.body, th) && i < n
    ensures ClosedOrFreed(a, c, a.body[th].open[i])
  {
    var open := a.body[th].open;
    OpenIsDistinct(a.body, th);
    assert b.body[th].open[0] == open[n];
    assert OpenAt(a.body, th, open[i]) && ClosedOrFreed(a, b, open[i]);
  }

  lemma NextIsClosed(a: Snapshot, b: Snapshot, c: Snapshot, th: Ref, n: nat)
    requires ClosedUpTo(a, b, th, n) && ClosedUpTo(b, c, th, 1) && OpenList(a.body, th)
    ensures ClosedOrFreed(a, c, a.body[th].open[n])
  {
    var open := a.body[th].open;
    OpenIsDistinct(a.body, th);
    assert b.body[th].open[0] == open[n] && open[n] !in open[..n];
    assert OpenAt(a.body, th, open[n]) && ClosedOrFreed(b, c, b.body[th].open[0]);
  }

  /** A dead thread is freed when no upvalue is open on it any more. */
  lemma SurviveFreeingThread(h: Snapshot, h1: Snapshot, h': Snapshot, th: Ref)
    requires th in h.body && h.body[th].Thread?
    requires Good(h) && ClosedUpTo(h, h1, th, |h.body[th].open|) && Survive(h1, h')
    requires !Alive(h.color, h.white, th) && th !in h'.body
    ensures Survive(h, h')
  {
    hide Good, ClosedUpTo, SameMeaning;
    NothingIsNew(h, h1, th, |h.body[th].open|);
    forall r | r in h.body && Alive(h.color, h.white, r)
      ensures Alive(h'.color, h'.white, r) && SameMeaning(h.body, h'.body, r)
    {
      OneOfThem(h, h1, th, r);
      MeansTheSame(h, h1, h', th, r);
    }
  }

  lemma NothingIsNew(h: Snapshot, h': Snapshot, th: Ref, n: nat)
    requires ClosedUpTo(h, h', th, n)
    ensures h'.body.Keys <= h.body.Keys
  {
  }

  /** A live object, when the upvalues open on the dead thread `th` have been closed. */
  lemma OneOfThem(h: Snapshot, h1: Snapshot, th: Ref, r: Ref)
    requires th in h.body && h.body[th].Thread?
    requires Good(h) && ClosedUpTo(h, h1, th, |h.body[th].open|) && r in h.body && Alive(h.color, h.white, r) && r != th
    ensures r in h1.body && Alive(h1.color, h1.white, r)
    ensures if r in h.body[th].open then h.body[r].IsOpen() && h.body[r].v.thread == th &&
      h1.body[r] == UpVal(Closed(ValueOf(h.body, h.body[r].v))) else h1.body[r] == h.body[r]
    ensures r !in h.body[th].open && h.body[r].UpVal? ==> ValueOf(h1.body, h.body[r].v) == ValueOf(h.body, h.body[r].v)
  {
    hide Good;
    var open := h.body[th].open;
    assert open[..|open|] == open;
    OpenOn(h, th, r);
    if r in open {
      assert ClosedOrFreed(h, h1, r);
    }
  }

  /** An upvalue is in the list of its thread, and in no other. */
  lemma OpenOn(h: Snapshot, th: Ref, r: Ref)
    requires Good(h) && th in h.body && h.body[th].Thread? && r in h.body
    ensures r in h.body[th].open ==> h.body[r].IsOpen() && h.body[r].v.thread == th
    ensures r !in h.body[th].open && h.body[r].IsOpen() ==>
      var t := h.body[r].v.thread; t in h.body && t != th && t !in h.body[th].open
  {
    hide Safe, StateOk, RootList, Buckets, RootsAlive;
    assert OpenList(h.body, th);
    if r in h.body[th].open {
      assert OpenAt(h.body, th, r);
    } else if h.body[r].IsOpen() {
      var t := h.body[r].v.thread;
      assert OpenAt(h.body, t, r) && r in h.body[t].open;
      assert t in h.body[th].open ==> OpenAt(h.body, th, t);
    }
  }

  lemma MeansTheSame(h: Snapshot, h1: Snapshot, h': Snapshot, th: Ref, r: Ref)
    requires th in h.body && h.body[th].Thread? && th !in h'.body && r in h.body && r in h1.body && r != th
    requires if r in h.body[th].open then h.body[r].IsOpen() && h.body[r].v.thread == th &&
      h1.body[r] == UpVal(Closed(ValueOf(h.body, h.body[r].v))) else h1.body[r] == h.body[r]
    requires r !in h.body[th].open && h.body[r].UpVal? ==> ValueOf(h1.body, h.body[r].v) == ValueOf(h.body, h.body[r].v)
    requires SameMeaning(h1.body, h'.body, r)
    ensures SameMeaning(h.body, h'.body, r)
  {
  }

  /** Marking frees nothing and changes nothing. */
  lemma SurviveMarking(h: Snapshot, h': Snapshot)
    requires Good(h') && h'.gcstate == GCSpropagate && h'.body == h.body
    ensures Survive(h, h')
  {
    KeysOfHeap(h'.body, h'.color, h'.white);
    assert forall r :: r in h'.color ==> Alive(h'.color, h'.white, r);
  }

  // ---- the atomic phase

  lemma AtomicCanStart(h: Snapshot)
    requires Good(h) && h.gcstate == GCSpropagate
    ensures AtomicLists(h.body, h.udata, h.tmu, h.uvhead, h.running, h.mt)
  {
    hide Safe;
    TmuIsUserdata(h);
    RootsInHeap(h);
    KeysOfHeap(h.body, h.color, h.white) by {
      assert Safe(h.body, h.color, h.white);
    }
  }

  /** The state after `atomic`: `color1` are the marks when the weak tables are about to be cleared. */
  ghost predicate AtomicDone(h: Snapshot, h': Snapshot, color1: Colors, weak: seq<Ref>, values: set<Ref>,
      finalized: set<Ref>) {
    && h'.gcstate == GCSsweepstring && h'.white == !h.white && h'.done == {} && h'.sweepstrgc == 0 && h'.sweepgc == 0
    && h'.mainthread == h.mainthread && h'.running == h.running && h'.registry == h.registry && h'.mt == h.mt &&
       h'.fixed == h.fixed
    && h'.strt == h.strt && h'.uvhead == h.uvhead && h'.rootgc == h.rootgc
    && multiset(h'.udata) + multiset(h'.tmu) == multiset(h.udata) + multiset(h.tmu)
    && ClearedSoFar(h.body, color1, h'.body, h'.color, finalized, values, weak, |weak|)
  }

  lemma AtomicIsGood(h: Snapshot, h': Snapshot, color1: Colors, weak: seq<Ref>, values: set<Ref>, finalized: set<Ref>)
    requires Good(h) && AtomicDone(h, h', color1, weak, values, finalized)
    requires h.body.Keys == color1.Keys && Whole(h.body) && ProperMarks(h.body, color1) && forall r :: r in color1 ==>
      color1[r] != White(!h.white)
    requires forall r :: r in h.body && !color1[r].White? && r !in weak ==> AllMarked(h.body, color1, r)
    requires forall r :: r in weak ==> r in h.body && h.body[r].Table?
    requires forall r :: r in RootsOf(h'.mainthread, h'.running, h'.registry, h'.mt, h'.tmu) ==>
      r in color1 && !color1[r].White?
    ensures Good(h') && SameKinds(h.body, h'.body) && LostOnlyDead(h.body, h'.body, h'.color, h'.white, finalized)
    ensures forall r :: r in color1 && !color1[r].White? ==> Alive(h'.color, h'.white, r)
  {
    hide Safe, Linked, Cleared, AllMarked;
    assert weak[..|weak|] == weak;
    ClearedIsSafe(h.body, h'.body, color1, h'.color, h.white, weak);
    AtomicLinked(h, h');
    assert forall r :: r in color1 && !color1[r].White? ==> Alive(h'.color, h'.white, r);
    StillRooted(h, h', color1);
    MarksStayProper(h.body, h'.body, color1, h'.color);
    LostAreDead(h.body, color1, h'.body, h'.color, h.white, finalized, values, weak);
  }

  lemma StillRooted(h: Snapshot, h': Snapshot, color1: Colors)
    requires Good(h) && SameKinds(h.body, h'.body) && h'.mainthread == h.mainthread && h'.running == h.running &&
      h'.fixed == h.fixed
    requires forall r :: r in RootsOf(h'.mainthread, h'.running, h'.registry, h'.mt, h'.tmu) ==>
      r in color1 && !color1[r].White?
    requires forall r :: r in color1 && !color1[r].White? ==> Alive(h'.color, h'.white, r)
    ensures RootsAlive(h'.body, h'.color, h'.white, h'.mainthread, h'.running, h'.registry, h'.mt, h'.tmu)
    ensures FixedOk(h'.body, h'.fixed, h'.mainthread)
  {
  }

  lemma MarksStayProper(body: Bodies, body': Bodies, color: Colors, color': Colors)
    requires ProperMarks(body, color) && SameKinds(body, body') && StringsMarked(body, color, color') &&
      body.Keys == color.Keys
    ensures ProperMarks(body', color')
  {
  }

  lemma AtomicLinked(h: Snapshot, h': Snapshot)
    requires Good(h) && SameKinds(h.body, h'.body) && h'.rootgc == h.rootgc && h'.strt == h.strt &&
      h'.uvhead == h.uvhead
    requires multiset(h'.udata) + multiset(h'.tmu) == multiset(h.udata) + multiset(h.tmu)
    ensures Linked(h'.body, h'.rootgc, h'.udata, h'.tmu, h'.strt, h'.uvhead)
  {
    hide OpenUpvalues, Safe, StateOk, RootList;
    assert Linked(h.body, h.rootgc, h.udata, h.tmu, h.strt, h.uvhead);
    SameKindsUpvalues(h.body, h'.body, h.uvhead);
    assert Buckets(h'.body, h'.strt);
    SameRootList(h.body, h'.body, h.rootgc, h.udata, h.tmu, h'.udata, h'.tmu);
  }

  lemma SameRootList(body: Bodies, body': Bodies, rootgc: seq<Ref>, udata: seq<Ref>, tmu: seq<Ref>, udata': seq<Ref>,
      tmu': seq<Ref>)
    requires RootList(body, rootgc, udata, tmu) && SameKinds(body, body')
    requires multiset(udata') + multiset(tmu') == multiset(udata) + multiset(tmu)
    ensures RootList(body', rootgc, udata', tmu')
  {
    assert multiset(rootgc + udata + tmu) == multiset(rootgc) + (multiset(udata) + multiset(tmu));
    assert multiset(rootgc + udata' + tmu') == multiset(rootgc) + (multiset(udata') + multiset(tmu'));
    PermutedDistinct(rootgc + udata + tmu, rootgc + udata' + tmu');
    PermutedMembers(udata, tmu, udata', tmu');
  }

  lemma PermutedMembers(a: seq<Ref>, b: seq<Ref>, a': seq<Ref>, b': seq<Ref>)
    requires multiset(a) + multiset(b) == multiset(a') + multiset(b')
    ensures forall x :: x in a || x in b <==> x in a' || x in b'
  {
    forall x ensures x in a || x in b <==> x in a' || x in b' {
      assert x in a <==> x in multiset(a);
      assert x in b <==> x in multiset(b);
      assert x in a' <==> x in multiset(a');
      assert x in b' <==> x in multiset(b');
      assert (multiset(a) + multiset(b))[x] == (multiset(a') + multiset(b'))[x];
    }
  }

  lemma LostAreDead(body: Bodies, color1: Colors, body': Bodies, color': Colors, white: bool, finalized: set<Ref>,
      values: set<Ref>, weak: seq<Ref>)
    requires ClearedSoFar(body, color1, body', color', finalized, values, weak, |weak|)
    requires forall r :: r in color1 ==> color1[r] != White(!white)
    ensures LostOnlyDead(body, body', color', !white, finalized)
  {
    hide Cleared, TableLostOnlyDead;
    assert weak[..|weak|] == weak;
    forall h | h in body && h in body' && body[h].Table? && body'[h].Table?
      ensures TableLostOnlyDead(body, body[h], body'[h], color', !white, finalized)
    {
      if h in weak {
        LossIsDead(body, color1, body', color', white, finalized, values, h);
      } else {
        NothingIsLost(body, body[h], color', white, finalized);
      }
    }
  }

  /** What one table has lost. */
  lemma LossIsDead(body: Bodies, color1: Colors, body': Bodies, color': Colors, white: bool, finalized: set<Ref>,
      values: set<Ref>, h: Ref)
    requires Cleared(body, body', color1, finalized, values, h) && StringsMarked(body, color1, color')
    requires forall r :: r in color1 ==> color1[r] != White(!white)
    ensures TableLostOnlyDead(body, body[h], body'[h], color', !white, finalized)
  {
    forall v, isKey | Clearable(body, color1, finalized, v, isKey)
      ensures Lost(body, color', !white, finalized, v, isKey) {
    }
    hide Clearable, Lost;
  }

  lemma NothingIsLost(body: Bodies, t: Body, color': Colors, white: bool, finalized: set<Ref>)
    requires t.Table?
    ensures TableLostOnlyDead(body, t, t, color', !white, finalized)
  {
  }

  /** What `atomic` has reached when it is about to clear the weak tables. */
  ghost predicate AtomicMarked(h: Snapshot, h1: Snapshot, weak: seq<Ref>, keys: set<Ref>, values: set<Ref>) {
    && h1.body == h.body && h.body.Keys == h1.color.Keys && Whole(h.body) && ProperMarks(h.body, h1.color) &&
       h1.white == h.white
    && (forall r :: r in h1.color ==> h1.color[r] != White(!h.white))
    && (forall r :: r in h.body && !h1.color[r].White? ==> StrongMarked(h.body, h1.color, r))
    && (forall r :: r in h.body && !h1.color[r].White? && r !in weak ==> AllMarked(h.body, h1.color, r))
    && WeakAreListed(h.body, h.color, h1.color, weak)
    && Distinct(weak) &&
       (forall g :: g in weak ==> g in h1.color && !h1.color[g].White? && BitsMatch(h.body, keys, values, g))
    && h1.mainthread == h.mainthread && h1.running == h.running && h1.registry == h.registry && h1.mt == h.mt &&
       h1.fixed == h.fixed
    && h1.strt == h.strt && h1.uvhead == h.uvhead && h1.rootgc == h.rootgc
    && multiset(h1.udata) + multiset(h1.tmu) == multiset(h.udata) + multiset(h.tmu)
    && (forall r :: r in RootsOf(h.mainthread, h.running, h.registry, h.mt, h.tmu) ==>
       r in h1.color && !h1.color[r].White?)
    && (forall r :: r in RootsOf(h.mainthread, h.running, h.registry, h.mt, h1.tmu) ==>
       r in h1.color && !h1.color[r].White?)
  }

  lemma MarkedBeforeClearing(h: Snapshot, h1: Snapshot, weak: seq<Ref>, keys: set<Ref>, values: set<Ref>)
    requires h1.body == h.body && h1.white == h.white && h1.mainthread == h.mainthread && h1.running == h.running &&
      h1.registry == h.registry
    requires h1.mt == h.mt && h1.fixed == h.fixed && h1.strt == h.strt && h1.uvhead == h.uvhead && h1.rootgc == h.rootgc
    requires multiset(h1.udata) + multiset(h1.tmu) == multiset(h.udata) + multiset(h.tmu)
    requires h1.body.Keys == h1.color.Keys && Whole(h1.body) && ProperMarks(h1.body, h1.color) && forall r ::
      r in h1.color ==> h1.color[r] != White(!h1.white)
    requires forall r :: r in h1.body && !h1.color[r].White? ==> StrongMarked(h1.body, h1.color, r)
    requires forall r :: r in h1.body && !h1.color[r].White? && r !in weak ==> AllMarked(h1.body, h1.color, r)
    requires WeakAreListed(h1.body, h.color, h1.color, weak)
    requires Distinct(weak) && forall g :: g in weak ==>
      g in h1.color && !h1.color[g].White? && BitsMatch(h1.body, keys, values, g)
    requires forall r ::
      r in RootsOf(h.mainthread, h.running, h.registry, h.mt, h.tmu) +
           RootsOf(h1.mainthread, h1.running, h1.registry, h1.mt, h1.tmu) ==>
        r in h1.color && !h1.color[r].White?
    ensures AtomicMarked(h, h1, weak, keys, values)
  {
    hide RootsOf, StrongMarked, AllMarked, BitsMatch, Whole, ProperMarks, Distinct, WeakAreListed;
  }

  /** What the clearing of the weak tables and the change of white do. */
  ghost predicate Flipped(h1: Snapshot, h': Snapshot, weak: seq<Ref>, values: set<Ref>, finalized: set<Ref>) {
    && h'.gcstate == GCSsweepstring && h'.white == !h1.white && h'.done == {} && h'.sweepstrgc == 0 && h'.sweepgc == 0
    && h'.mainthread == h1.mainthread && h'.running == h1.running && h'.registry == h1.registry && h'.mt == h1.mt &&
       h'.fixed == h1.fixed
    && h'.strt == h1.strt && h'.uvhead == h1.uvhead && h'.rootgc == h1.rootgc && h'.udata == h1.udata &&
       h'.tmu == h1.tmu
    && ClearedSoFar(h1.body, h1.color, h'.body, h'.color, finalized, values, weak, |weak|)
  }

  lemma WeakCanBeCleared(h: Snapshot, h1: Snapshot, weak: seq<Ref>, keys: set<Ref>, values: set<Ref>)
    requires AtomicMarked(h, h1, weak, keys, values)
    ensures h1.body.Keys == h1.color.Keys && Whole(h1.body) && Distinct(weak)
    ensures forall g :: g in weak ==> BitsMatch(h1.body, keys, values, g) && StrongMarked(h1.body, h1.color, g)
    ensures forall g :: g in weak ==> g in h1.color && !h1.color[g].White?
  {
    forall g | g in weak ensures StrongMarked(h1.body, h1.color, g) {
      assert BitsMatch(h.body, keys, values, g);
    }
  }

  /** After the change of white the marked objects, and no others, are not dead. */
  lemma MarkedAreAlive(h: Snapshot, h1: Snapshot, body: Bodies, color: Colors, weak: seq<Ref>, keys: set<Ref>,
      values: set<Ref>, finalized: set<Ref>)
    requires AtomicMarked(h, h1, weak, keys, values) && ClearedSoFar(h1.body, h1.color, body, color, finalized, values,
      weak, |weak|)
    ensures forall r :: Alive(color, !h1.white, r) ==> !color[r].White?
  {
  }

  /** The heap after `atomic`: what the roots reach by strong references is not dead. */
  lemma FlippedIsGood(h: Snapshot, h1: Snapshot, h': Snapshot, weak: seq<Ref>, keys: set<Ref>, values: set<Ref>,
      finalized: set<Ref>)
    requires Good(h) && AtomicMarked(h, h1, weak, keys, values) && Flipped(h1, h', weak, values, finalized)
    ensures Good(h') && SameKinds(h.body, h'.body) && LostOnlyDead(h.body, h'.body, h'.color, h'.white, finalized)
    ensures forall r :: r in h1.color && !h1.color[r].White? ==> Alive(h'.color, h'.white, r)
  {
    hide Good, StrongMarked, AllMarked, RootsOf, LostOnlyDead, ClearedSoFar, WeakAreListed;
    forall g | g in weak ensures g in h.body && h.body[g].Table? {
      assert BitsMatch(h.body, keys, values, g);
    }
    hide BitsMatch;
    AtomicIsGood(h, h', h1.color, weak, values, finalized);
  }

  /** What the roots reach by strong references is not dead, and so is what a userdata with a finalizer that is
      still to be called reaches. */
  lemma KeptIsAlive(h: Snapshot, h1: Snapshot, h': Snapshot, weak: seq<Ref>, keys: set<Ref>, values: set<Ref>,
      finalized: set<Ref>, finalized': set<Ref>)
    requires AtomicMarked(h, h1, weak, keys, values) && Flipped(h1, h', weak, values, finalized')
    requires forall r :: r in h1.color && !h1.color[r].White? ==> Alive(h'.color, h'.white, r)
    requires forall u :: u in FinalsOf(h.body, finalized) ==> Alive(h'.color, h'.white, u)
    ensures forall r :: StronglyReachable(h.body, RootsAt(h) + FinalsOf(h.body, finalized), r) ==>
      Alive(h'.color, h'.white, r)
  {
    hide StrongMarked, AllMarked, BitsMatch, RootsOf, StronglyReachable, WeakAreListed, Cleared, SameKinds;
    MarkedAreAlive(h, h1, h'.body, h'.color, weak, keys, values, finalized');
    forall u | u in FinalsOf(h.body, finalized) ensures u in h1.color && !h1.color[u].White? {
      assert h1.body[u].Userdata?;
    }
    StrongReachIsMarked(h.body, h1.color, RootsAt(h) + FinalsOf(h.body, finalized));
  }

  /** The weak tables that are not dead hold no userdata that is being finalized, unless they had been traversed
      before they became weak. */
  ghost predicate Purified(color: Colors, h': Snapshot, finalized: set<Ref>) {
    forall g :: IsWeak(h'.body, g) && Alive(h'.color, h'.white, g) && !IsBlack(color, g) ==>
      HoldsNoFinalized(h'.body, finalized, g)
  }

  lemma AllArePurified(h: Snapshot, h1: Snapshot, h': Snapshot, weak: seq<Ref>, keys: set<Ref>, values: set<Ref>,
      finalized: set<Ref>)
    requires AtomicMarked(h, h1, weak, keys, values) && Flipped(h1, h', weak, values, finalized)
    ensures Purified(h.color, h', finalized)
  {
    hide StrongMarked, AllMarked, BitsMatch, RootsOf, Cleared, SameKinds, IsWeak, HoldsNoFinalized, Whole, ProperMarks,
      Distinct;
    MarkedAreAlive(h, h1, h'.body, h'.color, weak, keys, values, finalized);
    assert weak[..|weak|] == weak;
    forall g | IsWeak(h'.body, g) && Alive(h'.color, h'.white, g) && !IsBlack(h.color, g)
      ensures HoldsNoFinalized(h'.body, finalized, g)
    {
      SameModes(h.body, h'.body, g);
      WeakIsNoString(h.body, g);
      ClearedHoldsNoFinalized(h.body, h'.body, h1.color, finalized, keys, values, g);
    }
  }

  lemma WeakIsNoString(body: Bodies, h: Ref)
    requires IsWeak(body, h)
    ensures h in body && body[h].Table?
  {
  }

  lemma StrongReachIsMarked(body: Bodies, color: Colors, roots: set<Ref>)
    requires forall x :: x in roots ==> x in color && !color[x].White?
    requires forall r :: r in body && r in color && !color[r].White? ==> StrongMarked(body, color, r)
    ensures forall r :: StronglyReachable(body, roots, r) ==> r in color && !color[r].White?
  {
    hide StrongMarked, StronglyReachable;
    forall r | StronglyReachable(body, roots, r) ensures r in color && !color[r].White? {
      ReachableIsMarked(body, color, roots, r);
    }
  }

  // ---- finalizers

  /** `GCTM`: the first userdata of the list returns to the other userdata, white again. */
  ghost predicate Returning(h: Snapshot, h': Snapshot) {
    && h.tmu != [] && h.tmu[0] in h.color
    && h'.gcstate == h.gcstate && h'.body == h.body && h'.color == h.color[h.tmu[0] := White(h.white)] &&
       h'.white == h.white && h'.lists == h.lists
    && h'.tmu == h.tmu[1..] && h'.udata == [h.tmu[0]] + h.udata && h'.done == {}
    && h'.mainthread == h.mainthread && h'.running == h.running && h'.registry == h.registry && h'.mt == h.mt &&
       h'.fixed == h.fixed
    && h'.sweepstrgc == h.sweepstrgc && h'.sweepgc == h.sweepgc && h'.strt == h.strt && h'.uvhead == h.uvhead &&
       h'.rootgc == h.rootgc
  }

  lemma ReturnedIsGood(h: Snapshot, h': Snapshot)
    requires Good(h) && h.gcstate == GCSfinalize && Returning(h, h')
    ensures Good(h') && h.tmu[0] in h'.body && Alive(h'.color, h'.white, h.tmu[0])
  {
    hide Safe, Linked, StateOk, RootsOf;
    TmuIsUserdata(h);
    RootsInHeap(h);
    KeysOfHeap(h.body, h.color, h.white);
    WhitenedIsSafe(h.body, h.color, h.white, h.tmu[0]);
    ReturnedIsLinked(h, h');
    ReturnedRoots(h, h');
    ReturnedKeepsState(h, h');
  }

  lemma ReturnedIsLinked(h: Snapshot, h': Snapshot)
    requires Good(h) && Returning(h, h')
    ensures Linked(h'.body, h'.rootgc, h'.udata, h'.tmu, h'.strt, h'.uvhead)
  {
    hide Safe, StateOk, Buckets, OpenUpvalues, RootList;
    assert Linked(h.body, h.rootgc, h.udata, h.tmu, h.strt, h.uvhead);
    assert h.tmu == [h.tmu[0]] + h.tmu[1..];
    assert multiset(h.tmu) == multiset{h.tmu[0]} + multiset(h.tmu[1..]);
    assert multiset([h.tmu[0]] + h.udata) == multiset{h.tmu[0]} + multiset(h.udata);
    SameRootList(h.body, h.body, h.rootgc, h.udata, h.tmu, h'.udata, h'.tmu);
  }

  lemma ReturnedRoots(h: Snapshot, h': Snapshot)
    requires Good(h) && Returning(h, h')
    ensures RootsAlive(h'.body, h'.color, h'.white, h'.mainthread, h'.running, h'.registry, h'.mt, h'.tmu)
  {
    hide Safe, StateOk, Linked;
    var roots, roots' := RootsOf(h.mainthread, h.running, h.registry, h.mt, h.tmu),
      RootsOf(h'.mainthread, h'.running, h'.registry, h'.mt, h'.tmu);
    assert forall x :: x in h'.tmu ==> x in h.tmu;
    assert roots' <= roots;
  }

  lemma ReturnedKeepsState(h: Snapshot, h': Snapshot)
    requires Good(h) && h.gcstate == GCSfinalize && Returning(h, h')
    ensures StateOk(h'.gcstate, h'.body, h'.color, h'.white, h'.lists, h'.tmu, h'.done, h'.mainthread, h'.registry,
      h'.strt, h'.sweepstrgc, h'.rootgc + h'.udata, h'.sweepgc)
  {
    hide Safe, Linked;
    var u := h.tmu[0];
    assert h.tmu == [u] + h.tmu[1..];
    forall x | x in h'.color && x !in h'.tmu ensures h'.color[x] == White(h.white) {
      if x in h.tmu {
        assert x == u;
      }
    }
  }

  // ---- the collector makes progress

  /** The sweep pointer is within the objects of the heap. */
  lemma SweepIsInside(h: Snapshot)
    requires Good(h) && h.gcstate == GCSsweep
    ensures h.sweepgc <= |h.rootgc + h.udata| <= |h.body|
  {
    assert RootList(h.body, h.rootgc, h.udata, h.tmu);
    var all := h.rootgc + h.udata;
    assert forall i :: 0 <= i < |all| ==> all[i] == (h.rootgc + h.udata + h.tmu)[i];
    DistinctSize(all);
    SubsetSize(Members(all), h.body.Keys);
    assert |h.body.Keys| == |h.body|;
  }

  ghost function Members(s: seq<Ref>): set<Ref> { set r | r in s }

  lemma {:induction false} DistinctSize(s: seq<Ref>)
    requires Distinct(s)
    ensures |Members(s)| == |s|
  {
    if s == [] {
      assert Members(s) == {};
    } else {
      var front, last := s[..|s| - 1], s[|s| - 1];
      DistinctSize(front);
      assert Members(s) == Members(front) + {last};
    }
  }

  // ---- whole steps

  /** What the roots reach by strong references is not dead. */
  lemma StronglyReachableIsAlive(h: Snapshot)
    requires Good(h)
    ensures forall r :: StronglyReachable(h.body, RootsOf(h.mainthread, h.running, h.registry, h.mt, h.tmu), r) ==>
      Alive(h.color, h.white, r)
  {
    hide StateOk, Linked, RootsOf;
    var roots := RootsOf(h.mainthread, h.running, h.registry, h.mt, h.tmu);
    forall r | StronglyReachable(h.body, roots, r) ensures Alive(h.color, h.white, r) {
      StrongIsReachable(h.body, roots, r);
      ReachableIsAlive(h.body, h.color, h.white, h.mainthread, h.running, h.registry, h.mt, h.tmu, r);
    }
  }

  lemma StrongIsReachable(body: Bodies, roots: set<Ref>, r: Ref)
    requires StronglyReachable(body, roots, r)
    ensures Reachable(body, roots, r)
  {
    var path :| StrongPath(body, path) && path[0] in roots && path[|path| - 1] == r;
    forall i | 0 <= i < |path| - 1 ensures path[i] in body && Link(body, path, i) {
      assert StrongLink(body, path, i);
      StronglyRefers(body, path[i], path[i + 1]);
    }
    assert Path(body, path);
  }

  /** How far the collector is from the end of the collection. */
  ghost function Rank(gcstate: GCState): nat {
    match gcstate
    case GCSpropagate => 4
    case GCSsweepstring => 3
    case GCSsweep => 2
    case GCSfinalize => 1
    case GCSpause => 0
  }

  ghost predicate Nearer(rank0: nat, rest0: int, rank: nat, rest: int) {
    rank < rank0 || (rank == rank0 && rest < rest0)
  }

  lemma StillAlive(h: Snapshot, h': Snapshot)
    requires Good(h) && Survive(h, h')
    ensures forall r :: Alive(h.color, h.white, r) ==> Alive(h'.color, h'.white, r)
  {
    hide StateOk, Linked;
    KeysOfHeap(h.body, h.color, h.white);
  }

  ghost predicate SameRoots(h: Snapshot, h': Snapshot) {
    h'.mainthread == h.mainthread && h'.running == h.running && h'.registry == h.registry && h'.mt == h.mt &&
      h'.fixed == h.fixed
  }

  ghost function RootsAt(h: Snapshot): set<Ref> { RootsOf(h.mainthread, h.running, h.registry, h.mt, h.tmu) }

  /** What the roots reach by strong references in `h` is not dead in `h'`. */
  ghost predicate StrongStay(h: Snapshot, h': Snapshot) {
    forall r :: StronglyReachable(h.body, RootsAt(h), r) ==> Alive(h'.color, h'.white, r)
  }

  /** A step of the sweep. */
  ghost predicate SweepStepped(h: Snapshot, h': Snapshot) {
    Survive(h, h') && h'.tmu == h.tmu && h'.white == h.white && (Sweeping(h') || h'.gcstate == GCSfinalize)
  }

  /** A value has been pushed on the stack of a thread, or nothing has changed. */
  ghost predicate StackGrew(body: Bodies, body': Bodies, th: Ref) {
    && th in body && body[th].Thread? && th in body' && body'[th].Thread?
    && body' == WithStack(body, th, body'[th].stack) && body[th].stack <= body'[th].stack
  }

  lemma StackSame(body: Bodies, th: Ref)
    requires th in body && body[th].Thread?
    ensures StackGrew(body, body, th)
  {
    assert body == WithStack(body, th, body[th].stack);
  }

  lemma StackPushed(body: Bodies, th: Ref, v: Value)
    requires th in body && body[th].Thread?
    ensures StackGrew(body, WithStack(body, th, body[th].stack + [v]), th)
  {
  }

  /** A finalizer is called, or the collection ends. */
  ghost predicate FinalStepped(h: Snapshot, h': Snapshot) {
    && (h'.gcstate == GCSfinalize || h'.gcstate == GCSpause) && StackGrew(h.body, h'.body, h.running) &&
       h'.white == h.white
    && (h'.gcstate == GCSpause ==> h'.tmu == [])
    && forall r :: Alive(h.color, h.white, r) ==> Alive(h'.color, h'.white, r)
  }

  /** The atomic phase: what is lost, what is spared, and what will be freed. */
  ghost predicate AtomicStep(h: Snapshot, finalized: set<Ref>, h': Snapshot, finalized': set<Ref>, live: iset<Ref>,
      doomed: set<Ref>) {
    && SameKinds(h.body, h'.body) && LostOnlyDead(h.body, h'.body, h'.color, h'.white, finalized')
    && Purified(h.color, h', finalized')
    && (forall r :: StronglyReachable(h.body, RootsAt(h) + FinalsOf(h.body, finalized), r) ==>
          Alive(h'.color, h'.white, r))
    && (forall r :: r in h'.body && Alive(h'.color, h'.white, r) ==> Spared(h.body, live, r))
    && doomed == DeadOnes(h'.body, h'.color, h'.white, h'.fixed)
  }

  lemma SurvivorsStay(h: Snapshot, h': Snapshot)
    requires Good(h) && Survive(h, h')
    ensures StrongStay(h, h')
  {
    hide Good, Survive, StronglyReachable, RootsOf;
    StronglyReachableIsAlive(h);
    StillAlive(h, h');
  }

  lemma LiveOnesStay(h: Snapshot, h': Snapshot)
    requires Good(h) && forall r :: Alive(h.color, h.white, r) ==> Alive(h'.color, h'.white, r)
    ensures StrongStay(h, h')
  {
    hide Good, StronglyReachable, RootsOf;
    StronglyReachableIsAlive(h);
  }

  lemma StayLonger(h: Snapshot, h1: Snapshot, h2: Snapshot)
    requires Good(h1) && SameRoots(h, h1) && StrongStay(h, h1) && StrongStay(h1, h2) && h1.gcstate != GCSpause
    requires h1.gcstate == GCSpropagate ==> h.body == h1.body && h.tmu == h1.tmu
    requires Sweeping(h1) ==> SweepStepped(h1, h2)
    requires h1.gcstate == GCSfinalize ==> FinalStepped(h1, h2)
    ensures StrongStay(h, h2)
  {
    hide Good, Survive, StronglyReachable, RootsOf;
    if Sweeping(h1) {
      StillAlive(h1, h2);
    }
  }

  lemma StayAfterAtomic(h: Snapshot, h': Snapshot, finals: set<Ref>)
    requires forall r :: StronglyReachable(h.body, RootsAt(h) + finals, r) ==> Alive(h'.color, h'.white, r)
    ensures StrongStay(h, h')
  {
    hide StrongPath, RootsOf;
    forall r | StronglyReachable(h.body, RootsAt(h), r) ensures Alive(h'.color, h'.white, r) {
      MoreRoots(h.body, RootsAt(h), RootsAt(h) + finals, r);
    }
  }

  lemma MoreRoots(body: Bodies, roots: set<Ref>, roots': set<Ref>, r: Ref)
    requires StronglyReachable(body, roots, r) && roots <= roots'
    ensures StronglyReachable(body, roots', r)
  {
    hide Strongly;
    var path :| StrongPath(body, path) && path[0] in roots && path[|path| - 1] == r;
    assert path[0] in roots';
  }

  // ---- finalizers that are still to be called

  /** `luaC_separateudata` queues the userdata: it is not marked, and has a finalizer. */
  predicate ToFinalize(body: Bodies, color: Colors, finalized: set<Ref>, u: Ref) {
    && u in color && color[u].White? && u !in finalized
    && u in body && body[u].Userdata? && FinalizerIn(body, body[u].meta)
  }

  function Chosen(body: Bodies, color: Colors, finalized: set<Ref>, us: seq<Ref>): seq<Ref> {
    if us == [] then [] else
      var front, u := us[..|us| - 1], us[|us| - 1];
      Chosen(body, color, finalized, front) + if ToFinalize(body, color, finalized, u) then [u] else []
  }

  function Passed(body: Bodies, color: Colors, finalized: set<Ref>, us: seq<Ref>): seq<Ref> {
    if us == [] then [] else
      var front, u := us[..|us| - 1], us[|us| - 1];
      Passed(body, color, finalized, front) + if ToFinalize(body, color, finalized, u) then [] else [u]
  }

  function WhitesIn(color: Colors, us: seq<Ref>): set<Ref> {
    set u | u in us && u in color && color[u].White?
  }

  lemma {:induction false} ChosenOrPassed(body: Bodies, color: Colors, finalized: set<Ref>, us: seq<Ref>)
    ensures forall u :: u in Chosen(body, color, finalized, us) <==> u in us && ToFinalize(body, color, finalized, u)
    ensures forall u :: u in Passed(body, color, finalized, us) <==> u in us && !ToFinalize(body, color, finalized, u)
  {
    hide ToFinalize;
    if us != [] {
      var front, u := us[..|us| - 1], us[|us| - 1];
      ChosenOrPassed(body, color, finalized, front);
      assert us == front + [u];
    }
  }

  /** Of the userdata in the list exactly those are queued whose metatable has a finalizer, that are not marked, and
      that have not been queued before. */
  lemma QueuedAre(body: Bodies, color: Colors, finalized: set<Ref>, us: seq<Ref>, u: Ref)
    ensures u in Chosen(body, color, finalized, us) <==>
      && u in us && u in color && (color[u] == White(false) || color[u] == White(true)) && u !in finalized
      && u in body && body[u].Userdata? && body[u].meta.Gco?
      && body[u].meta.ref in body && body[body[u].meta.ref].Table? && body[body[u].meta.ref].gcTag
  {
    ChosenOrPassed(body, color, finalized, us);
  }

  lemma {:induction false} NoneIsLost(body: Bodies, color: Colors, finalized: set<Ref>, us: seq<Ref>)
    ensures multiset(Passed(body, color, finalized, us)) + multiset(Chosen(body, color, finalized, us)) == multiset(us)
  {
    hide ToFinalize;
    if us != [] {
      var front, u := us[..|us| - 1], us[|us| - 1];
      NoneIsLost(body, color, finalized, front);
      assert us == front + [u];
    }
  }

  /** One more userdata has been looked at. */
  lemma NextChosen(body: Bodies, color: Colors, finalized: set<Ref>, us: seq<Ref>, n: nat)
    requires n < |us|
    ensures Chosen(body, color, finalized, us[..n + 1]) ==
      Chosen(body, color, finalized, us[..n]) + if ToFinalize(body, color, finalized, us[n]) then [us[n]] else []
    ensures Passed(body, color, finalized, us[..n + 1]) ==
      Passed(body, color, finalized, us[..n]) + if ToFinalize(body, color, finalized, us[n]) then [] else [us[n]]
    ensures WhitesIn(color, us[..n + 1]) ==
      WhitesIn(color, us[..n]) + if us[n] in color && color[us[n]].White? then {us[n]} else {}
  {
    hide ToFinalize;
    var s := us[..n + 1];
    assert s[..|s| - 1] == us[..n] && s == us[..n] + [us[n]];
  }

  /** What is known when the userdata have been separated: those in the list that are still not marked
      need no finalizer any more, and whoever has lost its turn is queued. */
  ghost predicate Separated(body: Bodies, color: Colors, tmu0: seq<Ref>, finalized0: set<Ref>, udata: seq<Ref>,
      tmu: seq<Ref>, finalized: set<Ref>) {
    && tmu0 <= tmu
    && (forall u :: u in udata && IsWhite(color, u) ==> u in finalized)
    && (forall u :: u in finalized && u in FinalsOf(body, finalized0) ==> u in tmu)
  }

  lemma NowSeparated(body: Bodies, color: Colors, tmu: seq<Ref>, finalized: set<Ref>, udata: seq<Ref>)
    ensures Separated(body, color, tmu, finalized, Passed(body, color, finalized, udata),
      tmu + Chosen(body, color, finalized, udata), finalized + WhitesIn(color, udata))
  {
    ChosenOrPassed(body, color, finalized, udata);
  }

  lemma SeparatedStays(body: Bodies, color: Colors, color': Colors, tmu0: seq<Ref>, finalized0: set<Ref>,
      udata: seq<Ref>, tmu: seq<Ref>, finalized: set<Ref>)
    requires Separated(body, color, tmu0, finalized0, udata, tmu, finalized)
    requires color'.Keys == color.Keys && forall r :: r in color && !color[r].White? ==> !color'[r].White?
    ensures Separated(body, color', tmu0, finalized0, udata, tmu, finalized)
  {
  }

  /** The userdata that the sweep frees have no finalizer to be called. */
  ghost predicate Disposed(udata: seq<Ref>, doomed: set<Ref>, finalized: set<Ref>) {
    forall u :: u in udata && u in doomed ==> u in finalized
  }

  /** The finalizer of the userdata is still to be called. */
  ghost predicate Due(h: Snapshot, finalized: set<Ref>, u: Ref) {
    && u in h.body && h.body[u].Userdata? && FinalizerIn(h.body, h.body[u].meta)
    && (u !in finalized || u in h.tmu)
  }

  /** The userdata is on the stack of the running thread, where its finalizer is called with it. */
  ghost predicate Handed(h: Snapshot, u: Ref) {
    h.running in h.body && h.body[h.running].Thread? && Gco(u) in h.body[h.running].stack
  }

  /** No finalizer is lost: it stays due until it is called. */
  ghost predicate FinalsStay(h: Snapshot, finalized: set<Ref>, h': Snapshot, finalized': set<Ref>) {
    && (forall u :: Due(h, finalized, u) ==> Due(h', finalized', u) || Handed(h', u))
    && (forall u :: Handed(h, u) ==> Handed(h', u))
  }

  lemma FinalsStayLonger(a: Snapshot, fa: set<Ref>, b: Snapshot, fb: set<Ref>, c: Snapshot, fc: set<Ref>)
    requires FinalsStay(a, fa, b, fb) && FinalsStay(b, fb, c, fc)
    ensures FinalsStay(a, fa, c, fc)
  {
    hide Due, Handed;
  }

  /** Marking changes nothing. */
  lemma FinalsAfterMarking(h: Snapshot, h': Snapshot, finalized: set<Ref>)
    requires SameHeap(h, h')
    ensures FinalsStay(h, finalized, h', finalized)
  {
  }

  lemma FinalsAfterNothing(h: Snapshot, h': Snapshot, finalized: set<Ref>)
    requires h'.body == h.body && h'.tmu == h.tmu && h'.running == h.running
    ensures FinalsStay(h, finalized, h', finalized)
  {
  }

  /** A userdata whose finalizer is due is not dead. */
  lemma DueIsAlive(h: Snapshot, doomed: set<Ref>, finalized: set<Ref>, u: Ref)
    requires Good(h) && Condemned(doomed, h.body, h.color, h.white, h.fixed) && Disposed(h.udata, doomed, finalized)
    requires Due(h, finalized, u)
    ensures Alive(h.color, h.white, u) && u !in doomed
  {
    hide StateOk;
    RootsInHeap(h);
    KeysOfHeap(h.body, h.color, h.white);
    assert RootList(h.body, h.rootgc, h.udata, h.tmu);
    assert Rooted(h.body[u]);
    assert u !in h.rootgc;
  }

  /** When a whole collection is over, the finalizers are still due of marked userdata only. */
  lemma FinalsCalled(h: Snapshot, finalized: set<Ref>, h': Snapshot, finalized': set<Ref>)
    requires FinalsStay(h, finalized, h', finalized') && h'.tmu == [] && Good(h')
    requires h'.running in h'.body && h'.body[h'.running].Thread?
    ensures forall u :: u in FinalsOf(h.body, finalized) ==>
      u in h'.body && (u !in finalized' || Gco(u) in h'.body[h'.running].stack)
  {
    hide Good;
    forall u | u in FinalsOf(h.body, finalized)
      ensures u in h'.body && (u !in finalized' || Gco(u) in h'.body[h'.running].stack)
    {
      assert Due(h, finalized, u);
      if Handed(h', u) {
        HandedIsThere(h', u);
      }
    }
  }

  lemma HandedIsThere(h: Snapshot, u: Ref)
    requires Good(h) && Handed(h, u)
    ensures u in h.body
  {
    hide StateOk, Linked;
    KeysOfHeap(h.body, h.color, h.white);
    assert h.running in RootsOf(h.mainthread, h.running, h.registry, h.mt, h.tmu);
    assert AllAlive(h.body, h.color, h.white, h.running) && Refers(h.body, h.running, u);
  }

  /** The sweep frees no userdata whose finalizer is due. */
  lemma FinalsAfterSweep(h: Snapshot, h': Snapshot, doomed: set<Ref>, finalized: set<Ref>)
    requires Good(h) && Condemned(doomed, h.body, h.color, h.white, h.fixed) && Disposed(h.udata, doomed, finalized)
    requires Survive(h, h') && h'.tmu == h.tmu && h'.running == h.running
    ensures FinalsStay(h, finalized, h', finalized)
  {
    hide Good, Condemned, Disposed, Survive;
    forall u | Due(h, finalized, u) ensures Due(h', finalized, u) {
      DueIsAlive(h, doomed, finalized, u);
      MetatableStays(h, h', u);
    }
    RunningStays(h, h');
  }

  lemma MetatableStays(h: Snapshot, h': Snapshot, u: Ref)
    requires Good(h) && Survive(h, h') && u in h.body && h.body[u].Userdata? && Alive(h.color, h.white, u)
    requires FinalizerIn(h.body, h.body[u].meta)
    ensures u in h'.body && h'.body[u] == h.body[u] && FinalizerIn(h'.body, h.body[u].meta)
  {
    hide StateOk, Linked;
    var m := h.body[u].meta.ref;
    assert SameMeaning(h.body, h'.body, u);
    assert AllAlive(h.body, h.color, h.white, u) && Refers(h.body, u, m);
    assert SameMeaning(h.body, h'.body, m);
  }

  lemma RunningStays(h: Snapshot, h': Snapshot)
    requires Good(h) && Survive(h, h')
    ensures h.running in h.body && h.running in h'.body && h.body[h.running].Thread? && h'.body[h.running].Thread?
    ensures h'.body[h.running].stack == h.body[h.running].stack
  {
    hide StateOk, Linked, Safe;
    assert h.running in RootsOf(h.mainthread, h.running, h.registry, h.mt, h.tmu);
    assert SameMeaning(h.body, h'.body, h.running);
  }

  /** After the atomic phase. */
  lemma FinalsAfterAtomic(h: Snapshot, h1: Snapshot, h': Snapshot, finalized: set<Ref>, finalized': set<Ref>)
    requires Separated(h.body, h1.color, h.tmu, finalized, h1.udata, h1.tmu, finalized')
    requires SameKinds(h.body, h'.body) && h'.tmu == h1.tmu && h'.running == h.running
    ensures FinalsStay(h, finalized, h', finalized')
  {
    forall u | Due(h, finalized, u) ensures Due(h', finalized', u) {
      assert SameKind(h.body[u], h'.body[u]) && SameKind(h.body[h.body[u].meta.ref], h'.body[h.body[u].meta.ref]);
    }
    if h.running in h.body {
      assert SameKind(h.body[h.running], h'.body[h.running]);
    }
  }

  lemma DisposedAfterAtomic(h1: Snapshot, h': Snapshot, body: Bodies, tmu: seq<Ref>, finalized: set<Ref>,
      finalized': set<Ref>, doomed: set<Ref>)
    requires Separated(body, h1.color, tmu, finalized, h1.udata, h1.tmu, finalized') && h'.udata == h1.udata
    requires StringsMarked(h1.body, h1.color, h'.color) && doomed == DeadOnes(h'.body, h'.color, h'.white, h'.fixed)
    ensures Disposed(h'.udata, doomed, finalized')
  {
  }

  /** No finalizer is lost in the atomic phase. */
  lemma FinalsAreQueued(h: Snapshot, h1: Snapshot, h': Snapshot, weak: seq<Ref>, values: set<Ref>,
      finalized: set<Ref>, finalized': set<Ref>, doomed: set<Ref>)
    requires Good(h') && h1.body == h.body && Flipped(h1, h', weak, values, finalized') && h1.running == h.running
    requires Separated(h.body, h1.color, h.tmu, finalized, h1.udata, h1.tmu, finalized')
    requires doomed == DeadOnes(h'.body, h'.color, h'.white, h'.fixed)
    ensures Disposed(h'.udata, doomed, finalized') && FinalsStay(h, finalized, h', finalized')
    ensures forall u :: u in FinalsOf(h.body, finalized) ==>
      Alive(h'.color, h'.white, u) && u !in doomed && (u in finalized' ==> u in h'.tmu)
  {
    hide Good, Disposed, Separated, SameKinds, StringsMarked;
    DisposedAfterAtomic(h1, h', h.body, h.tmu, finalized, finalized', doomed);
    FinalsAfterAtomic(h, h1, h', finalized, finalized');
    forall u | u in FinalsOf(h.body, finalized)
      ensures Alive(h'.color, h'.white, u) && u !in doomed && (u in finalized' ==> u in h'.tmu)
    {
      assert Due(h, finalized, u);
      FinalIsQueued(h, h1, h', finalized, finalized', u);
      DueIsAlive(h', doomed, finalized', u);
    }
  }

  lemma FinalIsQueued(h: Snapshot, h1: Snapshot, h': Snapshot, finalized: set<Ref>, finalized': set<Ref>, u: Ref)
    requires Separated(h.body, h1.color, h.tmu, finalized, h1.udata, h1.tmu, finalized')
    requires SameKinds(h.body, h'.body) && h'.tmu == h1.tmu && u in FinalsOf(h.body, finalized)
    ensures Due(h', finalized', u) && (u in finalized' ==> u in h'.tmu)
  {
    assert SameKind(h.body[u], h'.body[u]) && SameKind(h.body[h.body[u].meta.ref], h'.body[h.body[u].meta.ref]);
  }

  /** After a finalizer has been called. */
  lemma FinalsAfterCall(h: Snapshot, h': Snapshot, finalized: set<Ref>)
    requires h.tmu != [] && h'.tmu == h.tmu[1..] && h'.running == h.running
    requires h.running in h.body && h.body[h.running].Thread? && h.tmu[0] in h.body && h.body[h.tmu[0]].Userdata?
    requires h'.body == if FinalizerIn(h.body, h.body[h.tmu[0]].meta)
      then WithStack(h.body, h.running, h.body[h.running].stack + [Gco(h.tmu[0])]) else h.body
    ensures FinalsStay(h, finalized, h', finalized)
  {
    forall u | Due(h, finalized, u) ensures Due(h', finalized, u) || Handed(h', u) {
      if u in h.tmu && u !in h.tmu[1..] {
        assert u == h.tmu[0];
        assert h'.body[h.running].stack[|h.body[h.running].stack|] == Gco(u);
      }
    }
  }
}
