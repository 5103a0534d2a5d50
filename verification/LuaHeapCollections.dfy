/** Whole collections: what they keep, and what they free. */
module LuaHeapCollections {
  import opened LuaHeap
  import opened LuaHeapLists
  import opened LuaHeapStates
  import opened LuaHeapSweep

  ghost function StrongSet(body: Bodies, roots: set<Ref>): iset<Ref> { iset r | StronglyReachable(body, roots, r) }

  /** What a collection that starts now may keep. */
  ghost function KeptSet(h: Snapshot, finalized: set<Ref>): iset<Ref> {
    StrongSet(h.body, RootsAt(h) + FinalsOf(h.body, finalized))
  }

  // ---- what stays

  /** A weak table may lose a key or a value that is not in `strong`; strings are never lost. */
  ghost predicate KeyMayGo(body: Bodies, strong: iset<Ref>, v: Value) {
    v.Gco? && v.ref !in strong && v.ref in body && !body[v.ref].TString?
  }

  /** It may also lose a value that is a userdata being finalized. */
  ghost predicate ValueMayGo(body: Bodies, strong: iset<Ref>, finalized: set<Ref>, v: Value) {
    KeyMayGo(body, strong, v) || (v.Gco? && v.ref in body && body[v.ref].Userdata? && v.ref in finalized)
  }

  ghost predicate SlotStays(body: Bodies, strong: iset<Ref>, finalized: set<Ref>, v: Value, v': Value) {
    v' == v || (v' == Nil && ValueMayGo(body, strong, finalized, v))
  }

  ghost predicate EntryStays(body: Bodies, strong: iset<Ref>, finalized: set<Ref>, e: Entry, e': Entry) {
    e' == e || (e' == e.(val := Nil) && (KeyMayGo(body, strong, e.key) || ValueMayGo(body, strong, finalized, e.val)))
  }

  /** What can be read in the object is what it was, but for lost entries of tables; values may have
      been pushed on a stack. An upvalue stays open on its slot for as long as the thread is there. */
  ghost predicate Stays(strong: iset<Ref>, finalized: set<Ref>, body: Bodies, body': Bodies, r: Ref) {
    && r in body && r in body'
    && match body[r]
       case Thread(globals, stack, _) => body'[r].Thread? && body'[r].globals == globals && stack <= body'[r].stack
       case UpVal(v) => body'[r].UpVal? && ValueOf(body', body'[r].v) == ValueOf(body, v) &&
         SamePlace(body', v, body'[r].v)
       case Table(_, arr, node, _, _) =>
         && body'[r].Table? && body'[r] == body[r].(arr := body'[r].arr, node := body'[r].node)
         && |body'[r].arr| == |arr| && |body'[r].node| == |node|
         && (forall i :: 0 <= i < |arr| ==> SlotStays(body, strong, finalized, arr[i], body'[r].arr[i]))
         && (forall i :: 0 <= i < |node| ==> EntryStays(body, strong, finalized, node[i], body'[r].node[i]))
       case _ => body'[r] == body[r]
  }

  lemma StaysAfterAtomic(strong: iset<Ref>, finalized: set<Ref>, body: Bodies, body1: Bodies, body2: Bodies,
      color: Colors, white: bool, r: Ref)
    requires SameMeaning(body, body1, r) && SameKinds(body1, body2) &&
      LostOnlyDead(body1, body2, color, white, finalized)
    requires forall x :: x in body1 ==> SameMeaning(body, body1, x)
    requires forall x :: x in strong ==> Alive(color, white, x)
    ensures Stays(strong, finalized, body, body2, r)
  {
    assert SameKind(body1[r], body2[r]);
    if body[r].UpVal? && body1[r].v.Open? && body1[r].v.thread in body1 {
      assert SameKind(body1[body1[r].v.thread], body2[body1[r].v.thread]);
    } else if body[r].Table? {
      assert SameLengths(body1[r], body2[r]);
      LossesAllowed(strong, finalized, body, body1, color, white);
      forall i | 0 <= i < |body[r].arr| ensures SlotStays(body, strong, finalized, body[r].arr[i], body2[r].arr[i]) {
      }
      forall i | 0 <= i < |body[r].node|
        ensures EntryStays(body, strong, finalized, body[r].node[i], body2[r].node[i])
      {
      }
    }
  }

  /** What the atomic phase may take away. */
  lemma LossesAllowed(strong: iset<Ref>, finalized: set<Ref>, body: Bodies, body1: Bodies, color: Colors, white: bool)
    requires forall x :: x in strong ==> Alive(color, white, x)
    requires forall x :: x in body1 ==> SameMeaning(body, body1, x)
    ensures forall v :: Lost(body1, color, white, finalized, v, true) ==> KeyMayGo(body, strong, v)
    ensures forall v :: Lost(body1, color, white, finalized, v, false) ==> ValueMayGo(body, strong, finalized, v)
  {
    forall v, isKey | Lost(body1, color, white, finalized, v, isKey)
      ensures if isKey then KeyMayGo(body, strong, v) else ValueMayGo(body, strong, finalized, v)
    {
      assert SameMeaning(body, body1, v.ref);
    }
  }

  lemma StaysAfterSweep(strong: iset<Ref>, finalized: set<Ref>, body: Bodies, h1: Snapshot, h2: Snapshot, r: Ref)
    requires Stays(strong, finalized, body, h1.body, r) && Survive(h1, h2) && Alive(h1.color, h1.white, r)
    ensures Stays(strong, finalized, body, h2.body, r)
  {
  }

  lemma StaysAfterPush(strong: iset<Ref>, finalized: set<Ref>, body: Bodies, h1: Snapshot, h2: Snapshot, r: Ref)
    requires Stays(strong, finalized, body, h1.body, r) && Good(h1) && StackGrew(h1.body, h2.body, h1.running)
    ensures Stays(strong, finalized, body, h2.body, r)
  {
    hide Safe, StateOk;
    if h1.body[r].IsOpen() {
      assert OpenAt(h1.body, h1.body[r].v.thread, r);
    }
  }

  // ---- the objects of the heap after a sweep, and their references

  /** The sweep is over: what is left was not dead before, or is a fixed string. */
  ghost predicate Purged(h: Snapshot, h': Snapshot) {
    && Survive(h, h')
    && forall r :: r in h'.body ==>
       r in h.body && (Alive(h.color, h.white, r) ||
       (h.body[r].TString? && h'.body[r].TString?))
  }

  lemma AllPurged(h: Snapshot, h': Snapshot, doomed: set<Ref>)
    requires Good(h) && Good(h') && Survive(h, h') && SameRoots(h, h') &&
      Condemned(doomed, h.body, h.color, h.white, h.fixed)
    requires forall r :: r in doomed ==> r !in h'.body
    ensures Purged(h, h')
  {
    hide StateOk, Linked, Safe;
    KeysOfHeap(h.body, h.color, h.white) by {
      assert Safe(h.body, h.color, h.white);
    }
    forall r | r in h'.body
      ensures r in h.body && (Alive(h.color, h.white, r) || (h.body[r].TString? && h'.body[r].TString?)) {
      assert !IsDead(h.color, h.white, h.fixed, r);
      if !Alive(h.color, h.white, r) {
        assert r in h.fixed;
        RootsInHeap(h);
      }
    }
  }

  /** An object that was not dead has the references that it had. */
  lemma SameLinks(h: Snapshot, h': Snapshot, r: Ref)
    requires Good(h) && Survive(h, h') && r in h.body && Alive(h.color, h.white, r)
    ensures r in h'.body
    ensures forall c :: Refers(h'.body, r, c) <==> Refers(h.body, r, c)
    ensures forall c :: Strongly(h'.body, r, c) <==> Strongly(h.body, r, c)
  {
    hide StateOk, Linked;
    assert SameMeaning(h.body, h'.body, r);
    if h.body[r].Table? && h.body[r].meta.Gco? {
      var m := h.body[r].meta.ref;
      assert AllAlive(h.body, h.color, h.white, r) && Refers(h.body, r, m);
      assert SameMeaning(h.body, h'.body, m);
    }
  }

  /** What is left has no references that it did not have. */
  lemma NoNewLinks(h: Snapshot, h': Snapshot, r: Ref, c: Ref)
    requires Good(h) && Purged(h, h') && r in h'.body
    ensures r in h.body && (Refers(h'.body, r, c) ==> Refers(h.body, r, c)) &&
      (Strongly(h'.body, r, c) ==> Strongly(h.body, r, c))
  {
    hide Good, Survive;
    if Alive(h.color, h.white, r) {
      SameLinks(h, h', r);
    }
  }

  lemma {:induction false} StrongPathStays(h: Snapshot, h': Snapshot, path: seq<Ref>)
    requires Good(h) && Survive(h, h') && StrongPath(h.body, path) && Alive(h.color, h.white, path[0])
    ensures StrongPath(h'.body, path)
    decreases |path|
  {
    hide Good, Survive, Strongly;
    SameLinks(h, h', path[0]);
    if |path| > 1 {
      assert StrongLink(h.body, path, 0);
      StronglyRefers(h.body, path[0], path[1]);
      ReferenceIsAlive(h, path[0], path[1]);
      forall i | 0 <= i < |path[1..]| - 1 ensures StrongLink(h.body, path[1..], i) {
        assert StrongLink(h.body, path, i + 1);
      }
      StrongPathStays(h, h', path[1..]);
      forall i | 0 <= i < |path| - 1 ensures StrongLink(h'.body, path, i) {
        if i > 0 {
          assert StrongLink(h'.body, path[1..], i - 1);
        }
      }
      forall i | 0 <= i < |path| ensures path[i] in h'.body {
        if i > 0 {
          assert path[i] == path[1..][i - 1];
        }
      }
    }
  }

  lemma ReferenceIsAlive(h: Snapshot, r: Ref, c: Ref)
    requires Good(h) && r in h.body && Alive(h.color, h.white, r) && Refers(h.body, r, c)
    ensures c in h.body && Alive(h.color, h.white, c)
  {
    hide StateOk, Linked, Refers;
    assert AllAlive(h.body, h.color, h.white, r);
  }

  /** What the roots reach by strong references is reached after a sweep. */
  lemma StrongReachStays(h: Snapshot, h': Snapshot, r: Ref)
    requires Good(h) && Survive(h, h') && StronglyReachable(h.body, RootsAt(h), r)
    ensures StronglyReachable(h'.body, RootsAt(h), r)
  {
    hide Good, Survive;
    var path :| StrongPath(h.body, path) && path[0] in RootsAt(h) && path[|path| - 1] == r;
    RootIsAlive(h, path[0]);
    StrongPathStays(h, h', path);
  }

  lemma RootIsAlive(h: Snapshot, r: Ref)
    requires Good(h) && r in RootsAt(h)
    ensures r in h.body && Alive(h.color, h.white, r)
  {
    hide StateOk, Linked, RootsOf;
  }

  /** A set of reachable objects is closed. */
  lemma StrongSetIsClosed(body: Bodies, roots: set<Ref>, r: Ref, c: Ref)
    requires r in StrongSet(body, roots) && r in body && c in body && Strongly(body, r, c)
    ensures c in StrongSet(body, roots)
  {
    hide Strongly;
    var path :| StrongPath(body, path) && path[0] in roots && path[|path| - 1] == r;
    var path' := path + [c];
    forall i | 0 <= i < |path'| - 1 ensures StrongLink(body, path', i) {
      if i < |path| - 1 {
        assert StrongLink(body, path, i);
      }
    }
    assert StrongPath(body, path') && path'[0] in roots && path'[|path'| - 1] == c;
  }

  lemma RootIsReached(body: Bodies, roots: set<Ref>, r: Ref)
    requires r in roots && r in body
    ensures r in StrongSet(body, roots)
  {
    assert StrongPath(body, [r]) && [r][0] in roots;
  }

  /** When marking begins, what may be kept is closed, and has the roots and the userdata with finalizers. */
  lemma KeptIsClosed(h: Snapshot, h': Snapshot, finalized: set<Ref>)
    requires Good(h) && Good(h') && Purged(h, h') && h'.gcstate == GCSfinalize
    ensures ClosedUnder(h'.body, KeptSet(h, finalized))
  {
    hide Good, Purged, Strongly, StrongSet;
    var live := KeptSet(h, finalized);
    forall r, c | r in live && r in h'.body && Strongly(h'.body, r, c) ensures c in live {
      NoNewLinks(h, h', r, c);
      StronglyRefers(h'.body, r, c);
      AllAreAlive(h');
      ReferenceIsAlive(h', r, c);
      PurgedIsLess(h, h', c);
      StrongSetIsClosed(h.body, RootsAt(h) + FinalsOf(h.body, finalized), r, c);
    }
  }

  lemma PurgedIsLess(h: Snapshot, h': Snapshot, r: Ref)
    requires Purged(h, h') && r in h'.body
    ensures r in h.body
  {
  }

  lemma RootsAreKept(h: Snapshot, finalized: set<Ref>)
    requires Good(h)
    ensures forall r :: r in RootsAt(h) + FinalsOf(h.body, finalized) ==> r in KeptSet(h, finalized)
  {
    hide Good, RootsOf, StrongSet, FinalsOf;
    forall r | r in RootsAt(h) + FinalsOf(h.body, finalized) ensures r in KeptSet(h, finalized) {
      if r in RootsAt(h) {
        RootIsAlive(h, r);
      } else {
        FinalsAreThere(h.body, finalized, r);
      }
      RootIsReached(h.body, RootsAt(h) + FinalsOf(h.body, finalized), r);
    }
  }

  lemma FinalsAreThere(body: Bodies, finalized: set<Ref>, r: Ref)
    requires r in FinalsOf(body, finalized)
    ensures r in body
  {
  }

  /** A userdata that has a finalizer after the sweep had it before. */
  lemma SameFinals(h: Snapshot, h': Snapshot, finalized: set<Ref>, u: Ref)
    requires Good(h) && Purged(h, h') && u in FinalsOf(h'.body, finalized)
    ensures u in FinalsOf(h.body, finalized)
  {
    hide StateOk, Linked;
    assert Alive(h.color, h.white, u) && SameMeaning(h.body, h'.body, u);
    var m := h.body[u].meta.ref;
    assert AllAlive(h.body, h.color, h.white, u) && Refers(h.body, u, m);
    assert SameMeaning(h.body, h'.body, m);
  }

  /** What may be kept of the heap after the sweep may be kept of the heap before it. */
  lemma SparedBefore(h: Snapshot, h': Snapshot, live: iset<Ref>, r: Ref)
    requires Good(h) && Purged(h, h') && Spared(h'.body, live, r) && r in h'.body
    ensures r in h.body && Spared(h.body, live, r)
  {
    hide Good, Survive, Refers;
    if r !in live {
      var t :| t in live && t in h'.body && Refers(h'.body, t, r);
      NoNewLinks(h, h', t, r);
      assert h.body[r].TString? by {
        StringBefore(h, h', r);
      }
    }
  }

  lemma StringBefore(h: Snapshot, h': Snapshot, r: Ref)
    requires Purged(h, h') && r in h'.body && h'.body[r].TString?
    ensures r in h.body && h.body[r].TString?
  {
    assert Alive(h.color, h.white, r) ==> SameMeaning(h.body, h'.body, r);
  }

  // ---- a collection from its beginning to its end

  ghost predicate FinalsIn(body: Bodies, udata: seq<Ref>, tmu: seq<Ref>, finalized: set<Ref>, live: iset<Ref>) {
    && (forall u :: u in tmu ==> u in live)
    && forall u :: u in udata && u in FinalsOf(body, finalized) ==> u in live
  }

  /** What a collection may keep: at least what the roots and the userdata with finalizers refer to. */
  ghost predicate CoversAt(h: Snapshot, finalized: set<Ref>, live: iset<Ref>) {
    ClosedUnder(h.body, live) && (forall r :: r in RootsAt(h) ==> r in live) &&
      FinalsIn(h.body, h.udata, h.tmu, finalized, live)
  }

  lemma CoversStays(h: Snapshot, h': Snapshot, finalized: set<Ref>, live: iset<Ref>)
    requires CoversAt(h, finalized, live) && SameHeap(h, h')
    ensures CoversAt(h', finalized, live)
  {
  }

  ghost predicate AllStay(h0: Snapshot, h: Snapshot, finalized: set<Ref>, live: iset<Ref>) {
    forall r :: r in live ==> Stays(live, finalized, h0.body, h.body, r)
  }

  /** All of `live` is reached by strong references from the roots or from a userdata with a finalizer. */
  ghost predicate AllReached(h: Snapshot, finalized: set<Ref>, live: iset<Ref>) {
    forall r :: r in live ==> StronglyReachable(h.body, RootsAt(h) + FinalsOf(h.body, finalized), r)
  }

  ghost predicate NoneBlack(body: Bodies, color: Colors) {
    forall g :: IsWeak(body, g) ==> !IsBlack(color, g)
  }

  /** The weak tables that will be kept hold no userdata that is being finalized. */
  ghost predicate WeakArePure(h: Snapshot, finalized: set<Ref>, doomed: set<Ref>) {
    forall g :: IsWeak(h.body, g) && g !in doomed ==> HoldsNoFinalized(h.body, finalized, g)
  }

  ghost predicate LiveAtLast(h: Snapshot, live: iset<Ref>) {
    forall r :: r in live ==> Alive(h.color, h.white, r)
  }

  /** The objects that the sweep has not freed yet are to be freed, or may be kept. */
  ghost predicate RestIsKept(h0: Snapshot, h: Snapshot, doomed: set<Ref>, live: iset<Ref>) {
    forall r :: r in h.body ==> r in h0.body && (r in doomed || r in h.fixed || Spared(h0.body, live, r))
  }

  /** Where the collection that began at `h0` has come. */
  ghost predicate CycleAt(h0: Snapshot, h: Snapshot, finalized: set<Ref>, doomed: set<Ref>, live: iset<Ref>) {
    && StrongStay(h0, h)
    && (h.gcstate == GCSpropagate ==>
          && Purged(h0, h) && h.tmu == h0.tmu && SameRoots(h0, h)
          && AllReached(h, finalized, live) && NoneBlack(h.body, h.color))
    && (h.gcstate != GCSpropagate ==>
          && AllStay(h0, h, finalized, live) && RestIsKept(h0, h, doomed, live)
          && WeakArePure(h, finalized, doomed) && LiveAtLast(h, live))
  }

  lemma CycleCovers(h0: Snapshot, h: Snapshot, finalized: set<Ref>)
    requires Good(h0) && Good(h) && Purged(h0, h) && SameRoots(h0, h) && h.tmu == h0.tmu && h.gcstate == GCSfinalize
    ensures CoversAt(h, finalized, KeptSet(h0, finalized))
  {
    hide Good, Purged, StrongSet, RootsOf, FinalsOf, ClosedUnder, KeptSet;
    KeptIsClosed(h0, h, finalized);
    RootsAreKept(h0, finalized);
    TmuAreRoots(h0);
    forall u | u in FinalsOf(h.body, finalized) ensures u in KeptSet(h0, finalized) {
      SameFinals(h0, h, finalized, u);
    }
  }

  /** A userdata whose finalizer is to be called is not dead. */
  lemma FinalsAreAlive(h: Snapshot, doomed: set<Ref>, finalized: set<Ref>)
    requires Good(h) && Condemned(doomed, h.body, h.color, h.white, h.fixed) && Disposed(h.udata, doomed, finalized)
    ensures forall u :: u in FinalsOf(h.body, finalized) ==> Alive(h.color, h.white, u)
  {
    hide Good, Condemned, Disposed;
    forall u | u in FinalsOf(h.body, finalized) ensures Alive(h.color, h.white, u) {
      assert Due(h, finalized, u);
      DueIsAlive(h, doomed, finalized, u);
    }
  }

  /** What may be kept is reached in the same way after the sweep. */
  lemma KeptIsReached(h: Snapshot, h': Snapshot, finalized: set<Ref>)
    requires Good(h) && Purged(h, h') && SameRoots(h, h') && h'.tmu == h.tmu
    requires forall u :: u in FinalsOf(h.body, finalized) ==> Alive(h.color, h.white, u)
    ensures AllReached(h', finalized, KeptSet(h, finalized))
  {
    hide Good, Survive, RootsOf, Strongly;
    var roots, roots' := RootsAt(h) + FinalsOf(h.body, finalized), RootsAt(h') + FinalsOf(h'.body, finalized);
    forall r | r in KeptSet(h, finalized) ensures StronglyReachable(h'.body, roots', r) {
      var path :| StrongPath(h.body, path) && path[0] in roots && path[|path| - 1] == r;
      if path[0] in RootsAt(h) {
        RootIsAlive(h, path[0]);
      } else {
        MetatableStays(h, h', path[0]);
      }
      StrongPathStays(h, h', path);
    }
  }

  lemma StillReached(h: Snapshot, h': Snapshot, finalized: set<Ref>, live: iset<Ref>)
    requires AllReached(h, finalized, live) && SameHeap(h, h')
    ensures AllReached(h', finalized, live)
  {
    hide StronglyReachable, RootsOf, FinalsOf;
  }

  /** Before marking begins no table is black. */
  lemma NoneIsBlack(h: Snapshot)
    requires Good(h) && h.gcstate == GCSfinalize
    ensures NoneBlack(h.body, h.color)
  {
    hide Safe, Linked, RootsAlive, WeakKeyed, WeakValued;
    TmuIsUserdata(h);
    forall g | IsWeak(h.body, g) ensures !IsBlack(h.color, g) {
      WeakIsNoString(h.body, g);
    }
  }

  lemma StillNoneBlack(body: Bodies, color: Colors, color': Colors)
    requires NoneBlack(body, color) && NoWeakBlackened(body, color, color')
    ensures NoneBlack(body, color')
  {
  }

  lemma TmuAreRoots(h: Snapshot)
    ensures forall u :: u in h.tmu ==> u in RootsAt(h)
  {
  }

  /** The roots have been marked. */
  lemma CycleBegins(h0: Snapshot, h1: Snapshot, h: Snapshot)
    requires Good(h0) && Purged(h0, h1) && Survive(h1, h) && h.body == h1.body
    ensures StrongStay(h0, h) && Purged(h0, h)
  {
    hide Good;
    SurviveMore(h0, h1, h);
    hide Survive;
    SurvivorsStay(h0, h);
  }

  lemma CycleMarks(h0: Snapshot, h1: Snapshot, h: Snapshot, finalized: set<Ref>, live: iset<Ref>)
    requires Good(h0) && Good(h) && h.gcstate == GCSpropagate && Purged(h0, h1) && SameHeap(h1, h)
    requires AllReached(h1, finalized, live) && NoneBlack(h1.body, h1.color) &&
      NoWeakBlackened(h1.body, h1.color, h.color)
    ensures StrongStay(h0, h) && Purged(h0, h) && AllReached(h, finalized, live) && NoneBlack(h.body, h.color)
  {
    hide Good, Purged, AllReached, NoneBlack, NoWeakBlackened;
    SurviveMarking(h1, h);
    CycleBegins(h0, h1, h);
    StillReached(h1, h, finalized, live);
    StillNoneBlack(h.body, h1.color, h.color);
  }

  /** The atomic phase. */
  lemma CycleTurns(h0: Snapshot, h1: Snapshot, h: Snapshot, finalized1: set<Ref>, finalized: set<Ref>,
      doomed: set<Ref>, live: iset<Ref>)
    requires Good(h0) && Good(h1) && Good(h) && Purged(h0, h1) && SameRoots(h0, h1) && h1.tmu == h0.tmu &&
      StrongStay(h1, h) && h.fixed == h0.fixed
    requires AllReached(h1, finalized1, live) && NoneBlack(h1.body, h1.color)
    requires AtomicStep(h1, finalized1, h, finalized, live, doomed)
    ensures StrongStay(h0, h) && AllStay(h0, h, finalized, live) && RestIsKept(h0, h, doomed, live) &&
      WeakArePure(h, finalized, doomed) && LiveAtLast(h, live)
  {
    hide Good, Survive, StronglyReachable, RootsOf, SameKinds, LostOnlyDead, Spared, Stays, StrongSet, FinalsOf,
      Purified, IsWeak, HoldsNoFinalized;
    forall r | StronglyReachable(h0.body, RootsAt(h0), r) ensures Alive(h.color, h.white, r) {
      StrongReachStays(h0, h1, r);
    }
    TablesStay(h0, h1, h, finalized1, finalized, live);
    TablesArePure(h1, h, finalized, doomed);
    KindsKeys(h1.body, h.body);
    forall r | r in h.body ensures r in h0.body && (r in doomed || r in h.fixed || Spared(h0.body, live, r)) {
      PurgedIsLess(h0, h1, r);
      if Alive(h.color, h.white, r) {
        SparedBefore(h0, h1, live, r);
      } else {
        HasMark(h, r);
        DeadOnesAre(h, doomed, r);
      }
    }
  }

  /** What is to be kept stays, but for what weak tables lose. */
  lemma TablesStay(h0: Snapshot, h1: Snapshot, h: Snapshot, finalized1: set<Ref>, finalized: set<Ref>,
      live: iset<Ref>)
    requires Purged(h0, h1) && AllReached(h1, finalized1, live)
    requires SameKinds(h1.body, h.body) && LostOnlyDead(h1.body, h.body, h.color, h.white, finalized)
    requires forall r :: StronglyReachable(h1.body, RootsAt(h1) + FinalsOf(h1.body, finalized1), r) ==>
      Alive(h.color, h.white, r)
    ensures AllStay(h0, h, finalized, live)
  {
    hide Survive, RootsOf, SameKinds, LostOnlyDead, Stays, FinalsOf, SameMeaning, StronglyReachable;
    PurgedMeansTheSame(h0, h1);
    forall r | r in live ensures Stays(live, finalized, h0.body, h.body, r) {
      ReachedIsThere(h1.body, RootsAt(h1) + FinalsOf(h1.body, finalized1), r);
      StaysAfterAtomic(live, finalized, h0.body, h1.body, h.body, h.color, h.white, r);
    }
  }

  lemma ReachedIsThere(body: Bodies, roots: set<Ref>, r: Ref)
    requires StronglyReachable(body, roots, r)
    ensures r in body
  {
  }

  lemma PurgedMeansTheSame(h: Snapshot, h': Snapshot)
    requires Purged(h, h')
    ensures forall r :: r in h'.body ==> SameMeaning(h.body, h'.body, r)
  {
    forall r | r in h'.body ensures SameMeaning(h.body, h'.body, r) {
      assert Alive(h.color, h.white, r) || h.body[r] == h'.body[r] == TString;
    }
  }

  /** No weak table was black, so all of those that are not dead have been cleared. */
  lemma TablesArePure(h1: Snapshot, h: Snapshot, finalized: set<Ref>, doomed: set<Ref>)
    requires Good(h) && Purified(h1.color, h, finalized) && NoneBlack(h1.body, h1.color) && SameKinds(h1.body, h.body)
    requires doomed == DeadOnes(h.body, h.color, h.white, h.fixed)
    ensures WeakArePure(h, finalized, doomed)
  {
    hide StateOk, Linked, RootsAlive, HoldsNoFinalized, WeakKeyed, WeakValued, SameKinds;
    forall g | IsWeak(h.body, g) && g !in doomed ensures HoldsNoFinalized(h.body, finalized, g) {
      SameModes(h1.body, h.body, g);
      WeakIsNoString(h.body, g);
      WeakIsAlive(h, doomed, g);
    }
  }

  /** A table that is not to be freed is not dead. */
  lemma WeakIsAlive(h: Snapshot, doomed: set<Ref>, g: Ref)
    requires Good(h) && g in h.body && h.body[g].Table? && g !in doomed && doomed == DeadOnes(h.body, h.color, h.white,
      h.fixed)
    ensures Alive(h.color, h.white, g)
  {
    hide StateOk, Linked;
    KeysOfHeap(h.body, h.color, h.white);
  }

  lemma KindsKeys(body: Bodies, body': Bodies)
    requires SameKinds(body, body')
    ensures body'.Keys == body.Keys
  {
  }

  lemma HasMark(h: Snapshot, r: Ref)
    requires Good(h) && r in h.body
    ensures r in h.color
  {
    hide StateOk, Linked;
    KeysOfHeap(h.body, h.color, h.white);
  }

  lemma DeadOnesAre(h: Snapshot, doomed: set<Ref>, r: Ref)
    requires r in h.body && r in h.color && !Alive(h.color, h.white, r) &&
      doomed == DeadOnes(h.body, h.color, h.white, h.fixed)
    ensures r in doomed || r in h.fixed
  {
  }

  /** A step of the sweep. */
  lemma CycleSweeps(h0: Snapshot, h1: Snapshot, h: Snapshot, finalized: set<Ref>, doomed: set<Ref>, live: iset<Ref>)
    requires Good(h1) && Good(h) && SweepStepped(h1, h) && StrongStay(h0, h1) && AllStay(h0, h1, finalized, live) &&
      RestIsKept(h0, h1, doomed, live) && WeakArePure(h1, finalized, doomed) && LiveAtLast(h1, live) &&
      h.fixed == h1.fixed
    requires Condemned(doomed, h1.body, h1.color, h1.white, h1.fixed)
    ensures StrongStay(h0, h) && AllStay(h0, h, finalized, live) && RestIsKept(h0, h, doomed, live) &&
      WeakArePure(h, finalized, doomed) && LiveAtLast(h, live)
  {
    hide Good, StronglyReachable, RootsOf, Spared, Stays, Condemned, IsWeak, HoldsNoFinalized;
    StillAlive(h1, h);
    forall r | r in live ensures Stays(live, finalized, h0.body, h.body, r) {
      StaysAfterSweep(live, finalized, h0.body, h1, h, r);
    }
    forall g | IsWeak(h.body, g) && g !in doomed ensures HoldsNoFinalized(h.body, finalized, g) {
      StillPure(h1, h, finalized, doomed, g);
    }
  }

  /** A weak table that will be kept is as it was before the step. */
  lemma StillPure(h1: Snapshot, h: Snapshot, finalized: set<Ref>, doomed: set<Ref>, g: Ref)
    requires Good(h1) && Good(h) && Survive(h1, h) && WeakArePure(h1, finalized, doomed) && h.fixed == h1.fixed
    requires Condemned(doomed, h1.body, h1.color, h1.white, h1.fixed) && IsWeak(h.body, g) && g !in doomed
    ensures HoldsNoFinalized(h.body, finalized, g)
  {
    hide StateOk, Linked, Safe, HoldsNoFinalized, WeakKeyed, WeakValued;
    WeakIsNoString(h.body, g);
    KeysOfHeap(h1.body, h1.color, h1.white) by {
      assert Safe(h1.body, h1.color, h1.white);
    }
    assert g !in h.fixed && !IsDead(h1.color, h1.white, h1.fixed, g);
    SameModesAlive(h1, h, g);
    SameValues(h1, h, finalized, g);
  }

  lemma SameModesAlive(h1: Snapshot, h: Snapshot, g: Ref)
    requires Good(h1) && Survive(h1, h) && g in h1.body && g in h.body && h.body[g].Table? &&
      Alive(h1.color, h1.white, g)
    ensures h1.body[g] == h.body[g] && WeakKeyed(h1.body, g) == WeakKeyed(h.body, g) &&
      WeakValued(h1.body, g) == WeakValued(h.body, g)
  {
    hide StateOk, Linked, RootsAlive;
    assert SameMeaning(h1.body, h.body, g);
    if h1.body[g].meta.Gco? {
      var m := h1.body[g].meta.ref;
      assert AllAlive(h1.body, h1.color, h1.white, g) && Refers(h1.body, g, m);
      assert SameMeaning(h1.body, h.body, m);
    }
  }

  lemma SameValues(h1: Snapshot, h: Snapshot, finalized: set<Ref>, g: Ref)
    requires Good(h1) && Survive(h1, h) && g in h1.body && g in h.body && Alive(h1.color, h1.white, g)
    requires h1.body[g] == h.body[g] && h.body[g].Table? && WeakValued(h1.body, g) == WeakValued(h.body, g)
    requires HoldsNoFinalized(h1.body, finalized, g)
    ensures HoldsNoFinalized(h.body, finalized, g)
  {
    hide StateOk, Linked, RootsAlive, WeakValued;
    forall u | u in h.body && h.body[u].Userdata? && u in finalized
      ensures WeakValued(h.body, g) ==> Gco(u) !in h.body[g].arr
      ensures forall i :: 0 <= i < |h.body[g].node| ==> h.body[g].node[i].val != Gco(u)
    {
      assert AllAlive(h1.body, h1.color, h1.white, g);
      if Alive(h1.color, h1.white, u) {
        assert SameMeaning(h1.body, h.body, u);
      } else {
        assert !Refers(h1.body, g, u);
        ValueIsReference(h1.body, g, u);
      }
    }
  }

  lemma ValueIsReference(body: Bodies, g: Ref, u: Ref)
    requires g in body && body[g].Table?
    ensures Gco(u) in body[g].arr ==> Refers(body, g, u)
    ensures forall i :: 0 <= i < |body[g].node| && body[g].node[i].val == Gco(u) ==> Refers(body, g, u)
  {
    forall i | 0 <= i < |body[g].node| && body[g].node[i].val == Gco(u) ensures Refers(body, g, u) {
      assert LiveEntry(body[g].node, i);
    }
  }

  /** A finalizer is called, or the collection ends. */
  lemma CycleFinalizes(h0: Snapshot, h1: Snapshot, h: Snapshot, finalized: set<Ref>, doomed: set<Ref>, live: iset<Ref>)
    requires Good(h1) && FinalStepped(h1, h) && StrongStay(h0, h1) && AllStay(h0, h1, finalized, live) &&
      RestIsKept(h0, h1, doomed, live) && WeakArePure(h1, finalized, doomed) && LiveAtLast(h1, live) &&
      h.fixed == h1.fixed
    ensures StrongStay(h0, h) && AllStay(h0, h, finalized, live) && RestIsKept(h0, h, doomed, live) &&
      WeakArePure(h, finalized, doomed) && LiveAtLast(h, live)
  {
    hide Good, StronglyReachable, RootsOf, Spared, Stays;
    forall r | r in live ensures Stays(live, finalized, h0.body, h.body, r) {
      StaysAfterPush(live, finalized, h0.body, h1, h, r);
    }
    forall g | IsWeak(h.body, g) && g !in doomed ensures HoldsNoFinalized(h.body, finalized, g) {
      assert IsWeak(h1.body, g);
    }
  }

  /** One step of the collection. */
  lemma CycleGoesOn(h0: Snapshot, h1: Snapshot, h: Snapshot, finalized1: set<Ref>, doomed1: set<Ref>,
      finalized: set<Ref>, doomed: set<Ref>, live: iset<Ref>)
    requires Good(h0) && Good(h1) && Good(h) && CycleAt(h0, h1, finalized1, doomed1, live) && SameRoots(h0, h1) &&
      SameRoots(h1, h) && StrongStay(h1, h)
    requires h1.gcstate != GCSpause && Condemned(doomed1, h1.body, h1.color, h1.white, h1.fixed)
    requires h1.gcstate == GCSpropagate ==>
      if h.gcstate == GCSpropagate
      then SameHeap(h1, h) && finalized == finalized1 && NoWeakBlackened(h1.body, h1.color, h.color)
      else h.gcstate == GCSsweepstring && AtomicStep(h1, finalized1, h, finalized, live, doomed)
    requires Sweeping(h1) ==> SweepStepped(h1, h) && finalized == finalized1 && doomed == doomed1
    requires h1.gcstate == GCSfinalize ==> FinalStepped(h1, h) && finalized == finalized1 && doomed == doomed1
    ensures CycleAt(h0, h, finalized, doomed, live)
  {
    hide Good, StrongStay, AllStay, RestIsKept, Purged, AtomicStep, Survive, StackGrew, AllReached, NoneBlack,
      NoWeakBlackened, WeakArePure, LiveAtLast, Condemned;
    if h1.gcstate == GCSpropagate {
      if h.gcstate == GCSpropagate {
        CycleMarks(h0, h1, h, finalized, live);
      } else {
        CycleTurns(h0, h1, h, finalized1, finalized, doomed, live);
      }
    } else if Sweeping(h1) {
      CycleSweeps(h0, h1, h, finalized, doomed, live);
    } else {
      CycleFinalizes(h0, h1, h, finalized, doomed, live);
    }
  }

  /** At the end nothing that was to be freed is left. */
  lemma CycleEnds(h0: Snapshot, h: Snapshot, finalized: set<Ref>, doomed: set<Ref>, live: iset<Ref>)
    requires CycleAt(h0, h, finalized, doomed, live) && h.gcstate == GCSpause && forall r :: r in doomed ==>
      r !in h.body
    ensures forall r :: r in live ==> Stays(live, finalized, h0.body, h.body, r)
    ensures forall g :: IsWeak(h.body, g) ==> HoldsNoFinalized(h.body, finalized, g)
    ensures forall r :: r in h.body ==> r in h0.body && (r in h.fixed || Spared(h0.body, live, r))
  {
    hide Stays, Spared, RootsOf, StrongStay, HoldsNoFinalized;
  }
}
