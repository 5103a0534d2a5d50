/** The states of a collection, and what holds in each of them. */
module LuaHeapStates {
  import opened LuaBasics
  import opened LuaHeap
  import opened LuaHeapLists

  datatype GCState = GCSpause | GCSpropagate | GCSsweepstring | GCSsweep | GCSfinalize

  /** Between collections every object has the current white, but for userdata in the finalizer list. */
  ghost predicate AllWhite(color: Colors, white: bool, tmu: seq<Ref>) {
    forall r :: r in color && r !in tmu ==> color[r] == White(white)
  }

  ghost predicate WhiteAt(color: Colors, white: bool, r: Ref) {
    r in color && color[r] == White(white)
  }

  /** The first `n` buckets have been swept. */
  ghost predicate StringsSwept(color: Colors, white: bool, strt: seq<seq<Ref>>, n: nat) {
    n <= |strt| && forall b, r :: 0 <= b < n && r in strt[b] ==> WhiteAt(color, white, r)
  }

  /** The first `n` objects of the root list have been swept, with the upvalues open on them. */
  ghost predicate RootsSwept(body: Bodies, color: Colors, white: bool, all: seq<Ref>, n: nat) {
    n <= |all| && forall i :: 0 <= i < n ==> SweptAt(body, color, white, all[i])
  }

  ghost predicate SweptAt(body: Bodies, color: Colors, white: bool, r: Ref) {
    && WhiteAt(color, white, r) && r in body
    && (body[r].Thread? ==> forall i :: 0 <= i < |body[r].open| ==> WhiteAt(color, white, body[r].open[i]))
  }

  /** Open upvalues are never black, and userdata are never gray. */
  ghost predicate ProperMarks(body: Bodies, color: Colors) {
    forall r :: r in body && r in color ==> ProperMark(body[r], color[r])
  }

  predicate ProperMark(b: Body, c: Color) {
    (b.IsOpen() ==> !c.Black?) && (b.Userdata? ==> !c.Gray?)
  }

  ghost predicate RootsAlive(body: Bodies, color: Colors, white: bool, mainthread: Ref, running: Ref, registry: Value,
      mt: seq<Value>, tmu: seq<Ref>) {
    && mainthread in body && body[mainthread].Thread? && running in body && body[running].Thread?
    && forall r :: r in RootsOf(mainthread, running, registry, mt, tmu) ==> Alive(color, white, r)
  }

  /** Fixed objects: reserved words and such strings, and the main thread. */
  ghost predicate FixedOk(body: Bodies, fixed: set<Ref>, mainthread: Ref) {
    forall r :: r in fixed && r in body ==> body[r].TString? || r == mainthread
  }

  /** What holds whatever the collector is doing. */
  ghost predicate HeapOk(body: Bodies, color: Colors, white: bool, rootgc: seq<Ref>, udata: seq<Ref>, tmu: seq<Ref>,
      strt: seq<seq<Ref>>, uvhead: seq<Ref>) {
    Safe(body, color, white) && Linked(body, rootgc, udata, tmu, strt, uvhead)
  }

  /** The objects that the sweep will free. */
  function DeadOnes(body: Bodies, color: Colors, white: bool, fixed: set<Ref>): set<Ref> {
    set r | r in body && IsDead(color, white, fixed, r)
  }

  /** Of the objects that are left, exactly those of `doomed` are dead. */
  ghost predicate Condemned(doomed: set<Ref>, body: Bodies, color: Colors, white: bool, fixed: set<Ref>) {
    forall r :: r in body ==> (r in doomed <==> IsDead(color, white, fixed, r))
  }

  predicate IsDead(color: Colors, white: bool, fixed: set<Ref>, r: Ref) {
    r in color && color[r] == White(!white) && r !in fixed
  }

  lemma StillCondemned(doomed: set<Ref>, body: Bodies, body': Bodies, color: Colors, color': Colors, white: bool,
      fixed: set<Ref>, o: Ref)
    requires Condemned(doomed, body, color, white, fixed) && Safe(body, color, white) && Safe(body', color', white)
    requires o in body && o in body' && body' == body[o := body'[o]] && forall r :: Alive(color, white, r) <==>
      Alive(color', white, r)
    ensures Condemned(doomed, body', color', white, fixed)
  {
    forall r | r in body' ensures r in doomed <==> IsDead(color', white, fixed, r) {
      assert Alive(color, white, r) <==> Alive(color', white, r);
      assert r in body;
    }
  }

  // ---- reachability

  ghost predicate Path(body: Bodies, path: seq<Ref>) {
    && |path| > 0 && path[0] in body
    && (forall i :: 0 <= i < |path| - 1 ==> path[i] in body)
    && forall i {:trigger Link(body, path, i)} :: 0 <= i < |path| - 1 ==> Link(body, path, i)
  }

  ghost predicate Link(body: Bodies, path: seq<Ref>, i: nat)
    requires i + 1 < |path| && path[i] in body
  {
    Refers(body, path[i], path[i + 1])
  }

  /** The program can get at the object. */
  ghost predicate Reachable(body: Bodies, roots: set<Ref>, r: Ref) {
    exists path :: Path(body, path) && path[0] in roots && path[|path| - 1] == r
  }

  lemma {:induction false} PathIsAlive(body: Bodies, color: Colors, white: bool, path: seq<Ref>)
    requires Safe(body, color, white) && Path(body, path) && Alive(color, white, path[0])
    ensures Alive(color, white, path[|path| - 1])
    decreases |path|
  {
    if |path| > 1 {
      assert Link(body, path, 0) && AllAlive(body, color, white, path[0]);
      forall i | 0 <= i < |path[1..]| - 1 ensures path[1..][i] in body && Link(body, path[1..], i) {
        assert Link(body, path, i + 1);
      }
      PathIsAlive(body, color, white, path[1..]);
    }
  }

  lemma ReachableGoesOn(body: Bodies, roots: set<Ref>, r: Ref, c: Ref)
    requires Reachable(body, roots, r) && r in body && Refers(body, r, c)
    ensures Reachable(body, roots, c)
  {
    hide Refers;
    var path :| Path(body, path) && path[0] in roots && path[|path| - 1] == r;
    var path' := path + [c];
    forall i | 0 <= i < |path'| - 1 ensures path'[i] in body && Link(body, path', i) {
      if i < |path| - 1 {
        assert Link(body, path, i);
      }
    }
    assert Path(body, path') && path'[0] in roots && path'[|path'| - 1] == c;
  }

  /** No object that the program can reach is dead, so none is ever freed. */
  lemma ReachableIsAlive(body: Bodies, color: Colors, white: bool, mainthread: Ref, running: Ref, registry: Value,
      mt: seq<Value>, tmu: seq<Ref>, r: Ref)
    requires Safe(body, color, white) && RootsAlive(body, color, white, mainthread, running, registry, mt, tmu)
    requires Reachable(body, RootsOf(mainthread, running, registry, mt, tmu), r)
    ensures r in body && Alive(color, white, r)
  {
    var path :| Path(body, path) && path[0] in RootsOf(mainthread, running, registry, mt, tmu) && path[|path| - 1] == r;
    PathIsAlive(body, color, white, path);
  }

  // ---- the sweep is not disturbed

  /** A barrier may have taken an object from black to gray or to white. */
  ghost predicate Lightened(color: Colors, color': Colors, white: bool, o: Ref) {
    o in color && color[o].Black? && (color' == color || color' == color[o := Gray] ||
      color' == color[o := White(white)])
  }

  lemma LightenedIsSafe(body: Bodies, color: Colors, color': Colors, white: bool, o: Ref)
    requires Safe(body, color, white) && Lightened(color, color', white, o)
    ensures Safe(body, color', white) && forall r :: Alive(color', white, r) <==> Alive(color, white, r)
  {
    forall r | r in body && Alive(color', white, r) ensures AllAlive(body, color', white, r) {
      assert AllAlive(body, color, white, r);
    }
  }

  lemma LightenedStaysSwept(body: Bodies, color: Colors, color': Colors, white: bool, o: Ref, b: Body, vs: seq<Value>,
      strt: seq<seq<Ref>>, n: nat, all: seq<Ref>, m: nat)
    requires Stored(body, o, b, vs) && Lightened(color, color', white, o)
    ensures StringsSwept(color, white, strt, n) ==> StringsSwept(color', white, strt, n)
    ensures RootsSwept(body, color, white, all, m) ==> RootsSwept(body[o := b], color', white, all, m)
  {
    forall b, r | StringsSwept(color, white, strt, n) && 0 <= b < n && r in strt[b] ensures WhiteAt(color', white, r) {
      assert WhiteAt(color, white, r);
    }
    forall i | RootsSwept(body, color, white, all, m) && 0 <= i < m
      ensures SweptAt(body[o := b], color', white, all[i]) {
      assert SweptAt(body, color, white, all[i]);
    }
  }

  lemma StoredStaysSwept(body: Bodies, color: Colors, white: bool, o: Ref, b: Body, vs: seq<Value>, all: seq<Ref>,
      m: nat)
    requires Stored(body, o, b, vs)
    ensures RootsSwept(body, color, white, all, m) ==> RootsSwept(body[o := b], color, white, all, m)
  {
    forall i | RootsSwept(body, color, white, all, m) && 0 <= i < m
      ensures SweptAt(body[o := b], color, white, all[i]) {
      assert SweptAt(body, color, white, all[i]);
    }
  }

  // ---- what holds in each state

  ghost predicate StateOk(gcstate: GCState, body: Bodies, color: Colors, white: bool, lists: seq<Ref>, tmu: seq<Ref>,
      done: set<Ref>, mainthread: Ref, registry: Value, strt: seq<seq<Ref>>, sweepstrgc: nat, all: seq<Ref>,
      sweepgc: nat) {
    match gcstate
    case GCSpause => AllWhite(color, white, tmu) && ProperMarks(body, color)
    case GCSpropagate =>
      MarkPhase(body, color, white, lists, tmu, done, {}) && mainthread in color && !color[mainthread].White? &&
        Reached(color, registry)
    case GCSsweepstring =>
      sweepgc == 0 && sweepstrgc < |strt| && StringsSwept(color, white, strt, sweepstrgc) && ProperMarks(body, color)
    case GCSsweep => StringsSwept(color, white, strt, |strt|) && RootsSwept(body, color, white, all, sweepgc) &&
      ProperMarks(body, color)
    case GCSfinalize => AllWhite(color, white, tmu) && ProperMarks(body, color)
  }

  /** While marking nothing is dead. */
  lemma PhaseIsSafe(body: Bodies, color: Colors, white: bool, lists: seq<Ref>, tmu: seq<Ref>, done: set<Ref>,
      ex: set<Ref>)
    requires MarkPhase(body, color, white, lists, tmu, done, ex)
    ensures Safe(body, color, white) && forall r :: r in color ==> Alive(color, white, r)
  {
    forall r | r in body && Alive(color, white, r) ensures AllAlive(body, color, white, r) {
    }
  }

  lemma RootsStayAlive(body: Bodies, body': Bodies, color: Colors, color': Colors, white: bool, mainthread: Ref,
      running: Ref, registry: Value, mt: seq<Value>, tmu: seq<Ref>)
    requires RootsAlive(body, color, white, mainthread, running, registry, mt, tmu)
    requires forall r :: Alive(color, white, r) ==> Alive(color', white, r)
    requires forall r :: r in body && body[r].Thread? ==> r in body' && body'[r].Thread?
    ensures RootsAlive(body', color', white, mainthread, running, registry, mt, tmu)
  {
  }

  /** A store that needs no barrier. */
  lemma StoreKeepsState(gcstate: GCState, body: Bodies, color: Colors, white: bool, lists: seq<Ref>, tmu: seq<Ref>,
      done: set<Ref>, mainthread: Ref, registry: Value, strt: seq<seq<Ref>>, sweepstrgc: nat, all: seq<Ref>,
      sweepgc: nat, o: Ref, b: Body, vs: seq<Value>)
    requires StateOk(gcstate, body, color, white, lists, tmu, done, mainthread, registry, strt, sweepstrgc, all,
      sweepgc)
    requires Stored(body, o, b, vs) && AliveValues(color, white, vs) && body.Keys == color.Keys
    requires !color[o].Black? || forall i :: 0 <= i < |vs| ==> Reached(color, vs[i])
    ensures StateOk(gcstate, body[o := b], color, white, lists, tmu, {}, mainthread, registry, strt, sweepstrgc, all,
      sweepgc)
  {
    hide MarkPhase, Stored;
    KindsOfStored(body, o, b, vs);
    if gcstate.GCSpropagate? {
      StoredWhileMarking(body, color, white, lists, tmu, done, o, b, vs);
    } else if gcstate.GCSsweep? {
      StoredStaysSwept(body, color, white, o, b, vs, all, sweepgc);
    }
  }

  /** Outside the mark phase a barrier does no harm. */
  lemma LightenedKeepsState(gcstate: GCState, body: Bodies, color: Colors, color': Colors, white: bool,
      lists: seq<Ref>, lists': seq<Ref>, tmu: seq<Ref>, done: set<Ref>, mainthread: Ref, registry: Value,
      strt: seq<seq<Ref>>, sweepstrgc: nat, all: seq<Ref>, sweepgc: nat, o: Ref, b: Body, vs: seq<Value>)
    requires StateOk(gcstate, body, color, white, lists, tmu, done, mainthread, registry, strt, sweepstrgc, all,
      sweepgc)
    requires gcstate != GCSpropagate && Stored(body, o, b, vs) && Lightened(color, color', white, o) &&
      body.Keys == color.Keys
    requires color'[o].Gray? ==> !b.Userdata?
    ensures StateOk(gcstate, body[o := b], color', white, lists', tmu, {}, mainthread, registry, strt, sweepstrgc, all,
      sweepgc)
    ensures gcstate.GCSpause? || gcstate.GCSfinalize? ==> o in tmu
  {
    LightenedStaysSwept(body, color, color', white, o, b, vs, strt, |strt|, all, sweepgc);
    LightenedStaysSwept(body, color, color', white, o, b, vs, strt, sweepstrgc, all, sweepgc);
  }

  /** The back barrier in the mark phase. */
  lemma BackKeepsState(body: Bodies, color: Colors, white: bool, gray: seq<Ref>, grayagain: seq<Ref>, weak: seq<Ref>,
      tmu: seq<Ref>, done: set<Ref>, o: Ref, b: Body, vs: seq<Value>)
    requires MarkPhase(body, color, white, gray + grayagain + weak, tmu, done, {}) && Stored(body, o, b, vs) && b.Table?
    requires color[o].Black? && ValuesIn(color, vs)
    ensures MarkPhase(body[o := b], color[o := Gray], white, gray + ([o] + grayagain) + weak, tmu, {}, {})
  {
    StoredWhileMarking(body, color, white, gray + grayagain + weak, tmu, done, o, b, vs);
    assert o !in gray + grayagain + weak;
    hide MarkPhase, Stored;
    GrayAgain(body[o := b], color, white, gray, grayagain, weak, tmu, o);
  }

  /** The forward barrier in the mark phase. */
  lemma ForwardKeepsState(body: Bodies, color: Colors, color': Colors, white: bool, lists: seq<Ref>, lists': seq<Ref>,
      tmu: seq<Ref>, done: set<Ref>, done': set<Ref>, o: Ref, b: Body, vs: seq<Value>)
    requires MarkPhase(body, color, white, lists, tmu, done, {}) && Stored(body, o, b, vs) && !b.Table? &&
      color[o].Black?
    requires MarkPhase(body[o := b], color', white, lists', tmu, done', {o}) && Darker(color, color') &&
      OkValues(color', tmu, vs)
    requires forall r :: r in lists' ==> r in lists || IsWhite(color, r)
    ensures MarkPhase(body[o := b], color', white, lists', tmu, {}, {})
  {
    assert o !in lists && o !in lists';
    if o !in tmu {
      assert AllOk(body, color, tmu, o);
      StoredOk(body, color, color', tmu, o, b, vs);
    }
    assert !body[o].Thread? && !body[o].IsOpen();
    hide MarkPhase;
    BarrierDone(body[o := b], color', white, lists', tmu, done', o);
  }

  /** The state after a back barrier. */
  lemma AfterBack(gcstate: GCState, body: Bodies, color: Colors, white: bool, gray: seq<Ref>, grayagain: seq<Ref>,
      weak: seq<Ref>, tmu: seq<Ref>, done: set<Ref>, mainthread: Ref, registry: Value, strt: seq<seq<Ref>>,
      sweepstrgc: nat, all: seq<Ref>, sweepgc: nat, o: Ref, b: Body, vs: seq<Value>)
    requires StateOk(gcstate, body, color, white, gray + grayagain + weak, tmu, done, mainthread, registry, strt,
      sweepstrgc, all, sweepgc)
    requires Safe(body, color, white) && Stored(body, o, b, vs) && AliveValues(color, white, vs) && b.Table? &&
      color[o].Black?
    ensures StateOk(gcstate, body[o := b], color[o := Gray], white, gray + ([o] + grayagain) + weak, tmu, {},
      mainthread, registry, strt, sweepstrgc, all, sweepgc)
    ensures Safe(body[o := b], color[o := Gray], white) && forall r :: Alive(color, white, r) <==>
      Alive(color[o := Gray], white, r)
  {
    StoredIsSafe(body, color, white, o, b, vs);
    LightenedIsSafe(body[o := b], color, color[o := Gray], white, o);
    hide MarkPhase, Stored, Safe;
    if gcstate == GCSpropagate {
      BackKeepsState(body, color, white, gray, grayagain, weak, tmu, done, o, b, vs);
    } else {
      LightenedKeepsState(gcstate, body, color, color[o := Gray], white, gray + grayagain + weak,
        gray + ([o] + grayagain) + weak, tmu, done, mainthread, registry, strt, sweepstrgc, all, sweepgc, o, b, vs);
    }
  }

  /** The state after a forward barrier outside the mark phase. */
  lemma AfterForward(gcstate: GCState, body: Bodies, color: Colors, white: bool, lists: seq<Ref>, tmu: seq<Ref>,
      done: set<Ref>, mainthread: Ref, registry: Value, strt: seq<seq<Ref>>, sweepstrgc: nat, all: seq<Ref>,
      sweepgc: nat, o: Ref, b: Body, vs: seq<Value>)
    requires StateOk(gcstate, body, color, white, lists, tmu, done, mainthread, registry, strt, sweepstrgc, all,
      sweepgc) && gcstate != GCSpropagate
    requires Safe(body, color, white) && Stored(body, o, b, vs) && AliveValues(color, white, vs) && color[o].Black?
    ensures StateOk(gcstate, body[o := b], color[o := White(white)], white, lists, tmu, {}, mainthread, registry, strt,
      sweepstrgc, all, sweepgc)
    ensures Safe(body[o := b], color[o := White(white)], white) && forall r :: Alive(color, white, r) <==>
      Alive(color[o := White(white)], white, r)
  {
    StoredIsSafe(body, color, white, o, b, vs);
    LightenedIsSafe(body[o := b], color, color[o := White(white)], white, o);
    LightenedKeepsState(gcstate, body, color, color[o := White(white)], white, lists, lists, tmu, done, mainthread,
      registry, strt, sweepstrgc, all, sweepgc, o, b, vs);
  }

  /** The state after a forward barrier in the mark phase. */
  lemma AfterForwardMarking(gcstate: GCState, body: Bodies, color: Colors, color': Colors, white: bool, gray: seq<Ref>,
      gray': seq<Ref>, rest: seq<Ref>, tmu: seq<Ref>, done: set<Ref>, done': set<Ref>, mainthread: Ref,
      registry: Value, strt: seq<seq<Ref>>, sweepstrgc: nat, all: seq<Ref>, sweepgc: nat, o: Ref, b: Body, v: Value)
    requires StateOk(gcstate, body, color, white, gray + rest, tmu, done, mainthread, registry, strt, sweepstrgc, all,
      sweepgc) && gcstate == GCSpropagate
    requires Stored(body, o, b, [v]) && color[o].Black? && !b.Table? && v.Gco? && v.ref in color' &&
      !color'[v.ref].White?
    requires MarkPhase(body[o := b], color', white, gray' + rest, tmu, done', {o}) &&
      Advanced(body[o := b], color, gray, {}, color', gray', done')
    ensures StateOk(gcstate, body[o := b], color', white, gray' + rest, tmu, {}, mainthread, registry, strt, sweepstrgc,
      all, sweepgc)
    ensures Safe(body[o := b], color', white) && forall r :: Alive(color, white, r) <==> Alive(color', white, r)
  {
    PhaseIsSafe(body[o := b], color', white, gray' + rest, tmu, done', {o});
    hide MarkPhase, Stored;
    ForwardKeepsState(body, color, color', white, gray + rest, gray' + rest, tmu, done, done', o, b, [v]);
  }

  lemma KeysOfHeap(body: Bodies, color: Colors, white: bool)
    requires Safe(body, color, white)
    ensures body.Keys == color.Keys
  {
  }

  lemma KindsOfStored(body: Bodies, o: Ref, b: Body, vs: seq<Value>)
    requires Stored(body, o, b, vs)
    ensures o in body && !body[o].Thread? && !b.Thread? && !body[o].IsOpen() && !b.IsOpen() && (b.Userdata? <==>
      body[o].Userdata?) && forall r :: r in body && body[r].Thread? ==> body[o := b][r] == body[r]
  {
  }

  lemma StateIsMarking(gcstate: GCState, body: Bodies, color: Colors, white: bool, lists: seq<Ref>, tmu: seq<Ref>,
      done: set<Ref>, mainthread: Ref, registry: Value, strt: seq<seq<Ref>>, sweepstrgc: nat, all: seq<Ref>,
      sweepgc: nat)
    requires StateOk(gcstate, body, color, white, lists, tmu, done, mainthread, registry, strt, sweepstrgc, all,
      sweepgc) && gcstate == GCSpropagate
    ensures MarkPhase(body, color, white, lists, tmu, done, {}) && mainthread in color && !color[mainthread].White? &&
      Reached(color, registry)
  {
  }

  // ---- the state after a change to a stack, or a new object

  lemma RestackKeepsState(gcstate: GCState, body: Bodies, color: Colors, white: bool, lists: seq<Ref>, tmu: seq<Ref>,
      done: set<Ref>, mainthread: Ref, registry: Value, strt: seq<seq<Ref>>, sweepstrgc: nat, all: seq<Ref>,
      sweepgc: nat, th: Ref, stack: seq<Value>, v: Value)
    requires StateOk(gcstate, body, color, white, lists, tmu, done, mainthread, registry, strt, sweepstrgc, all,
      sweepgc)
    requires Restacked(body, th, stack, v) && AliveValue(color, white, v)
    ensures StateOk(gcstate, WithStack(body, th, stack), color, white, lists, tmu, {}, mainthread, registry, strt,
      sweepstrgc, all, sweepgc)
  {
    hide MarkPhase;
    if gcstate.GCSpropagate? {
      RestackedWhileMarking(body, color, white, lists, tmu, done, th, stack, v);
    } else if gcstate.GCSsweep? {
      forall i | 0 <= i < sweepgc ensures SweptAt(WithStack(body, th, stack), color, white, all[i]) {
        assert SweptAt(body, color, white, all[i]);
      }
    }
  }

  /** The globals of a thread change, and nothing else. */
  ghost predicate ChangingGlobals(h: Snapshot, h': Snapshot, th: Ref, env: Value) {
    && th in h.body && h.body[th].Thread? && h' == h.(body := WithGlobals(h.body, th, env), done := {})
  }

  lemma GlobalsChangedIsGood(h: Snapshot, h': Snapshot, th: Ref, env: Value)
    requires Good(h) && ChangingGlobals(h, h', th, env) && AliveValue(h.color, h.white, env)
    ensures Good(h')
  {
    hide Safe, Linked, MarkPhase, StringsSwept;
    GlobalsAreSafe(h.body, h.color, h.white, th, env);
    GlobalsAreLinked(h.body, h.rootgc, h.udata, h.tmu, h.strt, h.uvhead, th, env);
    KeysOfHeap(h.body, h.color, h.white);
    if h.gcstate.GCSpropagate? {
      GlobalsWhileMarking(h.body, h.color, h.white, h.lists, h.tmu, h.done, th, env);
    } else if h.gcstate.GCSsweep? {
      var all := h.rootgc + h.udata;
      forall i | 0 <= i < h.sweepgc ensures SweptAt(h'.body, h.color, h.white, all[i]) {
        assert SweptAt(h.body, h.color, h.white, all[i]);
      }
    }
  }

  /** Where the sweep is when an object is linked at the position `at` of the root list. */
  function Shifted(sweepgc: nat, at: nat): nat {
    if sweepgc <= at then sweepgc else sweepgc + 1
  }

  lemma CreatedKeepsState(gcstate: GCState, body: Bodies, color: Colors, white: bool, lists: seq<Ref>, tmu: seq<Ref>,
      done: set<Ref>, mainthread: Ref, registry: Value, strt: seq<seq<Ref>>, strt': seq<seq<Ref>>, sweepstrgc: nat,
      all: seq<Ref>, sweepgc: nat, all': seq<Ref>, sweepgc': nat, n: Ref, b: Body)
    requires StateOk(gcstate, body, color, white, lists, tmu, done, mainthread, registry, strt, sweepstrgc, all,
      sweepgc)
    requires Created(body, color, white, n, b) && forall r :: r in body && body[r].IsOpen() ==> body[r].v.thread in body
    requires forall r :: r in tmu ==> r in body
    requires forall r :: r in body && body[r].Thread? ==> forall i :: 0 <= i < |body[r].open| ==>
      body[r].open[i] in body
    requires |strt'| == |strt| && forall b, r :: 0 <= b < |strt| && r in strt'[b] ==> r in strt[b] || r == n
    requires (all' == all && sweepgc' == sweepgc) || exists at: nat ::
      at <= |all| && all' == all[..at] + [n] + all[at..] && sweepgc' == Shifted(sweepgc, at)
    ensures StateOk(gcstate, body[n := b], color[n := White(white)], white, lists, tmu, {}, mainthread, registry, strt',
      sweepstrgc, all', sweepgc')
  {
    hide MarkPhase;
    var body', color' := body[n := b], color[n := White(white)];
    if gcstate.GCSpropagate? {
      CreatedWhileMarking(body, color, white, lists, tmu, done, n, b);
    } else if gcstate.GCSsweepstring? {
      NewStringsSwept(color, white, strt, strt', sweepstrgc, n);
    } else if gcstate.GCSsweep? {
      NewStringsSwept(color, white, strt, strt', |strt|, n);
      NewRootsSwept(body, color, white, all, sweepgc, all', sweepgc', n, b);
    }
  }

  lemma NewRootsSwept(body: Bodies, color: Colors, white: bool, all: seq<Ref>, sweepgc: nat, all': seq<Ref>,
      sweepgc': nat, n: Ref, b: Body)
    requires RootsSwept(body, color, white, all, sweepgc) && Created(body, color, white, n, b) &&
      body.Keys == color.Keys
    requires forall r :: r in body && body[r].Thread? ==> forall i :: 0 <= i < |body[r].open| ==>
      body[r].open[i] in body
    requires (all' == all && sweepgc' == sweepgc) || exists at: nat ::
      at <= |all| && all' == all[..at] + [n] + all[at..] && sweepgc' == Shifted(sweepgc, at)
    ensures RootsSwept(body[n := b], color[n := White(white)], white, all', sweepgc')
  {
    hide SweptAt, Created;
    NewIsSwept(body, color, white, n, b);
    if all' != all || sweepgc' != sweepgc {
      var at: nat :| at <= |all| && all' == all[..at] + [n] + all[at..] && sweepgc' == Shifted(sweepgc, at);
      forall i | 0 <= i < sweepgc' ensures SweptAt(body[n := b], color[n := White(white)], white, all'[i]) {
        assert i != at ==> all'[i] == all[if i < at then i else i - 1];
      }
    }
  }

  lemma NewIsSwept(body: Bodies, color: Colors, white: bool, n: Ref, b: Body)
    requires Created(body, color, white, n, b) && body.Keys == color.Keys
    requires forall r :: r in body && body[r].Thread? ==> forall i :: 0 <= i < |body[r].open| ==>
      body[r].open[i] in body
    ensures SweptAt(body[n := b], color[n := White(white)], white, n)
    ensures forall r :: SweptAt(body, color, white, r) ==> SweptAt(body[n := b], color[n := White(white)], white, r)
  {
  }

  lemma NewStringsSwept(color: Colors, white: bool, strt: seq<seq<Ref>>, strt': seq<seq<Ref>>, k: nat, n: Ref)
    requires StringsSwept(color, white, strt, k) && |strt'| == |strt|
    requires forall b, r :: 0 <= b < |strt| && r in strt'[b] ==> r in strt[b] || r == n
    ensures StringsSwept(color[n := White(white)], white, strt', k)
  {
    forall b, r | 0 <= b < k && r in strt'[b] ensures WhiteAt(color[n := White(white)], white, r) {
      if r != n {
        assert r in strt[b] && WhiteAt(color, white, r);
      }
    }
  }

  /** What a new object needs to know of upvalues and lists. */
  lemma UpvaluesAreThere(body: Bodies, rootgc: seq<Ref>, udata: seq<Ref>, tmu: seq<Ref>, strt: seq<seq<Ref>>,
      uvhead: seq<Ref>)
    requires Linked(body, rootgc, udata, tmu, strt, uvhead)
    ensures forall r :: r in body && body[r].IsOpen() ==> body[r].v.thread in body
    ensures forall r :: r in tmu ==> r in body
    ensures forall r :: r in body && body[r].Thread? ==> forall i :: 0 <= i < |body[r].open| ==> body[r].open[i] in body
  {
    forall r | r in body && body[r].IsOpen() ensures body[r].v.thread in body {
      assert OpenAt(body, body[r].v.thread, r);
    }
    forall r | r in body && body[r].Thread? ensures forall i :: 0 <= i < |body[r].open| ==> body[r].open[i] in body {
      assert OpenList(body, r);
      forall i | 0 <= i < |body[r].open| ensures body[r].open[i] in body {
        assert OpenAt(body, r, body[r].open[i]);
      }
    }
  }

  lemma RootsOfCreated(body: Bodies, color: Colors, white: bool, mainthread: Ref, running: Ref, registry: Value,
      mt: seq<Value>, tmu: seq<Ref>, n: Ref, b: Body)
    requires RootsAlive(body, color, white, mainthread, running, registry, mt, tmu) && n !in body &&
      body.Keys == color.Keys
    ensures RootsAlive(body[n := b], color[n := White(white)], white, mainthread, running, registry, mt, tmu)
  {
  }

  // ---- the whole state

  datatype Snapshot = Snapshot(gcstate: GCState, body: Bodies, color: Colors, white: bool, lists: seq<Ref>,
    tmu: seq<Ref>, done: set<Ref>, mainthread: Ref, running: Ref, registry: Value, mt: seq<Value>, fixed: set<Ref>,
    strt: seq<seq<Ref>>, sweepstrgc: nat, rootgc: seq<Ref>, udata: seq<Ref>, sweepgc: nat, uvhead: seq<Ref>)

  /** The invariant of the collector and of the program together. */
  ghost predicate Good(h: Snapshot) {
    && HeapOk(h.body, h.color, h.white, h.rootgc, h.udata, h.tmu, h.strt, h.uvhead)
    && RootsAlive(h.body, h.color, h.white, h.mainthread, h.running, h.registry, h.mt, h.tmu)
    && FixedOk(h.body, h.fixed, h.mainthread) && |h.strt| > 0
    && StateOk(h.gcstate, h.body, h.color, h.white, h.lists, h.tmu, h.done, h.mainthread, h.registry, h.strt,
       h.sweepstrgc, h.rootgc + h.udata, h.sweepgc)
  }

  /** The state with a new object in it, not linked yet. */
  function With(h: Snapshot, n: Ref, b: Body): Snapshot {
    h.(body := h.body[n := b], color := h.color[n := White(h.white)], fixed := h.fixed - {n}, done := {})
  }

  lemma CreatedIsGood(h: Snapshot, n: Ref, b: Body)
    requires Good(h) && Created(h.body, h.color, h.white, n, b) && Rooted(b)
    ensures !b.Userdata? ==> Good(With(h, n, b).(rootgc := [n] + h.rootgc, sweepgc := Shifted(h.sweepgc, 0)))
    ensures b.Userdata? ==> Good(With(h, n, b).(udata := [n] + h.udata, sweepgc := Shifted(h.sweepgc, |h.rootgc|)))
  {
    hide StateOk, Safe, Linked, RootsAlive, FixedOk, Created;
    CreatedParts(h, n, b);
    CreatedIsLinked(h.body, h.color, h.white, h.rootgc, h.udata, h.tmu, h.strt, h.uvhead, n, b);
    var at := if b.Userdata? then |h.rootgc| else 0;
    var all := h.rootgc + h.udata;
    var all' := all[..at] + [n] + all[at..];
    if b.Userdata? {
      assert all' == h.rootgc + ([n] + h.udata);
    } else {
      assert all' == ([n] + h.rootgc) + h.udata;
    }
    CreatedKeepsState(h.gcstate, h.body, h.color, h.white, h.lists, h.tmu, h.done, h.mainthread, h.registry, h.strt,
      h.strt, h.sweepstrgc, all, h.sweepgc, all', Shifted(h.sweepgc, at), n, b);
  }

  /** A new object at `n` is linked: in a bucket if it is a string, after the main thread if it is a
      userdata, and at the head of the root list otherwise. */
  ghost predicate Linking(h: Snapshot, h': Snapshot, n: Ref, b: Body, k: nat) {
    && h'.gcstate == h.gcstate && h'.body == h.body[n := b] && h'.color == h.color[n := White(h.white)] &&
       h'.white == h.white
    && h'.lists == h.lists && h'.tmu == h.tmu && h'.done == {} && h'.mainthread == h.mainthread &&
       h'.running == h.running
    && h'.registry == h.registry && h'.mt == h.mt && h'.fixed == h.fixed - {n} && h'.sweepstrgc == h.sweepstrgc &&
       h'.uvhead == h.uvhead
    && (if b.TString? then k < |h.strt| && h'.strt == h.strt[k := [n] + h.strt[k]] else h'.strt == h.strt)
    && (if b.Userdata? then h'.udata == [n] + h.udata else h'.udata == h.udata)
    && (if b.Userdata? || b.TString? then h'.rootgc == h.rootgc else h'.rootgc == [n] + h.rootgc)
    && h'.sweepgc == if b.TString? then h.sweepgc else if b.Userdata? then Shifted(h.sweepgc, |h.rootgc|)
       else Shifted(h.sweepgc, 0)
  }

  lemma LinkingIsGood(h: Snapshot, h': Snapshot, n: Ref, b: Body, k: nat)
    requires Good(h) && Created(h.body, h.color, h.white, n, b) && Linking(h, h', n, b, k) && !b.IsOpen()
    ensures Good(h')
  {
    hide Good, Created;
    if b.TString? {
      NewStringIsGood(h, n, k);
    } else {
      CreatedIsGood(h, n, b);
    }
  }

  lemma CreatedParts(h: Snapshot, n: Ref, b: Body)
    requires Good(h) && Created(h.body, h.color, h.white, n, b)
    ensures var h' := With(h, n, b);
      && Safe(h'.body, h'.color, h.white) && FixedOk(h'.body, h'.fixed, h.mainthread)
      && RootsAlive(h'.body, h'.color, h.white, h.mainthread, h.running, h.registry, h.mt, h.tmu)
    ensures forall r :: r in h.body && h.body[r].IsOpen() ==> h.body[r].v.thread in h.body
    ensures forall r :: r in h.tmu ==> r in h.body
    ensures forall r :: r in h.body && h.body[r].Thread? ==> forall i :: 0 <= i < |h.body[r].open| ==>
      h.body[r].open[i] in h.body
  {
    hide StateOk, Linked;
    UpvaluesAreThere(h.body, h.rootgc, h.udata, h.tmu, h.strt, h.uvhead);
    CreatedIsSafe(h.body, h.color, h.white, n, b);
    RootsOfCreated(h.body, h.color, h.white, h.mainthread, h.running, h.registry, h.mt, h.tmu, n, b);
  }

  lemma NewStringIsGood(h: Snapshot, n: Ref, k: nat)
    requires Good(h) && Created(h.body, h.color, h.white, n, TString) && k < |h.strt|
    ensures Good(With(h, n, TString).(strt := h.strt[k := [n] + h.strt[k]]))
  {
    hide StateOk, Safe, Linked, RootsAlive, FixedOk, Created;
    CreatedParts(h, n, TString);
    NewStringIsLinked(h.body, h.color, h.white, h.rootgc, h.udata, h.tmu, h.strt, h.uvhead, n, k);
    CreatedKeepsState(h.gcstate, h.body, h.color, h.white, h.lists, h.tmu, h.done, h.mainthread, h.registry, h.strt,
      h.strt[k := [n] + h.strt[k]], h.sweepstrgc, h.rootgc + h.udata, h.sweepgc, h.rootgc + h.udata, h.sweepgc, n,
      TString);
  }

  /** The same strings, each in one bucket, perhaps of another table. */
  ghost predicate SameStrings(strt: seq<seq<Ref>>, strt': seq<seq<Ref>>) {
    && |strt'| > 0 && (forall b :: 0 <= b < |strt'| ==> Distinct(strt'[b]))
    && (forall b, b', r :: 0 <= b < b' < |strt'| && r in strt'[b] ==> r !in strt'[b'])
    && (forall r :: InBucket(strt, r) <==> InBucket(strt', r))
  }

  lemma RehashedIsGood(h: Snapshot, h': Snapshot)
    requires Good(h) && SameStrings(h.strt, h'.strt) && h.gcstate != GCSsweepstring && h' == h.(strt := h'.strt)
    ensures Good(h')
  {
    hide Safe, RootsAlive, RootList, OpenUpvalues, MarkPhase, ProperMarks, RootsSwept;
    SameBuckets(h.body, h.strt, h'.strt);
    if h.gcstate.GCSsweep? {
      forall b, r | 0 <= b < |h'.strt| && r in h'.strt[b] ensures WhiteAt(h.color, h.white, r) {
        assert InBucket(h'.strt, r) && InBucket(h.strt, r);
        var c :| 0 <= c < |h.strt| && r in h.strt[c];
        assert WhiteAt(h.color, h.white, r);
      }
      assert StringsSwept(h'.color, h'.white, h'.strt, |h'.strt|);
    }
  }

  lemma SameBuckets(body: Bodies, strt: seq<seq<Ref>>, strt': seq<seq<Ref>>)
    requires Buckets(body, strt) && SameStrings(strt, strt')
    ensures Buckets(body, strt')
  {
    forall b, r | 0 <= b < |strt'| && r in strt'[b] ensures r in body && body[r].TString? {
      assert InBucket(strt', r) && InBucket(strt, r);
    }
  }

  // ---- upvalues

  /** An upvalue at `n` is opened on a slot of `th`, at position `i` of its list. */
  ghost predicate Opening(h: Snapshot, h': Snapshot, th: Ref, slot: nat, i: nat, n: Ref) {
    && th in h.body && h.body[th].Thread? && FitsAt(h.body, th, slot, i)
    && h'.gcstate == h.gcstate && h'.body == Opened(h.body, th, slot, i, n) &&
       h'.color == h.color[n := White(h.white)] && h'.white == h.white
    && h'.lists == h.lists && h'.tmu == h.tmu && h'.done == {} && h'.mainthread == h.mainthread &&
       h'.running == h.running
    && h'.registry == h.registry && h'.mt == h.mt && h'.fixed == h.fixed - {n} && h'.sweepstrgc == h.sweepstrgc &&
       h'.uvhead == [n] + h.uvhead
    && h'.strt == h.strt && h'.udata == h.udata && h'.rootgc == h.rootgc && h'.sweepgc == h.sweepgc
  }

  lemma OpeningIsGood(h: Snapshot, h': Snapshot, th: Ref, slot: nat, i: nat, n: Ref)
    requires Good(h) && Opening(h, h', th, slot, i, n) && n !in h.body && Alive(h.color, h.white, th)
    ensures Good(h')
  {
    hide StateOk, Safe, Linked, FitsAt, Opened, Refers;
    UpvaluesAreThere(h.body, h.rootgc, h.udata, h.tmu, h.strt, h.uvhead);
    OpenedIsSafe(h.body, h.color, h.white, th, slot, i, n);
    OpenedIsLinked(h.body, h.rootgc, h.udata, h.tmu, h.strt, h.uvhead, th, slot, i, n);
    KeysOfHeap(h.body, h.color, h.white);
    OpenedKinds(h.body, th, slot, i, n);
    OpenedKeepsState(h, h', th, slot, i, n);
  }

  lemma OpenedKinds(body: Bodies, th: Ref, slot: nat, i: nat, n: Ref)
    requires th in body && body[th].Thread? && FitsAt(body, th, slot, i) && n !in body
    ensures var body' := Opened(body, th, slot, i, n);
      && body'.Keys == body.Keys + {n} && body'[n] == UpVal(Open(th, slot)) && body'[th].Thread?
      && forall r :: r in body && r != th ==> body'[r] == body[r]
  {
  }

  lemma OpenedKeepsState(h: Snapshot, h': Snapshot, th: Ref, slot: nat, i: nat, n: Ref)
    requires StateOk(h.gcstate, h.body, h.color, h.white, h.lists, h.tmu, h.done, h.mainthread, h.registry, h.strt,
      h.sweepstrgc, h.rootgc + h.udata, h.sweepgc)
    requires Opening(h, h', th, slot, i, n) && n !in h.body && h.body.Keys == h.color.Keys && |h.strt| > 0
    requires forall r :: r in h.body && h.body[r].IsOpen() ==> h.body[r].v.thread in h.body
    requires forall r :: r in h.body && h.body[r].Thread? ==> forall i :: 0 <= i < |h.body[r].open| ==>
      h.body[r].open[i] in h.body
    ensures StateOk(h'.gcstate, h'.body, h'.color, h'.white, h'.lists, h'.tmu, h'.done, h'.mainthread, h'.registry,
      h'.strt, h'.sweepstrgc, h'.rootgc + h'.udata, h'.sweepgc)
  {
    hide MarkPhase, Refers;
    if h.gcstate.GCSpropagate? {
      OpenedWhileMarking(h.body, h.color, h.white, h.lists, h.tmu, h.done, th, slot, i, n);
    } else if h.gcstate.GCSsweepstring? {
      NewStringsSwept(h.color, h.white, h.strt, h.strt, h.sweepstrgc, n);
    } else if h.gcstate.GCSsweep? {
      NewStringsSwept(h.color, h.white, h.strt, h.strt, |h.strt|, n);
      var all := h.rootgc + h.udata;
      forall j | 0 <= j < h.sweepgc ensures SweptAt(h'.body, h'.color, h.white, all[j]) {
        assert SweptAt(h.body, h.color, h.white, all[j]);
        OpenedSweptAt(h, h', th, slot, i, n, all[j]);
      }
    }
  }

  lemma OpenedSweptAt(h: Snapshot, h': Snapshot, th: Ref, slot: nat, i: nat, n: Ref, x: Ref)
    requires Opening(h, h', th, slot, i, n) && n !in h.body && n !in h.color && SweptAt(h.body, h.color, h.white, x)
    ensures SweptAt(h'.body, h'.color, h.white, x)
  {
    if h.body[x].Thread? {
      forall j | 0 <= j < |h'.body[x].open| ensures WhiteAt(h'.color, h.white, h'.body[x].open[j]) {
        if x == th && j != i {
          assert h'.body[x].open[j] == h.body[x].open[if j < i then j else j - 1];
        }
      }
    }
  }

  /** The mark of one object changes, and nothing else. */
  ghost predicate Recoloring(h: Snapshot, h': Snapshot, r: Ref, c: Color) {
    && h'.gcstate == h.gcstate && h'.body == h.body && r in h.color && h'.color == h.color[r := c] &&
       h'.white == h.white
    && h'.lists == h.lists && h'.tmu == h.tmu && h'.done == {} && h'.mainthread == h.mainthread &&
       h'.running == h.running
    && h'.registry == h.registry && h'.mt == h.mt && h'.fixed == h.fixed && h'.sweepstrgc == h.sweepstrgc &&
       h'.uvhead == h.uvhead
    && h'.strt == h.strt && h'.udata == h.udata && h'.rootgc == h.rootgc && h'.sweepgc == h.sweepgc
  }

  /** A dead upvalue or a dead string is needed again: `changewhite`. */
  lemma ResurrectedIsGood(h: Snapshot, h': Snapshot, th: Ref, r: Ref)
    requires Good(h) && r in h.body && r in h.color && h.color[r] == White(!h.white) &&
      Recoloring(h, h', r, White(h.white))
    requires h.body[r].TString? || (OpenAt(h.body, th, r) && Alive(h.color, h.white, th))
    ensures Good(h')
  {
    hide StateOk, Safe, Linked;
    if h.body[r].TString? {
      WhitenedIsSafe(h.body, h.color, h.white, r);
    } else {
      ResurrectedIsSafe(h.body, h.color, h.white, th, r);
    }
    KeysOfHeap(h.body, h.color, h.white);
    ResurrectedKeepsState(h, r);
  }

  lemma ResurrectedKeepsState(h: Snapshot, r: Ref)
    requires StateOk(h.gcstate, h.body, h.color, h.white, h.lists, h.tmu, h.done, h.mainthread, h.registry, h.strt,
      h.sweepstrgc, h.rootgc + h.udata, h.sweepgc)
    requires r in h.body && r in h.color && h.color[r] == White(!h.white)
    ensures StateOk(h.gcstate, h.body, h.color[r := White(h.white)], h.white, h.lists, h.tmu, {}, h.mainthread,
      h.registry, h.strt, h.sweepstrgc, h.rootgc + h.udata, h.sweepgc)
  {
    var color' := h.color[r := White(h.white)];
    match h.gcstate {
      case GCSpause =>
      case GCSfinalize =>
      case GCSpropagate => assert false;
      case GCSsweepstring =>
        NewStringsSwept(h.color, h.white, h.strt, h.strt, h.sweepstrgc, r);
      case GCSsweep =>
        NewStringsSwept(h.color, h.white, h.strt, h.strt, |h.strt|, r);
        var all := h.rootgc + h.udata;
        forall j | 0 <= j < h.sweepgc ensures SweptAt(h.body, color', h.white, all[j]) {
          assert SweptAt(h.body, h.color, h.white, all[j]);
        }
    }
  }

  /** The first upvalue in the list of `th` is closed and linked in the root list, with the mark `c`. */
  ghost predicate Closing(h: Snapshot, h': Snapshot, th: Ref, k: nat, c: Color) {
    && th in h.body && h.body[th].Thread? && h.body[th].open != [] && OpenAt(h.body, th, h.body[th].open[0])
    && k < |h.uvhead| && h.uvhead[k] == h.body[th].open[0] && h.body[th].open[0] in h.color
    && h'.gcstate == h.gcstate && h'.body == ClosedFirst(h.body, th) && h'.color == h.color[h.body[th].open[0] := c] &&
       h'.white == h.white
    && h'.lists == h.lists && h'.tmu == h.tmu && h'.mainthread == h.mainthread && h'.running == h.running
    && h'.registry == h.registry && h'.mt == h.mt && h'.fixed == h.fixed && h'.sweepstrgc == h.sweepstrgc &&
       h'.uvhead == Removed(h.uvhead, k)
    && h'.strt == h.strt && h'.udata == h.udata && h'.rootgc == [h.body[th].open[0]] + h.rootgc &&
       h'.sweepgc == Shifted(h.sweepgc, 0)
  }

  /** An upvalue that is white, or that becomes white because the mark phase is over. */
  lemma ClosingIsGood(h: Snapshot, h': Snapshot, th: Ref, k: nat)
    requires Good(h) && Closing(h, h', th, k, White(h.white)) && h'.done == {}
    requires var c := h.color[h.body[th].open[0]]; c == White(h.white) || (c.Gray? && h.gcstate != GCSpropagate)
    ensures Good(h')
  {
    hide StateOk, Safe, Linked, Refers, ClosedFirst;
    var uv := h.body[th].open[0];
    KeysOfHeap(h.body, h.color, h.white);
    ClosedKeepsReferences(h.body, th);
    SameReferencesSafe(h.body, h'.body, h.color, h.white);
    WhitenedIsSafe(h'.body, h.color, h.white, uv);
    ClosedIsLinked(h.body, h.rootgc, h.udata, h.tmu, h.strt, h.uvhead, th, k);
    ClosedKinds(h.body, th);
    ClosingKeepsState(h, h', th, k);
  }

  lemma ClosedKinds(body: Bodies, th: Ref)
    requires th in body && body[th].Thread? && body[th].open != [] && OpenAt(body, th, body[th].open[0])
    ensures var uv, body' := body[th].open[0], ClosedFirst(body, th);
      && body'.Keys == body.Keys && uv != th && body'[uv].UpVal? && !body'[uv].IsOpen()
      && body'[th] == body[th].(open := Removed(body[th].open, 0))
      && forall r :: r in body && r != th && r != uv ==> body'[r] == body[r]
  {
  }

  lemma ClosingKeepsState(h: Snapshot, h': Snapshot, th: Ref, k: nat)
    requires StateOk(h.gcstate, h.body, h.color, h.white, h.lists, h.tmu, h.done, h.mainthread, h.registry, h.strt,
      h.sweepstrgc, h.rootgc + h.udata, h.sweepgc)
    requires Closing(h, h', th, k, White(h.white)) && h'.done == {} && h.body.Keys == h.color.Keys
    requires var c := h.color[h.body[th].open[0]]; c == White(h.white) || (c.Gray? && h.gcstate != GCSpropagate)
    ensures StateOk(h'.gcstate, h'.body, h'.color, h'.white, h'.lists, h'.tmu, h'.done, h'.mainthread, h'.registry,
      h'.strt, h'.sweepstrgc, h'.rootgc + h'.udata, h'.sweepgc)
  {
    hide MarkPhase, Refers, ClosedFirst;
    var uv := h.body[th].open[0];
    ClosedKinds(h.body, th);
    if h.gcstate.GCSpropagate? {
      assert h'.color == h.color;
      ClosedKeepsReferences(h.body, th);
      SameReferencesWhileMarking(h.body, h'.body, h.color, h.white, h.lists, h.tmu, h.done, uv);
    } else if h.gcstate.GCSsweepstring? {
      NewStringsSwept(h.color, h.white, h.strt, h.strt, h.sweepstrgc, uv);
    } else if h.gcstate.GCSsweep? {
      NewStringsSwept(h.color, h.white, h.strt, h.strt, |h.strt|, uv);
      var all, all' := h.rootgc + h.udata, h'.rootgc + h'.udata;
      assert all' == [uv] + all;
      forall j | 0 <= j < h'.sweepgc ensures SweptAt(h'.body, h'.color, h.white, all'[j]) {
        if j > 0 {
          assert SweptAt(h.body, h.color, h.white, all[j - 1]);
        }
      }
    }
  }

  /** A gray upvalue is closed in the mark phase: it becomes black, and its value is marked. */
  lemma ClosingGray(h: Snapshot, th: Ref)
    requires Good(h) && h.gcstate == GCSpropagate && th in h.body && h.body[th].Thread? && h.body[th].open != []
    requires OpenAt(h.body, th, h.body[th].open[0]) && h.body[th].open[0] in h.color &&
      h.color[h.body[th].open[0]].Gray?
    ensures var uv := h.body[th].open[0];
      MarkPhase(ClosedFirst(h.body, th), h.color[uv := Black], h.white, h.lists, h.tmu, {}, {uv}) && uv !in h.lists
  {
    hide MarkPhase, Refers, ClosedFirst, Safe, Linked;
    var uv := h.body[th].open[0];
    ClosedKinds(h.body, th);
    ClosedKeepsReferences(h.body, th);
    KeysOfHeap(h.body, h.color, h.white);
    SameReferencesWhileMarking(h.body, ClosedFirst(h.body, th), h.color, h.white, h.lists, h.tmu, h.done, uv);
    BlackenExempt(ClosedFirst(h.body, th), h.color, h.white, h.lists, h.tmu, uv);
  }

  lemma BlackenExempt(body: Bodies, color: Colors, white: bool, lists: seq<Ref>, tmu: seq<Ref>, uv: Ref)
    requires MarkPhase(body, color, white, lists, tmu, {}, {uv}) && uv in color && color[uv].Gray? && uv !in lists
    ensures MarkPhase(body, color[uv := Black], white, lists, tmu, {}, {uv})
  {
    var color' := color[uv := Black];
    assert GrayLists(body, color', lists, {uv});
    forall r | r in body && r in color' && color'[r].Black? && r !in tmu && r !in {uv}
      ensures AllOk(body, color', tmu, r) {
      assert AllOk(body, color, tmu, r);
    }
  }

  /** The end of that: marking has gone on from the new black upvalue. */
  lemma ClosedGrayIsGood(h: Snapshot, h1: Snapshot, h': Snapshot, th: Ref, k: nat, gray: seq<Ref>, gray': seq<Ref>,
      rest: seq<Ref>, done1: set<Ref>)
    requires Good(h) && h.gcstate == GCSpropagate && Closing(h, h1, th, k, Black) && h.color[h.body[th].open[0]].Gray?
    requires h1.lists == gray + rest && h'.lists == gray' + rest
    requires Advanced(h1.body, h1.color, gray, {}, h'.color, gray', done1)
    requires MarkPhase(h1.body, h'.color, h.white, h'.lists, h.tmu, done1, {h.body[th].open[0]})
    requires ValueOk(h1.body, h'.color, h.body[th].open[0])
    requires MarkedSince(h1, h')
    ensures Good(h')
  {
    hide StateOk, Safe, Linked, Refers, ClosedFirst, MarkPhase;
    var uv := h.body[th].open[0];
    KeysOfHeap(h.body, h.color, h.white);
    StateIsMarking(h.gcstate, h.body, h.color, h.white, h.lists, h.tmu, h.done, h.mainthread, h.registry, h.strt,
      h.sweepstrgc, h.rootgc + h.udata, h.sweepgc);
    ClosedIsLinked(h.body, h.rootgc, h.udata, h.tmu, h.strt, h.uvhead, th, k);
    ClosedKinds(h.body, th);
    ClosingGray(h, th);
    ClosedUpvalueOk(h1.body, h'.color, h.tmu, uv);
    BarrierDone(h1.body, h'.color, h.white, h'.lists, h.tmu, done1, uv);
    PhaseIsSafe(h'.body, h'.color, h.white, h'.lists, h.tmu, {}, {});
    assert StateOk(h'.gcstate, h'.body, h'.color, h'.white, h'.lists, h'.tmu, h'.done, h'.mainthread, h'.registry,
      h'.strt, h'.sweepstrgc,
                   h'.rootgc + h'.udata, h'.sweepgc) by {
      StateFromMarking(h', h1, h);
    }
  }

  /** What marking leaves as it was. */
  ghost predicate MarkedSince(h: Snapshot, h': Snapshot) {
    && h'.gcstate == h.gcstate && h'.body == h.body && h'.white == h.white
    && h'.tmu == h.tmu && h'.done == {} && h'.mainthread == h.mainthread && h'.running == h.running
    && h'.registry == h.registry && h'.mt == h.mt && h'.fixed == h.fixed && h'.sweepstrgc == h.sweepstrgc &&
       h'.uvhead == h.uvhead
    && h'.strt == h.strt && h'.udata == h.udata && h'.rootgc == h.rootgc && h'.sweepgc == h.sweepgc
  }

  ghost predicate ValueOk(body: Bodies, color: Colors, uv: Ref) {
    uv in body && body[uv].UpVal? && Reached(color, ValueOf(body, body[uv].v))
  }

  lemma ClosedUpvalueOk(body: Bodies, color: Colors, tmu: seq<Ref>, uv: Ref)
    requires ValueOk(body, color, uv)
    ensures AllOk(body, color, tmu, uv)
  {
  }

  lemma StateFromMarking(h': Snapshot, h1: Snapshot, h: Snapshot)
    requires h'.gcstate == GCSpropagate && MarkPhase(h'.body, h'.color, h'.white, h'.lists, h'.tmu, h'.done, {})
    requires h.mainthread in h.color && !h.color[h.mainthread].White? && Reached(h.color, h.registry)
    requires h'.mainthread == h.mainthread && h'.registry == h.registry
    requires forall r :: r in h.color && !h.color[r].White? ==> r in h'.color && !h'.color[r].White?
    ensures StateOk(h'.gcstate, h'.body, h'.color, h'.white, h'.lists, h'.tmu, h'.done, h'.mainthread, h'.registry,
      h'.strt, h'.sweepstrgc, h'.rootgc + h'.udata, h'.sweepgc)
  {
  }
}
