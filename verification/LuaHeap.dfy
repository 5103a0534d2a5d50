/** The heap that the collector works on: what collectable objects there are, and which of them
    refer to which. */
module LuaHeap {
  import opened LuaBasics

  type Ref = nat

  /** A TValue; Plain stands for booleans, numbers and light userdata. */
  datatype Value = Nil | Plain | Gco(ref: Ref)

  datatype Entry = Entry(key: Value, val: Value)

  /** The `__mode` field of a table that is used as a metatable. */
  datatype Mode = Mode(weakKey: bool, weakValue: bool)

  /** Where an upvalue has its value. */
  datatype Place = Closed(value: Value) | Open(thread: Ref, slot: nat)

  datatype Body =
    | TString
    | Table(meta: Value, arr: seq<Value>, node: seq<Entry>, mode: Mode, gcTag: bool)   // gcTag: has a `__gc` field
    | Closure(env: Value, slots: seq<Value>)        // the prototype and the upvalues
    | Proto(slots: seq<Value>)                      // constants, nested prototypes and names
    | Thread(globals: Value, stack: seq<Value>, open: seq<Ref>)
    | UpVal(v: Place)
    | Userdata(meta: Value, env: Value)
  {
    predicate IsOpen() { UpVal? && v.Open? }

    /** Objects that go through a gray list. */
    predicate Traversable() { Table? || Closure? || Proto? || Thread? }
  }

  type Bodies = map<Ref, Body>

  /** The two whites are told apart by the flag. */
  datatype Color = White(w: bool) | Gray | Black

  type Colors = map<Ref, Color>

  function ModeOf(body: Bodies, meta: Value): Mode {
    if meta.Gco? && meta.ref in body && body[meta.ref].Table? then body[meta.ref].mode else Mode(false, false)
  }

  ghost predicate LiveEntry(node: seq<Entry>, i: nat) {
    i < |node| && node[i].val != Nil
  }

  ghost predicate KeyRefers(node: seq<Entry>, c: Ref) {
    exists i: nat :: LiveEntry(node, i) && node[i].key == Gco(c)
  }

  ghost predicate ValueRefers(node: seq<Entry>, c: Ref) {
    exists i: nat :: LiveEntry(node, i) && node[i].val == Gco(c)
  }

  ghost predicate InEntries(node: seq<Entry>, c: Ref) { KeyRefers(node, c) || ValueRefers(node, c) }

  /** `fasttm(L, mt, TM_GC)`. */
  predicate FinalizerIn(body: Bodies, meta: Value) {
    meta.Gco? && meta.ref in body && body[meta.ref].Table? && body[meta.ref].gcTag
  }

  /** The userdata whose finalizers are still to be called. */
  function FinalsOf(body: Bodies, finalized: set<Ref>): set<Ref> {
    set u | u in body && body[u].Userdata? && u !in finalized && FinalizerIn(body, body[u].meta)
  }

  /** What an upvalue is worth. */
  function ValueOf(body: Bodies, v: Place): Value {
    match v
    case Closed(value) => value
    case Open(th, slot) =>
      if th in body && body[th].Thread? && slot < |body[th].stack| then body[th].stack[slot] else Nil
  }

  /** The object at `r` has a reference to `c`, weak or strong. An open upvalue has its value in a
      stack. */
  ghost predicate Refers(body: Bodies, r: Ref, c: Ref)
    requires r in body
  {
    match body[r]
    case TString => false
    case Table(meta, arr, node, _, _) => meta == Gco(c) || Gco(c) in arr || KeyRefers(node, c) || ValueRefers(node, c)
    case Closure(env, slots) => env == Gco(c) || Gco(c) in slots
    case Proto(slots) => Gco(c) in slots
    case Thread(globals, stack, _) => globals == Gco(c) || Gco(c) in stack
    case UpVal(v) => ValueOf(body, v) == Gco(c)
    case Userdata(meta, env) => meta == Gco(c) || env == Gco(c)
  }

  /** The reference keeps `c` from being collected. */
  ghost predicate Strongly(body: Bodies, r: Ref, c: Ref)
    requires r in body
  {
    if body[r].Table? then
      var mode := ModeOf(body, body[r].meta);
      || body[r].meta == Gco(c)
      || (!mode.weakValue && Gco(c) in body[r].arr)
      || (!mode.weakKey && KeyRefers(body[r].node, c))
      || (!mode.weakValue && ValueRefers(body[r].node, c))
    else Refers(body, r, c)
  }

  /** What keeps an object from being collected, by the kind of the object that refers to it: a table keeps its
      metatable, its keys unless they are weak, and its values unless they are weak; all others keep everything. */
  lemma StrongReferencesAre(body: Bodies, r: Ref, c: Ref)
    requires r in body
    ensures Strongly(body, r, c) <==> match body[r]
      case TString => false
      case Table(meta, arr, node, _, _) =>
        || meta == Gco(c)
        || (!WeakValued(body, r) && exists i :: 0 <= i < |arr| && arr[i] == Gco(c))
        || (!WeakKeyed(body, r) && exists i :: 0 <= i < |node| && node[i].val != Nil && node[i].key == Gco(c))
        || (!WeakValued(body, r) && exists i :: 0 <= i < |node| && node[i].val == Gco(c))
      case Closure(env, slots) => env == Gco(c) || exists i :: 0 <= i < |slots| && slots[i] == Gco(c)
      case Proto(slots) => exists i :: 0 <= i < |slots| && slots[i] == Gco(c)
      case Thread(globals, stack, _) => globals == Gco(c) || exists i :: 0 <= i < |stack| && stack[i] == Gco(c)
      case UpVal(Closed(v)) => v == Gco(c)
      case UpVal(Open(th, slot)) =>
        th in body && body[th].Thread? && slot < |body[th].stack| && body[th].stack[slot] == Gco(c)
      case Userdata(meta, env) => meta == Gco(c) || env == Gco(c)
  {
    if body[r].Table? {
      var node := body[r].node;
      EntriesAre(node, c);
    }
  }

  lemma EntriesAre(node: seq<Entry>, c: Ref)
    ensures KeyRefers(node, c) <==> exists i :: 0 <= i < |node| && node[i].val != Nil && node[i].key == Gco(c)
    ensures ValueRefers(node, c) <==> exists i :: 0 <= i < |node| && node[i].val == Gco(c)
  {
    forall i | 0 <= i < |node| && node[i].val != Nil ensures LiveEntry(node, i) {
    }
  }

  lemma EntryIsReferred(node: seq<Entry>, i: nat)
    requires i < |node| && node[i].val != Nil
    ensures node[i].key.Gco? ==> KeyRefers(node, node[i].key.ref)
    ensures node[i].val.Gco? ==> ValueRefers(node, node[i].val.ref)
  {
    assert LiveEntry(node, i);
  }

  lemma StronglyRefers(body: Bodies, r: Ref, c: Ref)
    requires r in body && Strongly(body, r, c)
    ensures Refers(body, r, c)
  {
  }

  /** All references lead to objects of the heap. */
  ghost predicate Whole(body: Bodies) {
    forall r, c :: r in body && Refers(body, r, c) ==> c in body
  }

  ghost predicate IsWhite(color: Colors, r: Ref) {
    r in color && color[r].White?
  }

  function Whites(color: Colors): set<Ref> {
    set r | r in color && color[r].White?
  }

  // ---- the mark phase

  /** A reference that needs no more marking: to a marked object, or to a userdata that waits for its
      finalizer and will be marked then. */
  ghost predicate Ok(color: Colors, tmu: seq<Ref>, c: Ref) {
    c in color && (!color[c].White? || c in tmu)
  }

  /** Whether every reference of `r` needs no more marking. */
  ghost predicate AllOk(body: Bodies, color: Colors, tmu: seq<Ref>, r: Ref)
    requires r in body
  {
    forall c :: Refers(body, r, c) ==> Ok(color, tmu, c)
  }

  ghost predicate StrongOk(body: Bodies, color: Colors, tmu: seq<Ref>, r: Ref)
    requires r in body
  {
    forall c :: Strongly(body, r, c) ==> Ok(color, tmu, c)
  }

  /** No black object refers to a white one, except for userdata that wait for their finalizers. The
      objects in `done` are gray and have been traversed since the mutator ran last; those in `ex`
      are being traversed. */
  ghost predicate NoBlackToWhite(body: Bodies, color: Colors, tmu: seq<Ref>, done: set<Ref>, ex: set<Ref>) {
    && (forall r :: r in body && r in color && color[r].Black? && r !in tmu && r !in ex ==> AllOk(body, color, tmu, r))
    && (forall r :: r in done && r !in ex ==> r in body && StrongOk(body, color, tmu, r))
  }

  /** Each gray table, closure, prototype and thread is in exactly one gray list; threads and open
      upvalues are never black; strings and userdata are in no list. */
  ghost predicate GrayLists(body: Bodies, color: Colors, lists: seq<Ref>, ex: set<Ref>) {
    && Distinct(lists)
    && (forall r :: r in lists ==> r in body && r in color && body[r].Traversable() && (color[r].Gray? || r in ex))
    && (forall r :: r in body && r in color && color[r].Gray? && r !in ex ==>
          body[r].TString? || body[r].IsOpen() || r in lists)
    && (forall r :: r in body && r in color && color[r].Black? && r !in ex ==> !body[r].Thread? && !body[r].IsOpen())
  }

  /** Marks are only ever added. */
  ghost predicate Darker(color: Colors, color': Colors) {
    && color'.Keys == color.Keys
    && (forall r :: r in color && !color[r].White? ==> !color'[r].White?)
    && (forall r :: r in color && color[r].Black? ==> color'[r].Black?)
    && (forall r :: r in color && color'[r].White? ==> color'[r] == color[r])
  }

  lemma DarkerIsTransitive(a: Colors, b: Colors, c: Colors)
    requires Darker(a, b) && Darker(b, c)
    ensures Darker(a, c)
  {
  }

  lemma OkStays(body: Bodies, color: Colors, color': Colors, tmu: seq<Ref>, r: Ref)
    requires Darker(color, color') && r in body
    ensures AllOk(body, color, tmu, r) ==> AllOk(body, color', tmu, r)
    ensures StrongOk(body, color, tmu, r) ==> StrongOk(body, color', tmu, r)
  {
  }

  /** Only the sources that have just become black, or are now known to be done, need a proof. */
  lemma MarkingKeepsInvariant(body: Bodies, color: Colors, color': Colors, tmu: seq<Ref>, done: set<Ref>,
      done': set<Ref>, ex: set<Ref>, ex': set<Ref>)
    requires NoBlackToWhite(body, color, tmu, done, ex) && Darker(color, color')
    requires forall r ::
      r in body && r in color && color'[r].Black? && r !in tmu && r !in ex' && (!color[r].Black? || r in ex) ==>
        AllOk(body, color', tmu, r)
    requires forall r :: r in done' && r !in ex' && (r !in done || r in ex) ==>
      r in body && StrongOk(body, color', tmu, r)
    ensures NoBlackToWhite(body, color', tmu, done', ex')
  {
    forall r | r in body && r in color' && color'[r].Black? && r !in tmu && r !in ex'
      ensures AllOk(body, color', tmu, r) {
      OkStays(body, color, color', tmu, r);
    }
    forall r | r in done' && r !in ex' ensures r in body && StrongOk(body, color', tmu, r) {
      if r in done && r !in ex {
        OkStays(body, color, color', tmu, r);
      }
    }
  }

  // ---- nothing is marked without a reason

  /** What the objects of `live` refer to strongly is in `live`. */
  ghost predicate ClosedUnder(body: Bodies, live: iset<Ref>) {
    forall r, c :: r in live && r in body && Strongly(body, r, c) ==> c in live
  }

  /** Only objects of `live` are marked. */
  ghost predicate Within(body: Bodies, color: Colors, live: iset<Ref>) {
    ClosedUnder(body, live) && forall r :: r in color && !color[r].White? ==> r in live
  }

  ghost predicate LiveValues(live: iset<Ref>, vs: seq<Value>) {
    forall i :: 0 <= i < |vs| && vs[i].Gco? ==> vs[i].ref in live
  }

  predicate IsRef(r: Ref) { r >= 0 }

  ghost function Everyone(): iset<Ref> { iset r: Ref | IsRef(r) }

  lemma EveryoneIsWithin(body: Bodies, color: Colors)
    ensures Within(body, color, Everyone())
  {
  }

  lemma WithinMarked(body: Bodies, color: Colors, live: iset<Ref>, o: Ref, c: Color)
    requires Within(body, color, live) && o in color && (o in live || !color[o].White? || c.White?)
    ensures Within(body, color[o := c], live)
  {
  }

  /** What a marked object refers to strongly may be marked. */
  lemma LiveReferences(body: Bodies, color: Colors, live: iset<Ref>, o: Ref)
    requires Within(body, color, live) && o in body && (o in live || (o in color && !color[o].White?))
    ensures match body[o]
      case Table(meta, arr, node, _, _) =>
        && (meta.Gco? ==> meta.ref in live) && (!ModeOf(body, meta).weakValue ==> LiveValues(live, arr))
        && forall i: nat :: LiveEntry(node, i) ==> LiveParts(live, ModeOf(body, meta), node[i])
      case Closure(env, slots) => (env.Gco? ==> env.ref in live) && LiveValues(live, slots)
      case Proto(slots) => LiveValues(live, slots)
      case Thread(globals, stack, _) => (globals.Gco? ==> globals.ref in live) && LiveValues(live, stack)
      case UpVal(v) => ValueOf(body, v).Gco? ==> ValueOf(body, v).ref in live
      case Userdata(meta, env) => (meta.Gco? ==> meta.ref in live) && (env.Gco? ==> env.ref in live)
      case TString => true
  {
    assert forall c :: Strongly(body, o, c) ==> c in live;
    if body[o].Table? {
      var node, mode := body[o].node, ModeOf(body, body[o].meta);
      assert body[o].meta.Gco? ==> Strongly(body, o, body[o].meta.ref);
      forall i | 0 <= i < |body[o].arr| && body[o].arr[i].Gco? && !mode.weakValue ensures body[o].arr[i].ref in live {
        assert Strongly(body, o, body[o].arr[i].ref);
      }
      forall i: nat | LiveEntry(node, i) ensures LiveParts(live, mode, node[i]) {
        assert !mode.weakKey && node[i].key.Gco? ==> Strongly(body, o, node[i].key.ref);
        assert !mode.weakValue && node[i].val.Gco? ==> Strongly(body, o, node[i].val.ref);
      }
    } else {
      SlotsAreLive(body, live, o);
    }
  }

  ghost predicate LiveParts(live: iset<Ref>, mode: Mode, e: Entry) {
    (!mode.weakKey && e.key.Gco? ==> e.key.ref in live) && (!mode.weakValue && e.val.Gco? ==> e.val.ref in live)
  }

  lemma SlotsAreLive(body: Bodies, live: iset<Ref>, o: Ref)
    requires o in body && !body[o].Table? && forall c :: Refers(body, o, c) ==> c in live
    ensures match body[o]
      case Closure(env, slots) => (env.Gco? ==> env.ref in live) && LiveValues(live, slots)
      case Proto(slots) => LiveValues(live, slots)
      case Thread(globals, stack, _) => (globals.Gco? ==> globals.ref in live) && LiveValues(live, stack)
      case UpVal(v) => ValueOf(body, v).Gco? ==> ValueOf(body, v).ref in live
      case Userdata(meta, env) => (meta.Gco? ==> meta.ref in live) && (env.Gco? ==> env.ref in live)
      case _ => true
  {
    match body[o]
    case Closure(_, slots) => forall i | 0 <= i < |slots| && slots[i].Gco?
      ensures slots[i].ref in live { assert Refers(body, o, slots[i].ref); }
    case Proto(slots) => forall i | 0 <= i < |slots| && slots[i].Gco?
      ensures slots[i].ref in live { assert Refers(body, o, slots[i].ref); }
    case Thread(_, stack, _) => forall i | 0 <= i < |stack| && stack[i].Gco?
      ensures stack[i].ref in live { assert Refers(body, o, stack[i].ref); }
    case _ =>
  }

  /** An object that a collection may keep: it is in `live`, or it is a string in a table of `live`. */
  ghost predicate Spared(body: Bodies, live: iset<Ref>, r: Ref) {
    r in live || (r in body && body[r].TString? && exists h :: h in live && h in body && Refers(body, h, r))
  }

  /** The invariant of the mark phase. */
  ghost predicate MarkPhase(body: Bodies, color: Colors, white: bool, lists: seq<Ref>, tmu: seq<Ref>, done: set<Ref>,
      ex: set<Ref>) {
    && body.Keys == color.Keys && Whole(body)
    && (forall r :: r in color ==> color[r] != White(!white))
    && (forall r :: r in ex ==> r in color && !color[r].White?)
    && (forall r :: r in done ==> r in color && !color[r].White?)
    && GrayLists(body, color, lists, ex)
    && NoBlackToWhite(body, color, tmu, done, ex)
  }

  /** What marking does: white objects become gray or black, and some of them join the gray list. An
      open upvalue is traversed when it becomes gray. */
  ghost predicate Advanced(body: Bodies, color0: Colors, gray0: seq<Ref>, done0: set<Ref>, color: Colors,
      gray: seq<Ref>, done: set<Ref>) {
    && Darker(color0, color) && done0 <= done
    && (forall r :: r in color0 && !color0[r].White? ==> color[r] == color0[r])
    && (forall r :: r in body && body[r].Table? && IsWhite(color0, r) ==> !color[r].Black?)
    && (forall r :: r in gray ==> r in gray0 || IsWhite(color0, r))
    && (forall r :: r in body && body[r].IsOpen() && IsWhite(color0, r) && color[r].Gray? ==> r in done)
    && |Whites(color)| + |gray| <= |Whites(color0)| + |gray0| && |Whites(color)| <= |Whites(color0)|
  }

  lemma AdvancedIsTransitive(body: Bodies, c0: Colors, g0: seq<Ref>, d0: set<Ref>, c1: Colors, g1: seq<Ref>,
      d1: set<Ref>, c2: Colors, g2: seq<Ref>, d2: set<Ref>)
    requires Advanced(body, c0, g0, d0, c1, g1, d1) && Advanced(body, c1, g1, d1, c2, g2, d2)
    ensures Advanced(body, c0, g0, d0, c2, g2, d2)
  {
  }

  lemma AdvancedNothing(body: Bodies, color: Colors, gray: seq<Ref>, done: set<Ref>)
    ensures Advanced(body, color, gray, done, color, gray, done)
  {
  }

  /** One white object is marked, and perhaps queued. */
  lemma AdvancedByOne(body: Bodies, color: Colors, gray: seq<Ref>, done: set<Ref>, o: Ref, c: Color)
    requires IsWhite(color, o) && !c.White? && o in body && !body[o].IsOpen() && (body[o].Table? ==> c.Gray?)
    ensures Advanced(body, color, gray, done, color[o := c], gray, done)
    ensures Advanced(body, color, gray, done, color[o := c], [o] + gray, done)
  {
    WhiteGone(color, o, c);
  }

  /** A white upvalue was gray for a while, and may have become black. */
  lemma AdvancedThrough(body: Bodies, c0: Colors, g0: seq<Ref>, d0: set<Ref>, c: Colors, g: seq<Ref>, d: set<Ref>,
      o: Ref)
    requires IsWhite(c0, o) && o in c && !c[o].White? && Advanced(body, c0[o := Gray], g0, d0, c[o := Gray], g, d)
    requires (c[o].Gray? ==> o in d) && o in body && !body[o].Table?
    ensures Advanced(body, c0, g0, d0, c, g, d) && |Whites(c)| < |Whites(c0)|
  {
    WhiteGone(c0, o, Gray);
    assert Whites(c) == Whites(c[o := Gray]);
    assert forall r :: r in c <==> r in c[o := Gray];
  }

  // ---- weak tables are never black

  /** The metatable says so, by its `__mode`. */
  predicate WeakKeyed(body: Bodies, h: Ref) {
    && h in body && body[h].Table? && body[h].meta.Gco?
    && body[h].meta.ref in body && body[body[h].meta.ref].Table? && body[body[h].meta.ref].mode.weakKey
  }

  predicate WeakValued(body: Bodies, h: Ref) {
    && h in body && body[h].Table? && body[h].meta.Gco?
    && body[h].meta.ref in body && body[body[h].meta.ref].Table? && body[body[h].meta.ref].mode.weakValue
  }

  predicate IsWeak(body: Bodies, h: Ref) { WeakKeyed(body, h) || WeakValued(body, h) }

  ghost predicate IsBlack(color: Colors, r: Ref) { r in color && color[r].Black? }

  /** No weak table has become black. */
  ghost predicate NoWeakBlackened(body: Bodies, color: Colors, color': Colors) {
    forall h :: IsWeak(body, h) && IsBlack(color', h) ==> IsBlack(color, h)
  }

  lemma NoWeakBlackenedMore(body: Bodies, c0: Colors, c1: Colors, c2: Colors)
    requires NoWeakBlackened(body, c0, c1) && NoWeakBlackened(body, c1, c2)
    ensures NoWeakBlackened(body, c0, c2)
  {
  }

  lemma AdvancedBlackensNoWeak(body: Bodies, c0: Colors, g0: seq<Ref>, d0: set<Ref>, c: Colors, g: seq<Ref>,
      d: set<Ref>)
    requires Advanced(body, c0, g0, d0, c, g, d)
    ensures NoWeakBlackened(body, c0, c)
  {
  }

  /** One object has got another mark, and is no weak table if it is black. */
  lemma BlackenedOne(body: Bodies, color: Colors, o: Ref, c: Color)
    requires !c.Black? || !IsWeak(body, o)
    ensures NoWeakBlackened(body, color, color[o := c])
  {
  }

  lemma NothingBlackened(body: Bodies, color: Colors)
    ensures NoWeakBlackened(body, color, color)
  {
  }

  /** A gray object has been traversed; a weak table becomes gray again. */
  lemma TableIsTraversed(body: Bodies, c0: Colors, g0: seq<Ref>, d0: set<Ref>, c: Colors, g: seq<Ref>, d: set<Ref>,
      o: Ref, isWeak: bool)
    requires Advanced(body, c0[o := Black], g0, d0, c, g, d) && isWeak == IsWeak(body, o)
    ensures NoWeakBlackened(body, c0, if isWeak then c[o := Gray] else c)
  {
  }

  /** Traversed upvalues stay so. */
  lemma UpvaluesStayDone(body: Bodies, c0: Colors, g0: seq<Ref>, d0: set<Ref>, c: Colors, g: seq<Ref>, d: set<Ref>,
      ex: set<Ref>)
    requires Advanced(body, c0, g0, d0, c, g, d)
    ensures UpvaluesDone(body, c0, d0, ex) ==> UpvaluesDone(body, c, d, ex)
  {
  }

  // ---- the steps of marking an object

  lemma WhiteGone(color: Colors, o: Ref, c: Color)
    requires IsWhite(color, o) && !c.White?
    ensures Darker(color, color[o := c]) && |Whites(color[o := c])| + 1 == |Whites(color)|
  {
    assert Whites(color[o := c]) == Whites(color) - {o};
    assert o in Whites(color);
  }

  /** A white object becomes gray and joins the gray list. */
  lemma Queued(body: Bodies, color: Colors, white: bool, lists: seq<Ref>, tmu: seq<Ref>, done: set<Ref>, ex: set<Ref>,
      o: Ref)
    requires MarkPhase(body, color, white, lists, tmu, done, ex) && IsWhite(color, o) && body[o].Traversable()
    ensures MarkPhase(body, color[o := Gray], white, [o] + lists, tmu, done, ex)
  {
    var color' := color[o := Gray];
    WhiteGone(color, o, Gray);
    assert GrayLists(body, color', [o] + lists, ex);
    MarkingKeepsInvariant(body, color, color', tmu, done, done, ex, ex);
  }

  /** A white object is being marked without joining a list. */
  lemma MarkingBegins(body: Bodies, color: Colors, white: bool, lists: seq<Ref>, tmu: seq<Ref>, done: set<Ref>,
      ex: set<Ref>, o: Ref, c: Color)
    requires MarkPhase(body, color, white, lists, tmu, done, ex) && IsWhite(color, o)
    requires c.Gray? || c.Black?
    ensures MarkPhase(body, color[o := c], white, lists, tmu, done, ex + {o}) && o !in ex && o !in lists
  {
    var color' := color[o := c];
    WhiteGone(color, o, c);
    assert GrayLists(body, color', lists, ex + {o});
    MarkingKeepsInvariant(body, color, color', tmu, done, done, ex, ex + {o});
  }

  /** The marking of an object that joins no list is over. */
  lemma MarkingEnds(body: Bodies, color: Colors, white: bool, lists: seq<Ref>, tmu: seq<Ref>, done: set<Ref>,
      ex: set<Ref>, o: Ref, c: Color)
    requires MarkPhase(body, color, white, lists, tmu, done, ex + {o}) && o !in lists
    requires (c.Black? && !body[o].Thread? && !body[o].IsOpen()) ||
      (c.Gray? && color[o].Gray? && (body[o].TString? || body[o].IsOpen()))
    requires AllOk(body, color, tmu, o)
    ensures MarkPhase(body, color[o := c], white, lists, tmu, done, ex)
  {
    var color' := color[o := c];
    assert GrayLists(body, color', lists, ex);
    OkStays(body, color, color', tmu, o);
    AllIsStrong(body, color', tmu, o);
    MarkingKeepsInvariant(body, color, color', tmu, done, done, ex + {o}, ex);
  }

  lemma AllIsStrong(body: Bodies, color: Colors, tmu: seq<Ref>, r: Ref)
    requires r in body
    ensures AllOk(body, color, tmu, r) ==> StrongOk(body, color, tmu, r)
  {
    forall c | Strongly(body, r, c) ensures Refers(body, r, c) {
      StronglyRefers(body, r, c);
    }
  }

  /** A gray object has been traversed. */
  lemma Traversed(body: Bodies, color: Colors, white: bool, lists: seq<Ref>, tmu: seq<Ref>, done: set<Ref>,
      ex: set<Ref>, o: Ref)
    requires MarkPhase(body, color, white, lists, tmu, done, ex) && o in body && !color[o].White? &&
      StrongOk(body, color, tmu, o)
    ensures MarkPhase(body, color, white, lists, tmu, done + {o}, ex)
  {
    MarkingKeepsInvariant(body, color, color, tmu, done, done + {o}, ex, ex);
  }

  // ---- the steps of traversing a gray object

  lemma WhitesUnchanged(color: Colors, o: Ref, c: Color)
    requires o in color && !color[o].White? && !c.White?
    ensures Whites(color[o := c]) == Whites(color)
  {
  }

  /** The first gray object turns black and leaves its list. */
  lemma Popped(body: Bodies, color: Colors, white: bool, lists: seq<Ref>, tmu: seq<Ref>, done: set<Ref>)
    requires MarkPhase(body, color, white, lists, tmu, done, {}) && |lists| > 0
    ensures lists[0] in body && lists[0] in color && color[lists[0]].Gray? && body[lists[0]].Traversable()
    ensures lists[0] !in lists[1..]
    ensures MarkPhase(body, color[lists[0] := Black], white, lists[1..], tmu, done, {lists[0]})
    ensures MarkPhase(body, color, white, lists[1..], tmu, done, {lists[0]})
  {
    var o := lists[0];
    var color' := color[o := Black];
    assert o in lists;
    forall r | r in lists && r != o ensures r in lists[1..] {
      var i :| 0 <= i < |lists| && lists[i] == r;
      assert lists[1..][i - 1] == r;
    }
    assert GrayLists(body, color', lists[1..], {o}) && GrayLists(body, color, lists[1..], {o});
    MarkingKeepsInvariant(body, color, color', tmu, done, done, {}, {o});
    MarkingKeepsInvariant(body, color, color, tmu, done, done, {}, {o});
  }

  lemma InsertDistinct(a: seq<Ref>, b: seq<Ref>, h: Ref)
    requires Distinct(a + b) && h !in a + b
    ensures Distinct(a + [h] + b) && forall r :: r in a + [h] + b <==> r == h || r in a + b
  {
    var s := a + [h] + b;
    assert forall i :: 0 <= i < |a| ==> s[i] == (a + b)[i];
    assert forall i :: |a| < i < |s| ==> s[i] == (a + b)[i - 1];
  }

  /** An object that is being traversed joins a list. */
  lemma JoinsList(body: Bodies, color: Colors, white: bool, a: seq<Ref>, b: seq<Ref>, tmu: seq<Ref>, done: set<Ref>,
      ex: set<Ref>, h: Ref)
    requires MarkPhase(body, color, white, a + b, tmu, done, ex) && h in ex && h in body && body[h].Traversable() &&
      h !in a + b
    ensures MarkPhase(body, color, white, a + [h] + b, tmu, done, ex)
  {
    InsertDistinct(a, b, h);
    assert GrayLists(body, color, a + [h] + b, ex);
  }

  /** The traversal of an object that stays gray is over. */
  lemma StaysGray(body: Bodies, color: Colors, white: bool, lists: seq<Ref>, tmu: seq<Ref>, done: set<Ref>, o: Ref)
    requires MarkPhase(body, color, white, lists, tmu, done, {o}) && o in lists && StrongOk(body, color, tmu, o)
    ensures MarkPhase(body, color[o := Gray], white, lists, tmu, done + {o}, {})
  {
    var color' := color[o := Gray];
    assert GrayLists(body, color', lists, {});
    assert forall r :: r in color && !color[r].White? ==> !color'[r].White?;
    forall r | r in body && color'[r].Black? && r !in tmu ensures AllOk(body, color', tmu, r) {
      assert AllOk(body, color, tmu, r);
    }
    forall r | r in done + {o} ensures r in body && StrongOk(body, color', tmu, r) {
      if r != o {
        assert StrongOk(body, color, tmu, r);
      }
    }
  }

  ghost predicate ValuesOk(color: Colors, vs: seq<Value>) {
    forall i :: 0 <= i < |vs| && vs[i].Gco? ==> Ok(color, [], vs[i].ref)
  }

  lemma ValuesStayOk(color: Colors, color': Colors, vs: seq<Value>)
    requires Darker(color, color') && ValuesOk(color, vs)
    ensures ValuesOk(color', vs)
  {
  }

  lemma ValueStaysOk(color: Colors, color': Colors, v: Value)
    requires Darker(color, color') && (v.Gco? ==> Ok(color, [], v.ref))
    ensures v.Gco? ==> Ok(color', [], v.ref)
  {
  }

  /** Everything that a closure, a prototype or a thread refers to is marked. */
  lemma SlotsMarked(body: Bodies, color: Colors, tmu: seq<Ref>, o: Ref)
    requires o in body
    requires body[o].Closure? || body[o].Proto? || body[o].Thread?
    requires body[o].Closure? ==>
      (body[o].env.Gco? ==> Ok(color, [], body[o].env.ref)) && ValuesOk(color, body[o].slots)
    requires body[o].Proto? ==> ValuesOk(color, body[o].slots)
    requires body[o].Thread? ==>
      (body[o].globals.Gco? ==> Ok(color, [], body[o].globals.ref)) && ValuesOk(color, body[o].stack)
    ensures AllOk(body, color, tmu, o) && StrongOk(body, color, tmu, o)
  {
    AllIsStrong(body, color, tmu, o);
  }

  /** The entries from `k` on have been marked, as far as they are strong. */
  ghost predicate EntriesOk(color: Colors, node: seq<Entry>, mode: Mode, k: nat) {
    forall i: nat :: k <= i && LiveEntry(node, i) ==>
      && (!mode.weakKey && node[i].key.Gco? ==> Ok(color, [], node[i].key.ref))
      && (!mode.weakValue && node[i].val.Gco? ==> Ok(color, [], node[i].val.ref))
  }

  lemma TableMarked(body: Bodies, color: Colors, tmu: seq<Ref>, h: Ref)
    requires h in body && body[h].Table?
    requires body[h].meta.Gco? ==> Ok(color, [], body[h].meta.ref)
    requires var mode := ModeOf(body, body[h].meta);
      (!mode.weakValue ==> ValuesOk(color, body[h].arr)) && (EntriesOk(color, body[h].node, mode, 0) ||
        (mode.weakKey && mode.weakValue))
    ensures StrongOk(body, color, tmu, h)
    ensures ModeOf(body, body[h].meta) == Mode(false, false) ==> AllOk(body, color, tmu, h)
  {
    assert forall c :: Gco(c) in body[h].arr ==> exists i :: 0 <= i < |body[h].arr| && body[h].arr[i] == Gco(c);
  }

  // ---- what has been traversed since the program ran last

  /** The gray open upvalues. */
  ghost predicate UpvaluesDone(body: Bodies, color: Colors, done: set<Ref>, ex: set<Ref>) {
    forall r :: r in body && r in color && body[r].IsOpen() && color[r].Gray? && r !in ex ==> r in done
  }

  /** The threads and the tables caught by barriers: only threads are left to be traversed again. */
  ghost predicate AgainDone(body: Bodies, grayagain: seq<Ref>, done: set<Ref>) {
    forall r :: r in grayagain ==> r in done && r in body && body[r].Thread?
  }

  /** The bits of a weak table are those of its mode. */
  ghost predicate BitsMatch(body: Bodies, weakKeys: set<Ref>, weakValues: set<Ref>, h: Ref) {
    && h in body && body[h].Table?
    && (h in weakKeys <==> ModeOf(body, body[h].meta).weakKey)
    && (h in weakValues <==> ModeOf(body, body[h].meta).weakValue)
    && (h in weakKeys || h in weakValues)
  }

  /** The weak tables. */
  ghost predicate WeakDone(body: Bodies, weak: seq<Ref>, done: set<Ref>, weakKeys: set<Ref>, weakValues: set<Ref>) {
    forall r :: r in weak ==> r in done && BitsMatch(body, weakKeys, weakValues, r)
  }

  lemma NoUpvalueRecolored(body: Bodies, color: Colors, done: set<Ref>, h: Ref, c: Color)
    requires h in body && !body[h].UpVal? && h in color
    ensures UpvaluesDone(body, color[h := c], done, {}) <==> UpvaluesDone(body, color, done, {})
  {
  }

  /** A weak table that has been traversed joins the list. */
  lemma WeakJoins(body: Bodies, weak: seq<Ref>, done: set<Ref>, keys: set<Ref>, values: set<Ref>, h: Ref,
      done': set<Ref>, keys': set<Ref>, values': set<Ref>)
    requires WeakDone(body, weak, done, keys, values) && BitsMatch(body, keys', values', h) && h !in weak &&
      done + {h} <= done'
    requires keys - {h} == keys' - {h} && values - {h} == values' - {h}
    ensures WeakDone(body, [h] + weak, done', keys', values')
  {
    forall r | r in weak ensures BitsMatch(body, keys', values', r) {
      assert r in keys - {h} <==> r in keys' - {h};
      assert r in values - {h} <==> r in values' - {h};
    }
  }

  lemma MoreDone(body: Bodies, color: Colors, done: set<Ref>, done': set<Ref>, ex: set<Ref>)
    requires done <= done' && UpvaluesDone(body, color, done, ex)
    ensures UpvaluesDone(body, color, done', ex)
  {
  }

  lemma SameLists(body: Bodies, color: Colors, white: bool, lists: seq<Ref>, lists': seq<Ref>, tmu: seq<Ref>,
      done: set<Ref>, ex: set<Ref>)
    requires MarkPhase(body, color, white, lists, tmu, done, ex)
    requires Distinct(lists') && forall r :: r in lists' <==> r in lists
    ensures MarkPhase(body, color, white, lists', tmu, done, ex)
  {
  }

  lemma Swapped(a: seq<Ref>, b: seq<Ref>)
    requires Distinct(a + b)
    ensures Distinct(b + a) && forall r :: r in b + a <==> r in a + b
  {
    var s, s' := a + b, b + a;
    forall i, j | 0 <= i < j < |s'| ensures s'[i] != s'[j] {
      var i0, j0 := if i < |b| then |a| + i else i - |b|, if j < |b| then |a| + j else j - |b|;
      assert s'[i] == s[i0] && s'[j] == s[j0];
    }
  }

  lemma NothingDone(body: Bodies, color: Colors, white: bool, lists: seq<Ref>, tmu: seq<Ref>, done: set<Ref>,
      ex: set<Ref>)
    requires MarkPhase(body, color, white, lists, tmu, done, ex)
    ensures MarkPhase(body, color, white, lists, tmu, {}, ex)
  {
  }

  /** More userdata wait for their finalizers. */
  lemma MoreQueued(body: Bodies, color: Colors, white: bool, lists: seq<Ref>, tmu: seq<Ref>, tmu': seq<Ref>,
      done: set<Ref>)
    requires MarkPhase(body, color, white, lists, tmu, done, {}) && forall r :: r in tmu ==> r in tmu'
    ensures MarkPhase(body, color, white, lists, tmu', done, {})
  {
    forall r | r in body && r in color && color[r].Black? && r !in tmu' ensures AllOk(body, color, tmu', r) {
      assert AllOk(body, color, tmu, r);
    }
    forall r | r in done ensures r in body && StrongOk(body, color, tmu', r) {
      assert StrongOk(body, color, tmu, r);
    }
  }

  /** A userdata that waits for its finalizer may be marked again. */
  lemma Whitened(body: Bodies, color: Colors, white: bool, lists: seq<Ref>, tmu: seq<Ref>, done: set<Ref>, u: Ref)
    requires MarkPhase(body, color, white, lists, tmu, done, {}) && u in tmu && u in body && body[u].Userdata?
    ensures MarkPhase(body, color[u := White(white)], white, lists, tmu, done - {u}, {})
  {
    var color' := color[u := White(white)];
    assert GrayLists(body, color', lists, {});
    forall r | r in body && r in color' && color'[r].Black? && r !in tmu ensures AllOk(body, color', tmu, r) {
      assert AllOk(body, color, tmu, r);
    }
    forall r | r in done - {u} ensures r in body && StrongOk(body, color', tmu, r) {
      assert StrongOk(body, color, tmu, r);
    }
  }

  // ---- the end of the mark phase

  ghost predicate AllMarked(body: Bodies, color: Colors, r: Ref)
    requires r in body
  {
    forall c :: Refers(body, r, c) ==> c in color && !color[c].White?
  }

  ghost predicate StrongMarked(body: Bodies, color: Colors, r: Ref)
    requires r in body
  {
    forall c :: Strongly(body, r, c) ==> c in color && !color[c].White?
  }

  /** When nothing is left to traverse, what marked objects refer to is marked, except by the weak
      references of weak tables. */
  lemma EverythingMarked(body: Bodies, color: Colors, white: bool, grayagain: seq<Ref>, weak: seq<Ref>, tmu: seq<Ref>,
      done: set<Ref>, keys: set<Ref>, values: set<Ref>)
    requires MarkPhase(body, color, white, grayagain + weak, tmu, done, {})
    requires AgainDone(body, grayagain, done) && WeakDone(body, weak, done, keys, values) &&
      UpvaluesDone(body, color, done, {})
    requires forall u :: u in tmu ==> u in done && u in body && body[u].Userdata?
    ensures forall h :: IsWeak(body, h) && h in color && color[h].Gray? ==> h in weak
    ensures forall r :: r in body && r in color && !color[r].White? ==> StrongMarked(body, color, r)
    ensures forall r :: r in body && r in color && !color[r].White? && r !in weak ==> AllMarked(body, color, r)
  {
    forall r | r in body && r in color && !color[r].White?
      ensures StrongMarked(body, color, r) && (r !in weak ==> AllMarked(body, color, r))
    {
      if r in done {
        assert StrongOk(body, color, tmu, r);
        assert StrongMarked(body, color, r);
        if r !in weak && color[r].Black? && r !in tmu {
          assert AllOk(body, color, tmu, r);
        } else if r !in weak {
          assert !body[r].Table?;
        }
      } else if body[r].TString? {
      } else {
        assert color[r].Black?;
        AllIsStrong(body, color, tmu, r);
        assert AllOk(body, color, tmu, r);
      }
    }
  }

  /** The weak tables that are marked now, and were not black before, are in the list. */
  ghost predicate WeakAreListed(body: Bodies, color0: Colors, color: Colors, weak: seq<Ref>) {
    forall h :: IsWeak(body, h) && h in color && !color[h].White? && !IsBlack(color0, h) ==> h in weak
  }

  lemma GrayAreListed(body: Bodies, color0: Colors, color: Colors, weak: seq<Ref>)
    requires NoWeakBlackened(body, color0, color)
    requires forall h :: IsWeak(body, h) && h in color && color[h].Gray? ==> h in weak
    ensures WeakAreListed(body, color0, color, weak)
  {
    forall h | IsWeak(body, h) && h in color && !color[h].White? && !IsBlack(color0, h) ensures h in weak {
      assert !IsBlack(color, h);
    }
  }

  /** No value of the table is a userdata whose finalizer is to be called, or has been. An array whose values
      are strong may hold one. */
  ghost predicate HoldsNoFinalized(body: Bodies, finalized: set<Ref>, h: Ref) {
    && h in body && body[h].Table?
    && forall u :: u in body && body[u].Userdata? && u in finalized ==>
         && (WeakValued(body, h) ==> Gco(u) !in body[h].arr)
         && forall i :: 0 <= i < |body[h].node| ==> body[h].node[i].val != Gco(u)
  }

  /** Whether an entry with this key or value is removed from a weak table. */
  predicate Clearable(body: Bodies, color: Colors, finalized: set<Ref>, v: Value, isKey: bool) {
    v.Gco? && v.ref in color && v.ref in body && !body[v.ref].TString?
    && (color[v.ref].White? || (body[v.ref].Userdata? && !isKey && v.ref in finalized))
  }

  /** The table at `h` after `cleartable`: exactly the entries that are to be removed are gone. */
  ghost predicate Cleared(body: Bodies, body': Bodies, color: Colors, finalized: set<Ref>, values: set<Ref>, h: Ref) {
    && h in body && body[h].Table?
    && h in body' && body'[h].Table?
    && body'[h] == body[h].(arr := body'[h].arr, node := body'[h].node)
    && |body'[h].arr| == |body[h].arr| && |body'[h].node| == |body[h].node|
    && (forall i :: 0 <= i < |body[h].arr| ==>
          body'[h].arr[i] == if h in values then ClearedSlot(body, color, finalized, body[h].arr[i])
            else body[h].arr[i])
    && (forall i :: 0 <= i < |body[h].node| ==>
       body'[h].node[i] == ClearedEntry(body, color, finalized, body[h].node[i]))
  }

  function ClearedSlot(body: Bodies, color: Colors, finalized: set<Ref>, v: Value): Value {
    if Clearable(body, color, finalized, v, false) then Nil else v
  }

  function ClearedEntry(body: Bodies, color: Colors, finalized: set<Ref>, e: Entry): Entry {
    if e.val != Nil && (Clearable(body, color, finalized, e.key, true) ||
      Clearable(body, color, finalized, e.val, false))
    then e.(val := Nil) else e
  }

  lemma LessDone(body: Bodies, color: Colors, done: set<Ref>, u: Ref)
    requires u in body && !body[u].IsOpen() && UpvaluesDone(body, color, done, {})
    ensures UpvaluesDone(body, color, done - {u}, {})
  {
  }

  /** Strings may have been marked, and nothing else. */
  ghost predicate StringsMarked(body: Bodies, color: Colors, color': Colors) {
    && color'.Keys == color.Keys
    && forall r :: r in color ==> color'[r] == color[r] || (r in body && body[r].TString? && color'[r].Gray?)
  }

  lemma StringsMarkedMore(body: Bodies, c0: Colors, c1: Colors, c2: Colors)
    requires StringsMarked(body, c0, c1) && StringsMarked(body, c1, c2)
    ensures StringsMarked(body, c0, c2)
  {
  }

  /** What may be cleared is no string. */
  lemma ClearableStays(body: Bodies, body': Bodies, c0: Colors, c1: Colors, finalized: set<Ref>, v: Value, isKey: bool)
    requires StringsMarked(body, c0, c1) && body'.Keys == body.Keys
    requires forall r :: r in body ==> body'[r].TString? == body[r].TString? && body'[r].Userdata? == body[r].Userdata?
    ensures Clearable(body', c1, finalized, v, isKey) == Clearable(body, c0, finalized, v, isKey)
  {
  }

  /** Everything a cleared table still refers to is marked. */
  lemma ClearedIsMarked(body: Bodies, body': Bodies, c0: Colors, c: Colors, finalized: set<Ref>, keys: set<Ref>,
      values: set<Ref>, h: Ref)
    requires h in body && body[h].Table? && Cleared(body, body', c0, finalized, values, h) && StringsMarked(body, c0, c)
    requires StrongMarked(body, c0, h) && BitsMatch(body, keys, values, h)
    requires forall i :: 0 <= i < |body'[h].arr| && h in values ==> Reached(c, body'[h].arr[i])
    requires forall i: nat :: LiveEntry(body'[h].node, i) ==>
      Reached(c, body'[h].node[i].key) && Reached(c, body'[h].node[i].val)
    ensures AllMarked(body', c, h)
  {
    forall x | Refers(body', h, x) ensures x in c && !c[x].White? {
      if body'[h].meta == Gco(x) {
        assert Strongly(body, h, x);
      } else if Gco(x) in body'[h].arr {
        var i :| 0 <= i < |body'[h].arr| && body'[h].arr[i] == Gco(x);
        if h !in values {
          assert body[h].arr[i] == Gco(x);
          assert Strongly(body, h, x);
        }
      }
    }
  }

  /** Not a reference to an unmarked object. */
  ghost predicate Reached(color: Colors, v: Value) {
    v.Gco? ==> v.ref in color && !color[v.ref].White?
  }

  /** The heap may have lost entries of tables, and nothing else. */
  ghost predicate SameKinds(body: Bodies, body': Bodies) {
    && body'.Keys == body.Keys
    && forall r :: r in body ==> SameKind(body[r], body'[r])
  }

  predicate SameKind(b: Body, b': Body) {
    b' == b || (b.Table? && b'.Table? && b' == b.(arr := b'.arr, node := b'.node))
  }

  lemma KindsKeep(body: Bodies, body': Bodies, color: Colors, color': Colors, keys: set<Ref>, values: set<Ref>, h: Ref)
    requires SameKinds(body, body') && h in body && body'[h] == body[h] && body[h].Table?
    requires BitsMatch(body, keys, values, h) && StrongMarked(body, color, h) && StringsMarked(body, color, color')
    ensures BitsMatch(body', keys, values, h) && StrongMarked(body', color', h)
    ensures forall c :: Refers(body', h, c) == Refers(body, h, c)
  {
    assert ModeOf(body', body[h].meta) == ModeOf(body, body[h].meta);
  }

  lemma ClearedSinceStart(body0: Bodies, body: Bodies, body': Bodies, color0: Colors, color: Colors,
      finalized: set<Ref>, values: set<Ref>, h: Ref)
    requires SameKinds(body0, body) && StringsMarked(body0, color0, color) && h in body && body[h].Table? &&
      body[h] == body0[h]
    requires Cleared(body, body', color, finalized, values, h)
    ensures Cleared(body0, body', color0, finalized, values, h)
  {
    forall v, isKey ensures Clearable(body, color, finalized, v, isKey) ==
      Clearable(body0, color0, finalized, v, isKey) {
      ClearableStays(body0, body, color0, color, finalized, v, isKey);
    }
  }

  /** A cleared table holds no finalized userdata. */
  lemma ClearedHoldsNoFinalized(body: Bodies, body': Bodies, color: Colors, finalized: set<Ref>, keys: set<Ref>,
      values: set<Ref>, h: Ref)
    requires SameKinds(body, body') && h in body && body[h].Table? && BitsMatch(body, keys, values, h)
    requires Cleared(body, body', color, finalized, values, h) && body.Keys == color.Keys
    ensures HoldsNoFinalized(body', finalized, h)
  {
    hide BitsMatch;
    SameModes(body, body', h);
    ValueBit(body, keys, values, h);
    forall u | u in body' && body'[u].Userdata? && u in finalized
      ensures WeakValued(body', h) ==> Gco(u) !in body'[h].arr
      ensures forall i :: 0 <= i < |body'[h].node| ==> body'[h].node[i].val != Gco(u)
    {
      assert SameKind(body[u], body'[u]);
      assert Clearable(body, color, finalized, Gco(u), false);
      assert forall i :: 0 <= i < |body'[h].arr| && WeakValued(body', h) ==> body'[h].arr[i] != Gco(u);
    }
  }

  lemma SameModes(body: Bodies, body': Bodies, h: Ref)
    requires SameKinds(body, body')
    ensures IsWeak(body', h) == IsWeak(body, h) && WeakValued(body', h) == WeakValued(body, h)
  {
    assert h in body ==> SameKind(body[h], body'[h]);
    if h in body && body[h].Table? && body[h].meta.Gco? && body[h].meta.ref in body {
      assert SameKind(body[body[h].meta.ref], body'[body[h].meta.ref]);
    }
  }

  lemma ValueBit(body: Bodies, keys: set<Ref>, values: set<Ref>, h: Ref)
    requires BitsMatch(body, keys, values, h)
    ensures h in values <==> WeakValued(body, h)
  {
  }

  // ---- objects that are not dead

  ghost predicate Alive(color: Colors, white: bool, r: Ref) {
    r in color && color[r] != White(!white)
  }

  ghost predicate AliveValue(color: Colors, white: bool, v: Value) {
    v.Gco? ==> Alive(color, white, v.ref)
  }

  /** Live objects refer to live objects. */
  ghost predicate Safe(body: Bodies, color: Colors, white: bool) {
    && body.Keys == color.Keys
    && forall r :: r in body && Alive(color, white, r) ==> AllAlive(body, color, white, r)
  }

  ghost predicate AllAlive(body: Bodies, color: Colors, white: bool, r: Ref)
    requires r in body
  {
    forall c :: Refers(body, r, c) ==> Alive(color, white, c)
  }

  /** A chain of strong references. */
  ghost predicate StrongPath(body: Bodies, path: seq<Ref>) {
    && |path| > 0 && (forall i :: 0 <= i < |path| ==> path[i] in body)
    && forall i {:trigger StrongLink(body, path, i)} :: 0 <= i < |path| - 1 ==> StrongLink(body, path, i)
  }

  ghost predicate StrongLink(body: Bodies, path: seq<Ref>, i: nat)
    requires i + 1 < |path| && path[i] in body
  {
    Strongly(body, path[i], path[i + 1])
  }

  ghost predicate StronglyReachable(body: Bodies, roots: set<Ref>, r: Ref) {
    exists path :: StrongPath(body, path) && path[0] in roots && path[|path| - 1] == r
  }

  lemma {:induction false} PathIsMarked(body: Bodies, color: Colors, path: seq<Ref>)
    requires StrongPath(body, path) && path[0] in color && !color[path[0]].White?
    requires forall r :: r in body && r in color && !color[r].White? ==> StrongMarked(body, color, r)
    ensures var r := path[|path| - 1]; r in color && !color[r].White?
    decreases |path|
  {
    if |path| > 1 {
      assert StrongLink(body, path, 0);
      assert path[1] in color && !color[path[1]].White?;
      forall i | 0 <= i < |path[1..]| - 1 ensures StrongLink(body, path[1..], i) {
        assert StrongLink(body, path, i + 1);
      }
      PathIsMarked(body, color, path[1..]);
    }
  }

  lemma ReachableIsMarked(body: Bodies, color: Colors, roots: set<Ref>, r: Ref)
    requires StronglyReachable(body, roots, r)
    requires forall x :: x in roots ==> x in color && !color[x].White?
    requires forall r :: r in body && r in color && !color[r].White? ==> StrongMarked(body, color, r)
    ensures r in color && !color[r].White?
  {
    var path :| StrongPath(body, path) && path[0] in roots && path[|path| - 1] == r;
    PathIsMarked(body, color, path);
  }

  /** After the weak tables have been cleared, marked objects refer to marked objects only. */
  lemma ClearedIsSafe(body: Bodies, body': Bodies, color: Colors, color': Colors, white: bool, weak: seq<Ref>)
    requires SameKinds(body, body') && StringsMarked(body, color, color') && body.Keys == color.Keys
    requires forall r :: r in body && r !in weak ==> body'[r] == body[r]
    requires forall r :: r in body && !color[r].White? && r !in weak ==> AllMarked(body, color, r)
    requires forall r :: r in weak ==> r in body && AllMarked(body', color', r)
    requires forall r :: r in color ==> color[r] != White(!white)
    requires forall r :: r in weak ==> body[r].Table?
    ensures Safe(body', color', !white)
  {
    forall r | r in body' && Alive(color', !white, r) ensures AllAlive(body', color', !white, r) {
      assert !color'[r].White?;
      if r in weak {
        assert AllMarked(body', color', r);
      } else if body[r].TString? {
      } else {
        assert color'[r] == color[r];
        assert AllMarked(body, color, r);
        forall c | Refers(body', r, c) ensures Alive(color', !white, c) {
          SameReference(body, body', r, c);
        }
      }
    }
  }

  lemma SameReference(body: Bodies, body': Bodies, r: Ref, c: Ref)
    requires SameKinds(body, body') && r in body && body'[r] == body[r] && Refers(body', r, c)
    ensures Refers(body, r, c)
  {
    if body[r].IsOpen() && body[r].v.thread in body {
      assert body'[body[r].v.thread] == body[body[r].v.thread] || body[body[r].v.thread].Table?;
    }
  }

  // ---- lists

  lemma {:induction false} DistinctByCount(s: seq<Ref>)
    ensures Distinct(s) <==> forall x :: multiset(s)[x] <= 1
  {
    if s != [] {
      var front, last := s[..|s| - 1], s[|s| - 1];
      DistinctByCount(front);
      assert s == front + [last];
      if Distinct(s) {
        assert last !in front;
        assert multiset(front)[last] == 0;
      } else if Distinct(front) {
        assert last in front;
        assert multiset(s)[last] > 1;
      } else {
        var x :| multiset(front)[x] > 1;
        assert multiset(s)[x] > 1;
      }
    }
  }

  lemma PermutedDistinct(s: seq<Ref>, s': seq<Ref>)
    requires multiset(s) == multiset(s') && Distinct(s)
    ensures Distinct(s') && forall x :: x in s' <==> x in s
  {
    DistinctByCount(s);
    DistinctByCount(s');
    forall x ensures x in s' <==> x in s {
      assert x in s' <==> x in multiset(s');
    }
  }

  /** What `atomic` needs to know of the other lists. */
  ghost predicate AtomicLists(body: Bodies, udata: seq<Ref>, tmu: seq<Ref>, uvhead: seq<Ref>, running: Ref,
      mt: seq<Value>) {
    && Distinct(udata + tmu)
    && (forall u :: u in udata + tmu ==> u in body && body[u].Userdata?)
    && (forall r :: r in body && body[r].IsOpen() ==> r in uvhead)
    && running in body && (forall i :: 0 <= i < |mt| && mt[i].Gco? ==> mt[i].ref in body)
  }

  lemma OpenAreListed(body: Bodies, udata: seq<Ref>, tmu: seq<Ref>, uvhead: seq<Ref>, running: Ref, mt: seq<Value>)
    requires AtomicLists(body, udata, tmu, uvhead, running, mt)
    ensures forall r :: r in body && body[r].IsOpen() ==> r in uvhead
    ensures running in body && forall i :: 0 <= i < |mt| && mt[i].Gco? ==> mt[i].ref in body
  {
  }

  ghost function RootsOf(mainthread: Ref, running: Ref, registry: Value, mt: seq<Value>, tmu: seq<Ref>): set<Ref> {
    {mainthread, running} + (set u | u in tmu) + (if registry.Gco? then {registry.ref} else {})
    + (set i | 0 <= i < |mt| && mt[i].Gco? :: mt[i].ref)
  }

  lemma RootsAreMarked(c1: Colors, color: Colors, mainthread: Ref, running: Ref, registry: Value, mt: seq<Value>,
      tmu: seq<Ref>)
    requires c1.Keys == color.Keys && forall r :: r in c1 && !c1[r].White? ==> !color[r].White?
    requires mainthread in c1 && !c1[mainthread].White? && running in c1 && !c1[running].White?
    requires Reached(c1, registry) && ValuesOk(c1, mt) && forall u :: u in tmu ==> u in color && !color[u].White?
    ensures forall r :: r in RootsOf(mainthread, running, registry, mt, tmu) ==> r in color && !color[r].White?
  {
  }

  /** The first `n` tables of the weak list have been cleared. */
  ghost predicate ClearedSoFar(body0: Bodies, color0: Colors, body: Bodies, color: Colors, finalized: set<Ref>,
      values: set<Ref>, weak: seq<Ref>, n: nat) {
    && n <= |weak| && SameKinds(body0, body) && StringsMarked(body0, color0, color)
    && (forall r :: r in body0 && r !in weak[..n] ==> body[r] == body0[r])
    && (forall h :: h in weak[..n] ==>
       h in body && Cleared(body0, body, color0, finalized, values, h) && AllMarked(body, color, h))
  }

  /** What a weak table loses: an entry whose key or value is dead, or whose value is a userdata about to be
      finalized. */
  ghost predicate LostOnlyDead(body: Bodies, body': Bodies, color': Colors, white': bool, finalized: set<Ref>) {
    forall h :: h in body && h in body' && body[h].Table? && body'[h].Table? ==>
      TableLostOnlyDead(body, body[h], body'[h], color', white', finalized)
  }

  ghost predicate TableLostOnlyDead(body: Bodies, t: Body, t': Body, color': Colors, white': bool, finalized: set<Ref>)
    requires t.Table? && t'.Table?
  {
    && SameLengths(t, t')
    && (forall i :: 0 <= i < |t.arr| ==>
          t'.arr[i] == t.arr[i] || (t'.arr[i] == Nil && Lost(body, color', white', finalized, t.arr[i], false)))
    && (forall i :: 0 <= i < |t.node| ==>
          t'.node[i] == t.node[i] || (t'.node[i] == t.node[i].(val := Nil) &&
            (Lost(body, color', white', finalized, t.node[i].key, true) ||
             Lost(body, color', white', finalized, t.node[i].val, false))))
  }

  predicate SameLengths(b: Body, b': Body)
    requires b.Table? && b'.Table?
  {
    |b'.arr| == |b.arr| && |b'.node| == |b.node|
  }

  predicate Lost(body: Bodies, color': Colors, white': bool, finalized: set<Ref>, v: Value, isKey: bool) {
    v.Gco? && v.ref in color' && v.ref in body && !body[v.ref].TString?
    && (color'[v.ref] == White(!white') || (!isKey && body[v.ref].Userdata? && v.ref in finalized))
  }
}
